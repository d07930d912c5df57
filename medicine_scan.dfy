/**
 * The OCR line picker of the scan page: split the recognised text into
 * lines, trim them, keep those longer than two characters, and return the
 * first that is not all digits and mentions none of "batch", "mfg", "exp"
 * in any case.
 */
module MedicineScan {
  import opened Wrappers
  import opened Text

  /** `.map((l) => l.trim()).filter((l) => l.length > 2)`. */
  function LongTrimmed(parts: seq<string>): (lines: seq<string>)
    ensures |lines| <= |parts|
    ensures forall k :: 0 <= k < |lines| ==> |lines[k]| > 2 && IsTrimmed(lines[k])
  {
    if |parts| == 0 then []
    else
      var line := Trim(parts[0]);
      (if |line| > 2 then [line] else []) + LongTrimmed(parts[1..])
  }

  /** The candidate lines of the OCR text. */
  function CandidateLines(text: string): seq<string> {
    LongTrimmed(Split(text, '\n'))
  }

  /** The lines the loop passes over: all digits, or a label of a batch
      number, manufacturing date or expiry date. */
  predicate Skipped(line: string) {
    || AllDigits(line)
    || Contains(Lower(line), "batch")
    || Contains(Lower(line), "mfg")
    || Contains(Lower(line), "exp")
  }

  /** A candidate is exactly a trimmed piece longer than two characters. */
  lemma {:induction false} LongTrimmedMembers(parts: seq<string>, x: string)
    ensures x in LongTrimmed(parts) <==> |x| > 2 && exists k :: 0 <= k < |parts| && Trim(parts[k]) == x
    decreases |parts|
  {
    if |parts| > 0 {
      LongTrimmedMembers(parts[1..], x);
      if exists k :: 0 <= k < |parts| && Trim(parts[k]) == x {
        var k :| 0 <= k < |parts| && Trim(parts[k]) == x;
        if k > 0 {
          assert parts[1..][k - 1] == parts[k];
        }
      }
      if exists k :: 0 <= k < |parts[1..]| && Trim(parts[1..][k]) == x {
        var k :| 0 <= k < |parts[1..]| && Trim(parts[1..][k]) == x;
        assert parts[k + 1] == parts[1..][k];
      }
    }
  }

  /** Candidates keep the order of the lines they come from: the candidates
      of two runs of lines are those of the first followed by those of the
      second. */
  lemma {:induction false} LongTrimmedOrder(a: seq<string>, b: seq<string>)
    ensures LongTrimmed(a + b) == LongTrimmed(a) + LongTrimmed(b)
    decreases |a|
  {
    if |a| == 0 {
      assert a + b == b;
    } else {
      assert (a + b)[1..] == a[1..] + b;
      LongTrimmedOrder(a[1..], b);
    }
  }

  /** `cleanMedicineText(text)`: the first candidate that is not skipped, or
      `None` (the source's `null`) when every candidate is. */
  method CleanMedicineText(text: string) returns (r: Option<string>)
    ensures var lines := CandidateLines(text);
      && (r.None? <==> forall k :: 0 <= k < |lines| ==> Skipped(lines[k]))
      && (r.Some? ==> exists i :: 0 <= i < |lines| && lines[i] == r.value && !Skipped(lines[i])
                                  && forall k :: 0 <= k < i ==> Skipped(lines[k]))
  {
    var lines := CandidateLines(text);
    var i := 0;
    while i < |lines|
      invariant 0 <= i <= |lines|
      invariant forall k :: 0 <= k < i ==> Skipped(lines[k])
    {
      var line := lines[i];
      if AllDigits(line) {
        i := i + 1;
        continue;
      }
      var lower := Lower(line);
      if Contains(lower, "batch") {
        i := i + 1;
        continue;
      }
      if Contains(lower, "mfg") {
        i := i + 1;
        continue;
      }
      if Contains(lower, "exp") {
        i := i + 1;
        continue;
      }
      return Some(line);
    }
    return None;
  }

  /** What the picker returns is a trimmed line of the text, longer than two
      characters, and never a skipped one. */
  lemma PickedLineShape(text: string, line: string)
    requires line in CandidateLines(text)
    ensures |line| > 2 && IsTrimmed(line)
    ensures exists k :: 0 <= k < |Split(text, '\n')| && Trim(Split(text, '\n')[k]) == line
  {
    LongTrimmedMembers(Split(text, '\n'), line);
  }
}
