/**
 * The span the services cut out of a model reply before handing it to
 * JSON.parse: the first match of the regular expression `\{[\s\S]*\}`.
 * The star is greedy, so the match runs from the first `{` to the LAST `}`
 * after it; it is not a balanced-brace scan.
 */
module BraceSpan {
  import opened Wrappers
  import opened Text

  /** `text[i..j]` is a match of `\{[\s\S]*\}`: it opens with `{`, closes with `}`
      and holds anything in between. */
  predicate IsMatch(text: string, i: nat, j: nat) {
    i + 1 < j <= |text| && text[i] == '{' && text[j - 1] == '}'
  }

  /** The half-open bounds of the match `String.prototype.match` returns. */
  function MatchBounds(text: string): Option<(nat, nat)> {
    match IndexOf(text, '{')
    case None => None
    case Some(i) =>
      match LastIndexOf(text, '}')
      case None => None
      case Some(j) => if i < j then Some((i, j + 1)) else None
  }

  /** `text.match(/\{[\s\S]*\}/)?.[0]`. */
  function Span(text: string): (r: Option<string>)
    ensures r.Some? ==> |r.value| >= 2 && r.value[0] == '{' && r.value[|r.value| - 1] == '}'
  {
    match MatchBounds(text)
    case None => None
    case Some((i, j)) => Some(text[i..j])
  }

  /** The bounds are those of the regular-expression engine: no match exists
      exactly when none is returned, and the one returned starts leftmost and,
      among the matches starting there, is the longest. */
  lemma MatchBoundsLeftmostLongest(text: string)
    ensures MatchBounds(text).None? <==> forall i: nat, j: nat :: !IsMatch(text, i, j)
    ensures MatchBounds(text).Some? ==>
      var (s, e) := MatchBounds(text).value;
      && IsMatch(text, s, e)
      && forall i: nat, j: nat :: IsMatch(text, i, j) ==> s < i || (s == i && j <= e)
  {
    match IndexOf(text, '{') {
      case None =>
        forall i: nat, j: nat ensures !IsMatch(text, i, j) {
          if i < |text| { assert text[i] in text; }
        }
      case Some(f) =>
        assert '{' !in text[..f];
        match LastIndexOf(text, '}') {
          case None =>
            forall i: nat, j: nat ensures !IsMatch(text, i, j) {
              if 0 < j <= |text| { assert text[j - 1] in text; }
            }
          case Some(l) =>
            assert '}' !in text[l + 1..];
            forall i: nat, j: nat | IsMatch(text, i, j)
              ensures f <= i && j <= l + 1
            {
            }
            if f < l {
              assert MatchBounds(text) == Some((f, l + 1));
              assert IsMatch(text, f, l + 1);
            } else {
              assert MatchBounds(text) == None;
            }
        }
    }
  }

  /** The span is absent exactly when no `}` follows the first `{`; when present
      it is the text from the first `{` through the last `}`, and no `{` comes
      before it and no `}` after it. */
  lemma {:induction false} SpanShape(text: string)
    ensures Span(text).None? <==>
      (match IndexOf(text, '{')
       case None => true
       case Some(f) => '}' !in text[f + 1..])
    ensures Span(text).Some? ==>
      exists i: nat, j: nat :: IsMatch(text, i, j) && Span(text).value == text[i..j]
        && '{' !in text[..i] && '}' !in text[j..]
  {
    match IndexOf(text, '{') {
      case None =>
      case Some(f) =>
        match LastIndexOf(text, '}') {
          case None =>
            assert forall k :: f + 1 <= k < |text| ==> text[k] in text;
          case Some(l) =>
            if l <= f {
              forall k | f + 1 <= k < |text| ensures text[k] != '}' {
                assert text[l + 1..][k - (l + 1)] == text[k];
              }
            } else {
              assert text[f + 1..][l - (f + 1)] == '}';
              assert IsMatch(text, f, l + 1) && Span(text).value == text[f..l + 1];
            }
        }
    }
  }

  /** Greedy, not balanced: with two objects in the reply the span covers both
      and the prose between them. */
  lemma GreedyAcrossObjects()
    ensures Span("x{a} {b}y") == Some("{a} {b}")
  {
    var t := "x{a} {b}y";
    assert IndexOf(t[1..], '{') == Some(0);
    assert IndexOf(t, '{') == Some(1);
    assert LastIndexOf(t[..8], '}') == Some(7);
    assert LastIndexOf(t, '}') == Some(7);
    assert t[1..8] == "{a} {b}";
  }
}
