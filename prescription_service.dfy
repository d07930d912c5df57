/**
 * Prescription processing: the recognised text of the image goes to the
 * text-generation service, whose reply is reduced to one line of
 * comma-separated names, split into distinct trimmed names, and each name is
 * resolved through the medicine service, skipping the ones that fail.
 */
module PrescriptionService {
  import opened Wrappers
  import opened Js
  import opened Text
  import opened BraceSpan
  import opened MedicineModel
  import opened MedicineNormalizer
  import opened MedicineService

  // ---------------------------------------------------------------------
  // The reply line

  /** `extractJSONorText(text)`. Here `None` is a reply whose `text` is
      undefined (not a rejected call, which never reaches this function);
      undefined and "" are both falsy and give "". A brace span that parses
      to an object whose `medicines` is a string gives that string; any
      other reply, including one whose span does not parse, gives the
      trimmed reply. */
  function ExtractJSONorText(text: Option<string>, parse: Parser): (r: string)
    ensures text.None? || text.value == "" ==> r == ""
    ensures text.Some? && text.value != "" ==>
      var span := Span(text.value);
      if span.Some? && parse(span.value).Some? && Field(Obj(parse(span.value).value), "medicines").Str?
      then r == Field(Obj(parse(span.value).value), "medicines").s
      else r == Trim(text.value)
  {
    if text.None? || text.value == "" then ""
    else
      var fallback := Trim(text.value);
      match Span(text.value)
      case None => fallback
      case Some(span) =>
        match parse(span)
        case None => fallback
        case Some(parsed) =>
          var medicines := Field(Obj(parsed), "medicines");
          if medicines.Str? then medicines.s else fallback
  }

  /** A reply without any `{...}` span is taken as the line itself, trimmed,
      whatever the parser would have said. */
  lemma PlainLineIsTrimmed(text: string, parse: Parser, other: Parser)
    requires text != "" && Span(text).None?
    ensures ExtractJSONorText(Some(text), parse) == Trim(text)
    ensures ExtractJSONorText(Some(text), parse) == ExtractJSONorText(Some(text), other)
    ensures IsTrimmed(ExtractJSONorText(Some(text), parse))
  {
  }

  // ---------------------------------------------------------------------
  // Splitting the line into names

  /** `.map((s) => s.trim())`. */
  function TrimAll(xs: seq<string>): (r: seq<string>)
    ensures |r| == |xs|
    ensures forall k :: 0 <= k < |r| ==> r[k] == Trim(xs[k])
  {
    seq(|xs|, k requires 0 <= k < |xs| => Trim(xs[k]))
  }

  /** `.filter((s) => s.length > 0)`. */
  function NonEmpty(xs: seq<string>): (r: seq<string>)
    ensures |r| <= |xs|
  {
    if |xs| == 0 then []
    else (if xs[0] != "" then [xs[0]] else []) + NonEmpty(xs[1..])
  }

  /** The filter keeps exactly the non-empty elements. */
  lemma {:induction false} NonEmptyMembers(xs: seq<string>, x: string)
    ensures x in NonEmpty(xs) <==> x in xs && x != ""
    decreases |xs|
  {
    if |xs| > 0 {
      NonEmptyMembers(xs[1..], x);
      assert xs == [xs[0]] + xs[1..];
    }
  }

  /** `.filter((v, i, a) => a.indexOf(v) === i)`: an element is kept when no
      earlier element equals it, that is, at its first occurrence. */
  function Dedupe<T(==)>(xs: seq<T>): (r: seq<T>)
    ensures |r| <= |xs|
  {
    if |xs| == 0 then []
    else
      var init := xs[..|xs| - 1];
      var last := xs[|xs| - 1];
      Dedupe(init) + (if last in init then [] else [last])
  }

  predicate NoDuplicates<T(==)>(xs: seq<T>) {
    forall i, j :: 0 <= i < j < |xs| ==> xs[i] != xs[j]
  }

  /** The de-duplicated list holds the same elements as its input. */
  lemma {:induction false} DedupeMembers<T>(xs: seq<T>, x: T)
    ensures x in Dedupe(xs) <==> x in xs
    decreases |xs|
  {
    if |xs| > 0 {
      var init := xs[..|xs| - 1];
      DedupeMembers(init, x);
      assert xs == init + [xs[|xs| - 1]];
    }
  }

  /** No element occurs twice in the de-duplicated list. */
  lemma {:induction false} DedupeNoDuplicates<T>(xs: seq<T>)
    ensures NoDuplicates(Dedupe(xs))
    decreases |xs|
  {
    if |xs| > 0 {
      var init := xs[..|xs| - 1];
      var last := xs[|xs| - 1];
      DedupeNoDuplicates(init);
      if last !in init {
        DedupeMembers(init, last);
      }
    }
  }

  /** Every element of `r` occurs in `xs`, and `r` lists them in the order
      of their first occurrences in `xs`. */
  predicate InFirstOccurrenceOrder<T(==)>(r: seq<T>, xs: seq<T>) {
    forall i, j :: 0 <= i < j < |r| ==>
      IndexOf(xs, r[i]).Some? && IndexOf(xs, r[j]).Some? &&
      IndexOf(xs, r[i]).value < IndexOf(xs, r[j]).value
  }

  /** The kept elements stay in the order of their first occurrences. */
  lemma {:induction false} DedupeFirstOccurrenceOrder<T>(xs: seq<T>)
    ensures InFirstOccurrenceOrder(Dedupe(xs), xs)
    decreases |xs|
  {
    if |xs| > 0 {
      var init := xs[..|xs| - 1];
      var last := xs[|xs| - 1];
      var r := Dedupe(xs);
      var ri := Dedupe(init);
      DedupeFirstOccurrenceOrder(init);
      assert xs == init + [last];
      forall x | x in init ensures IndexOf(xs, x) == IndexOf(init, x) {
        IndexOfPrefix(init, [last], x);
      }
      forall i | 0 <= i < |ri| ensures ri[i] in init {
        DedupeMembers(init, ri[i]);
      }
      if last !in init {
        IndexOfAfter(init, last, []);
        assert init + [last] + [] == xs;
      }
      assert r == ri + (if last in init then [] else [last]);
      forall i, j | 0 <= i < j < |r|
        ensures IndexOf(xs, r[i]).Some? && IndexOf(xs, r[j]).Some? &&
                IndexOf(xs, r[i]).value < IndexOf(xs, r[j]).value
      {
        assert r[i] == ri[i] && ri[i] in init;
        assert IndexOf(xs, r[i]) == IndexOf(init, ri[i]);
        if j < |ri| {
          assert r[j] == ri[j] && ri[j] in init;
          assert IndexOf(xs, r[j]) == IndexOf(init, ri[j]);
        } else {
          assert r[j] == last && IndexOf(xs, r[j]) == Some(|init|);
        }
      }
    } else {
      assert Dedupe(xs) == [];
    }
  }

  /** The first occurrence of an element of a prefix is found inside the prefix. */
  lemma IndexOfPrefix<T>(a: seq<T>, b: seq<T>, x: T)
    requires x in a
    ensures IndexOf(a + b, x) == IndexOf(a, x)
  {
    var i := IndexOf(a, x).value;
    assert (a + b)[..i] == a[..i];
    assert (a + b)[i] == x;
    IndexOfIsFirst(a + b, x, i);
  }

  /** A position holding `x` with no `x` before it is what `IndexOf` finds. */
  lemma IndexOfIsFirst<T>(s: seq<T>, x: T, i: nat)
    requires i < |s| && s[i] == x && x !in s[..i]
    ensures IndexOf(s, x) == Some(i)
  {
    IndexOfAfter(s[..i], x, s[i + 1..]);
    assert s[..i] + [x] + s[i + 1..] == s;
  }

  /** The chain after the split: trim each piece, drop the empty ones, keep
      first occurrences. */
  function CleanNames(parts: seq<string>): seq<string> {
    Dedupe(NonEmpty(TrimAll(parts)))
  }

  /** `splitCSVNames(line)`. */
  function SplitCSVNames(line: string): seq<string> {
    if line == "" then [] else CleanNames(Split(line, ','))
  }

  /** The cleaned names are exactly the non-empty trimmed pieces. */
  lemma CleanNamesMembers(parts: seq<string>, x: string)
    ensures x in CleanNames(parts) <==> (x != "" && exists p :: p in parts && Trim(p) == x)
  {
    var trimmed := TrimAll(parts);
    DedupeMembers(NonEmpty(trimmed), x);
    NonEmptyMembers(trimmed, x);
    if x in trimmed {
      var k :| 0 <= k < |trimmed| && trimmed[k] == x;
      assert parts[k] in parts;
    }
    if exists p :: p in parts && Trim(p) == x {
      var p :| p in parts && Trim(p) == x;
      var k :| 0 <= k < |parts| && parts[k] == p;
      assert trimmed[k] == x;
    }
  }

  /** The names are exactly the non-empty trimmed pieces between commas; an
      empty line has none. */
  lemma SplitCSVNamesMembers(line: string, x: string)
    ensures x in SplitCSVNames(line) <==>
      (line != "" && x != "" && exists p :: p in Split(line, ',') && Trim(p) == x)
  {
    if line != "" {
      CleanNamesMembers(Split(line, ','), x);
    }
  }

  /** Trimming keeps a character-free property of its input: what `p` does
      not hold, `Trim(p)` does not hold. */
  lemma TrimKeepsAbsent(p: string, c: char)
    requires c !in p
    ensures c !in Trim(p)
  {
    var i, j := TrimSlice(p);
    assert forall k :: 0 <= k < |Trim(p)| ==> Trim(p)[k] == p[i + k];
  }

  /** Every name is non-empty, trimmed and holds no comma. */
  lemma SplitCSVNamesShape(line: string, x: string)
    requires x in SplitCSVNames(line)
    ensures x != "" && IsTrimmed(x) && ',' !in x
  {
    SplitCSVNamesMembers(line, x);
    assert line != "" && x != "";
    var p :| p in Split(line, ',') && Trim(p) == x;
    assert ',' !in p;
    TrimKeepsAbsent(p, ',');
    assert IsTrimmed(Trim(p));
  }

  /** The cleaned names are distinct and in the order of their first
      occurrence among the non-empty trimmed pieces. */
  lemma CleanNamesOrder(parts: seq<string>)
    ensures NoDuplicates(CleanNames(parts))
    ensures InFirstOccurrenceOrder(CleanNames(parts), NonEmpty(TrimAll(parts)))
  {
    DedupeNoDuplicates(NonEmpty(TrimAll(parts)));
    DedupeFirstOccurrenceOrder(NonEmpty(TrimAll(parts)));
  }

  /** No name repeats, and the names come in the order of their first
      occurrence among the non-empty trimmed pieces between commas. */
  lemma SplitCSVNamesOrder(line: string)
    ensures NoDuplicates(SplitCSVNames(line))
    ensures line != "" ==> InFirstOccurrenceOrder(SplitCSVNames(line), NonEmpty(TrimAll(Split(line, ','))))
  {
    if line != "" {
      CleanNamesOrder(Split(line, ','));
    }
  }

  // ---------------------------------------------------------------------
  // Resolving the names

  /** The functions medicine.service.js exports. */
  const MedicineServiceExports: set<string> := {"getMedicineByName"}

  /** The loop calls the imported name `checkDBorAI`; the corrected loop calls
      `getMedicineByName`, the one the medicine service provides. */
  const AsWrittenCallee: string := "checkDBorAI"
  const CorrectedCallee: string := "getMedicineByName"

  /** Calling an imported name: a name the module does not export is
      `undefined`, and calling it throws a TypeError. */
  function CallResolver(callee: string, store: Store, name: string, svc: Services): Resolution {
    if callee in MedicineServiceExports then Resolve(store, name, svc)
    else Resolution(Failure(TypeError), store)
  }

  /** The loop over `names`, through the resolver `callee`: successes are pushed
      in order, failures are caught and skipped. Gives the medicines and the
      store after the loop. */
  function ResolveNames(callee: string, store: Store, names: seq<string>, svc: Services): (r: (seq<MedicineRecord>, Store))
    ensures |r.0| <= |names|
  {
    if |names| == 0 then ([], store)
    else
      var before := ResolveNames(callee, store, names[..|names| - 1], svc);
      var res := CallResolver(callee, before.1, names[|names| - 1], svc);
      (before.0 + (if res.outcome.Success? then [res.outcome.value] else []), res.store)
  }

  /** As written, the call throws for every name: the loop resolves nothing
      and the store is untouched. */
  lemma {:induction false} AsWrittenResolvesNothing(store: Store, names: seq<string>, svc: Services)
    ensures ResolveNames(AsWrittenCallee, store, names, svc) == ([], store)
    decreases |names|
  {
    if |names| > 0 {
      AsWrittenResolvesNothing(store, names[..|names| - 1], svc);
    }
  }

  /** A single name that the medicine service resolves is still lost as written. */
  lemma AsWrittenLosesResolvableName(store: Store, name: string, svc: Services)
    requires Resolve(store, name, svc).outcome.Success?
    ensures ResolveNames(AsWrittenCallee, store, [name], svc).0 == []
    ensures ResolveNames(CorrectedCallee, store, [name], svc).0 == [Resolve(store, name, svc).outcome.value]
  {
    assert [name][..0] == [];
  }

  /** Every record of `store` is still in `after`, unchanged. */
  predicate Extends(store: Store, after: Store) {
    forall k :: k in store ==> k in after && after[k] == store[k]
  }

  /** `m` is stored under its own `normalizedName`. */
  predicate Cached(store: Store, m: MedicineRecord) {
    m.normalizedName in store && store[m.normalizedName] == m
  }

  /** One resolution keeps the invariant, keeps every stored record, and
      caches the record it returns. */
  lemma ResolveStep(store: Store, name: string, svc: Services)
    requires StoreInvariant(store)
    ensures var res := Resolve(store, name, svc);
      && StoreInvariant(res.store)
      && Extends(store, res.store)
      && (res.outcome.Success? ==> Cached(res.store, res.outcome.value))
  {
    var res := Resolve(store, name, svc);
    ResolveKeepsStore(store, name, svc);
    if res.outcome.Success? {
      ResolvedIsCached(store, name, svc);
    }
  }

  /** With the corrected callee, the loop keeps the store invariant, never
      changes a stored record, and every medicine it returns is cached under
      its own `normalizedName` afterwards. */
  lemma {:induction false} ResolvedNamesAreCached(store: Store, names: seq<string>, svc: Services)
    requires StoreInvariant(store)
    ensures var (meds, after) := ResolveNames(CorrectedCallee, store, names, svc);
      && StoreInvariant(after)
      && Extends(store, after)
      && (forall m :: m in meds ==> Cached(after, m))
    decreases |names|
  {
    if |names| > 0 {
      var init := names[..|names| - 1];
      var name := names[|names| - 1];
      var before := ResolveNames(CorrectedCallee, store, init, svc);
      ResolvedNamesAreCached(store, init, svc);
      var res := Resolve(before.1, name, svc);
      assert CallResolver(CorrectedCallee, before.1, name, svc) == res;
      ResolveStep(before.1, name, svc);
      var meds := before.0 + (if res.outcome.Success? then [res.outcome.value] else []);
      assert ResolveNames(CorrectedCallee, store, names, svc) == (meds, res.store);
      forall m | m in meds ensures Cached(res.store, m) {
        if m in before.0 {
          assert Cached(before.1, m);
        }
      }
    }
  }

  /** Each name that resolves contributes exactly one medicine, in `names`
      order; a name that fails contributes none. */
  lemma ResolveNamesStep(callee: string, store: Store, names: seq<string>, name: string, svc: Services)
    ensures var before := ResolveNames(callee, store, names, svc);
      var res := CallResolver(callee, before.1, name, svc);
      ResolveNames(callee, store, names + [name], svc) ==
        (before.0 + (if res.outcome.Success? then [res.outcome.value] else []), res.store)
  {
    var s := names + [name];
    assert s[..|s| - 1] == names;
    assert s[|s| - 1] == name;
  }

  /** The loop over `a + b` is the loop over `a` followed by the loop over `b`,
      started from the store `a` left behind: the medicines of `a`'s names
      come first, and the names of `b` see every record `a` inserted. */
  lemma {:induction false} ResolveNamesAppend(callee: string, store: Store, a: seq<string>, b: seq<string>, svc: Services)
    ensures var (m1, s1) := ResolveNames(callee, store, a, svc);
      var (m2, s2) := ResolveNames(callee, s1, b, svc);
      ResolveNames(callee, store, a + b, svc) == (m1 + m2, s2)
    decreases |b|
  {
    if |b| == 0 {
      assert a + b == a;
      var (m1, s1) := ResolveNames(callee, store, a, svc);
      assert ResolveNames(callee, s1, b, svc) == ([], s1);
      assert m1 + [] == m1;
    } else {
      var init, last := b[..|b| - 1], b[|b| - 1];
      assert b == init + [last];
      assert a + b == (a + init) + [last];
      var (m1, s1) := ResolveNames(callee, store, a, svc);
      var (m2, s2) := ResolveNames(callee, s1, init, svc);
      ResolveNamesAppend(callee, store, a, init, svc);
      assert ResolveNames(callee, store, a + init, svc) == (m1 + m2, s2);
      var res := CallResolver(callee, s2, last, svc);
      var extra := if res.outcome.Success? then [res.outcome.value] else [];
      ResolveNamesStep(callee, store, a + init, last, svc);
      assert ResolveNames(callee, store, a + b, svc) == ((m1 + m2) + extra, res.store);
      ResolveNamesStep(callee, s1, init, last, svc);
      assert ResolveNames(callee, s1, b, svc) == (m2 + extra, res.store);
      assert (m1 + m2) + extra == m1 + (m2 + extra);
    }
  }

  // ---------------------------------------------------------------------
  // The whole request

  /** What `processPrescriptionImage` returns. */
  datatype Prescription = Prescription(text: string, names: seq<string>, medicines: seq<MedicineRecord>)

  /** The text half of `processPrescriptionImage`: the OCR text and the names
      read from the extraction reply. `ocr` is the recogniser's result (`None`
      when it throws); `extraction` is the reply to the extraction prompt
      built from the OCR text, `None` when the call is rejected. A fulfilled
      call always carries a string here: an undefined `response.text` is
      the empty reply, which `extractJSONorText` treats exactly as undefined
      (both are falsy and give ""). */
  function ReadNames(ocr: Option<string>, extraction: Reply, parse: Parser): Result<(string, seq<string>), Exception> {
    match ocr
    case None => Failure(ServiceFailure)
    case Some(text) =>
      match extraction(text)
      case None => Failure(ServiceFailure)
      case Some(raw) => Success((text, SplitCSVNames(ExtractJSONorText(Some(raw), parse))))
  }

  /** `processPrescriptionImage(buffer)` against the store it starts from. */
  function Process(callee: string, store: Store, ocr: Option<string>, extraction: Reply, svc: Services): (Result<Prescription, Exception>, Store) {
    match ReadNames(ocr, extraction, svc.parse)
    case Failure(e) => (Failure(e), store)
    case Success((text, names)) =>
      var (medicines, after) := ResolveNames(callee, store, names, svc);
      (Success(Prescription(text, names, medicines)), after)
  }

  /** The returned text and names are the same whichever resolver runs and
      whatever the store holds: resolution failures never reach them. */
  lemma TextAndNamesIndependentOfResolution(store: Store, other: Store, ocr: Option<string>, extraction: Reply, svc: Services)
    ensures var a := Process(AsWrittenCallee, store, ocr, extraction, svc).0;
      var b := Process(CorrectedCallee, other, ocr, extraction, svc).0;
      a.Success? == b.Success? &&
      (a.Success? ==> a.value.text == b.value.text && a.value.names == b.value.names)
  {
  }

  /** As written, every request that gets past OCR and extraction returns no
      medicines. */
  lemma AsWrittenNoMedicines(store: Store, ocr: Option<string>, extraction: Reply, svc: Services)
    ensures var (r, after) := Process(AsWrittenCallee, store, ocr, extraction, svc);
      after == store && (r.Success? ==> r.value.medicines == [])
  {
    match ReadNames(ocr, extraction, svc.parse) {
      case Failure(_) =>
      case Success((_, names)) => AsWrittenResolvesNothing(store, names, svc);
    }
  }

  /** The loop of `processPrescriptionImage`, over the service's store. */
  method ResolveAll(service: MedicineService, names: seq<string>, svc: Services) returns (medicines: seq<MedicineRecord>)
    requires service.Valid()
    modifies service
    ensures service.Valid()
    ensures (medicines, service.records) == ResolveNames(CorrectedCallee, old(service.records), names, svc)
  {
    ghost var start := service.records;
    medicines := [];
    var i := 0;
    while i < |names|
      invariant 0 <= i <= |names|
      invariant service.Valid()
      invariant (medicines, service.records) == ResolveNames(CorrectedCallee, start, names[..i], svc)
    {
      ResolveNamesStep(CorrectedCallee, start, names[..i], names[i], svc);
      assert names[..i + 1] == names[..i] + [names[i]];
      ghost var before := service.records;
      assert CallResolver(CorrectedCallee, before, names[i], svc) == Resolve(before, names[i], svc);
      ghost var prior := medicines;
      var med := service.GetMedicineByName(names[i], svc);
      ghost var res := Resolve(before, names[i], svc);
      assert med == res.outcome && service.records == res.store;
      if med.Success? {
        medicines := medicines + [med.value];
      }
      assert medicines == prior + (if res.outcome.Success? then [res.outcome.value] else []);
      i := i + 1;
    }
    assert names[..i] == names;
  }

  /** `processPrescriptionImage(buffer)` with the resolver call corrected. */
  method ProcessPrescriptionImage(service: MedicineService, ocr: Option<string>, extraction: Reply, svc: Services)
    returns (r: Result<Prescription, Exception>)
    requires service.Valid()
    modifies service
    ensures service.Valid()
    ensures (r, service.records) == Process(CorrectedCallee, old(service.records), ocr, extraction, svc)
  {
    var read := ReadNames(ocr, extraction, svc.parse);
    if read.Failure? {
      return Failure(read.error);
    }
    var (text, names) := read.value;
    var medicines := ResolveAll(service, names, svc);
    r := Success(Prescription(text, names, medicines));
  }
}
