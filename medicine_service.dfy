/**
 * Medicine resolution: normalise the user's name, derive the cache key, serve
 * the stored record on a hit, and on a miss ask the text-generation service
 * for the full record, check it, sanitise its alternatives and insert it once.
 */
module MedicineService {
  import opened Wrappers
  import opened Js
  import opened Text
  import opened BraceSpan
  import opened MedicineModel
  import opened MedicineNormalizer

  /** The external services a resolution talks to: the reply to the
      normalisation prompt for a user input, the reply to the record prompt
      for a canonical name, and JSON.parse on a brace span. */
  datatype Services = Services(normalizerReply: Reply, recordReply: Reply, parse: Parser)

  const NotRecognizedMessage: string := "Medicine not recognized"
  const NoJsonMessage: string := "No JSON in Gemini medicine response"
  const IncompleteMessage: string := "Incomplete medicine data"

  // ---------------------------------------------------------------------
  // Alternatives

  /** The filter of `sanitizeAlternatives`: a truthy entry whose `name` is a string. */
  predicate KeepsAlternative(a: JsValue) {
    Truthy(a) && Field(a, "name").Str?
  }

  /** The map of `sanitizeAlternatives` on a kept entry. */
  function ToAlternative(a: JsValue): Alternative
    requires KeepsAlternative(a)
  {
    Alternative(Trim(Field(a, "name").s),
                if Field(a, "type") == Str("branded") then Branded else Generic)
  }

  /** What one entry contributes: its conversion when kept, nothing otherwise. */
  function SanitizeEntry(a: JsValue): (r: seq<Alternative>)
    ensures |r| <= 1
    ensures forall k :: 0 <= k < |r| ==> IsTrimmed(r[k].name)
  {
    if KeepsAlternative(a) then [ToAlternative(a)] else []
  }

  function SanitizeItems(items: seq<JsValue>): (r: seq<Alternative>)
    ensures |r| <= |items|
    ensures forall k :: 0 <= k < |r| ==> IsTrimmed(r[k].name)
  {
    if |items| == 0 then [] else SanitizeEntry(items[0]) + SanitizeItems(items[1..])
  }

  /** `sanitizeAlternatives(alternatives)`: anything but an array gives []. */
  function SanitizeAlternatives(v: JsValue): (r: seq<Alternative>)
    ensures !v.Arr? ==> r == []
    ensures v.Arr? ==> |r| <= |v.items|
    ensures forall k :: 0 <= k < |r| ==> IsTrimmed(r[k].name)
  {
    if v.Arr? then SanitizeItems(v.items) else []
  }

  /** Sanitising works entry by entry: the result for a concatenation is the
      concatenation of the results, so the kept entries keep their order. */
  lemma {:induction false} SanitizeAppend(a: seq<JsValue>, b: seq<JsValue>)
    ensures SanitizeItems(a + b) == SanitizeItems(a) + SanitizeItems(b)
    decreases |a|
  {
    if |a| == 0 {
      assert a + b == b;
    } else {
      var ab := a + b;
      assert ab[0] == a[0];
      assert ab[1..] == a[1..] + b;
      SanitizeAppend(a[1..], b);
      calc {
        SanitizeItems(ab);
        SanitizeEntry(a[0]) + SanitizeItems(a[1..] + b);
        SanitizeEntry(a[0]) + (SanitizeItems(a[1..]) + SanitizeItems(b));
        (SanitizeEntry(a[0]) + SanitizeItems(a[1..])) + SanitizeItems(b);
      }
    }
  }

  /** On one entry: kept entries are converted, all others are dropped. */
  lemma SanitizeOne(a: JsValue)
    ensures KeepsAlternative(a) ==> SanitizeItems([a]) == [ToAlternative(a)]
    ensures !KeepsAlternative(a) ==> SanitizeItems([a]) == []
  {
    assert [a][1..] == [];
    assert SanitizeItems([a]) == SanitizeEntry(a) + [];
  }

  /** An alternative is in the output exactly when some kept input entry converts to it. */
  lemma {:induction false} SanitizeMembers(items: seq<JsValue>, alt: Alternative)
    ensures alt in SanitizeItems(items) <==>
      exists i :: 0 <= i < |items| && KeepsAlternative(items[i]) && ToAlternative(items[i]) == alt
    decreases |items|
  {
    if |items| > 0 {
      var a, rest := items[0], items[1..];
      assert items == [a] + rest;
      SanitizeCons(a, rest);
      SanitizeMembers(rest, alt);
      assert alt in SanitizeEntry(a) <==> KeepsAlternative(a) && ToAlternative(a) == alt;
      if exists i :: 1 <= i < |items| && KeepsAlternative(items[i]) && ToAlternative(items[i]) == alt {
        var i :| 1 <= i < |items| && KeepsAlternative(items[i]) && ToAlternative(items[i]) == alt;
        assert rest[i - 1] == items[i];
      }
      if exists i :: 0 <= i < |rest| && KeepsAlternative(rest[i]) && ToAlternative(rest[i]) == alt {
        var i :| 0 <= i < |rest| && KeepsAlternative(rest[i]) && ToAlternative(rest[i]) == alt;
        assert items[i + 1] == rest[i];
      }
    }
  }

  /** The type of an output entry is "branded" exactly when its input said so
      as the string "branded"; anything else becomes "generic". */
  lemma SanitizedKind(a: JsValue)
    requires KeepsAlternative(a)
    ensures ToAlternative(a).kind == Branded <==> Field(a, "type") == Str("branded")
    ensures ToAlternative(a).kind == Generic <==> Field(a, "type") != Str("branded")
  {
  }

  function KindName(k: AltKind): string {
    match k
    case Generic => "generic"
    case Branded => "branded"
  }

  /** One sanitised alternative as the JSON object it is stored and sent as. */
  function AlternativeJson(a: Alternative): JsValue {
    Obj(map["name" := Str(a.name), "type" := Str(KindName(a.kind))])
  }

  /** The entries of a sanitised list, written back as JSON. */
  function AlternativeItems(alts: seq<Alternative>): (items: seq<JsValue>)
    ensures |items| == |alts|
  {
    if |alts| == 0 then [] else [AlternativeJson(alts[0])] + AlternativeItems(alts[1..])
  }

  /** A sanitised list as the JSON array it is stored and sent as. */
  function AlternativesJson(alts: seq<Alternative>): JsValue {
    Arr(AlternativeItems(alts))
  }

  /** A sanitised entry, written back as JSON, is kept and converts to itself. */
  lemma AlternativeJsonRoundTrip(a: Alternative)
    requires IsTrimmed(a.name)
    ensures KeepsAlternative(AlternativeJson(a)) && ToAlternative(AlternativeJson(a)) == a
  {
    var j := AlternativeJson(a);
    assert Field(j, "name") == Str(a.name);
    assert Field(j, "type") == Str(KindName(a.kind));
    TrimOfTrimmed(a.name);
  }

  lemma SanitizeCons(a: JsValue, rest: seq<JsValue>)
    ensures SanitizeItems([a] + rest) == SanitizeEntry(a) + SanitizeItems(rest)
  {
    assert ([a] + rest)[1..] == rest;
  }

  /** Sanitised entries written back as JSON sanitise to themselves. */
  lemma {:induction false} SanitizeItemsRoundTrip(alts: seq<Alternative>)
    requires forall k :: 0 <= k < |alts| ==> IsTrimmed(alts[k].name)
    ensures SanitizeItems(AlternativeItems(alts)) == alts
    decreases |alts|
  {
    if |alts| > 0 {
      var a, more := alts[0], alts[1..];
      assert alts == [a] + more;
      var rest := AlternativeItems(more);
      assert AlternativeItems(alts) == [AlternativeJson(a)] + rest;
      AlternativeJsonRoundTrip(a);
      assert SanitizeEntry(AlternativeJson(a)) == [a];
      assert forall k :: 0 <= k < |more| ==> IsTrimmed(more[k].name) by {
        forall k | 0 <= k < |more| ensures IsTrimmed(more[k].name) {
          assert more[k] == alts[k + 1];
        }
      }
      SanitizeItemsRoundTrip(more);
      SanitizeCons(AlternativeJson(a), rest);
    }
  }

  /** Sanitising is idempotent: a sanitised list, written back as JSON, passes
      through `sanitizeAlternatives` unchanged. */
  lemma SanitizeIdempotent(alts: seq<Alternative>)
    requires forall k :: 0 <= k < |alts| ==> IsTrimmed(alts[k].name)
    ensures SanitizeAlternatives(AlternativesJson(alts)) == alts
  {
    SanitizeItemsRoundTrip(alts);
  }

  // ---------------------------------------------------------------------
  // Resolution

  /** The name the record prompt is built from: `genericName || canonicalName`. */
  function ChosenName(n: Normalized): string {
    if n.genericName != "" then n.genericName else n.canonicalName
  }

  /** The cache key: the lower-cased chosen name. */
  function LookupKey(n: Normalized): string {
    Lower(ChosenName(n))
  }

  /** What `getMedicineByName` hands to `Medicine.create` for a parsed reply. */
  function FieldsFrom(key: string, parsed: JsObject): MedicineFields {
    var p := Obj(parsed);
    MedicineFields(
      normalizedName := key,
      medicineName := Field(p, "medicineName"),
      genericName := Field(p, "genericName"),
      category := Field(p, "category"),
      uses := Or(Field(p, "uses"), Arr([])),
      symptoms := Or(Field(p, "symptoms"), Arr([])),
      howToUse := Field(p, "howToUse"),
      warnings := Or(Field(p, "warnings"), Arr([])),
      sideEffects := Or(Field(p, "sideEffects"), Arr([])),
      alternatives := SanitizeAlternatives(Field(p, "alternatives")),
      source := None)
  }

  /** The outcome of one resolution and the store after it. */
  datatype Resolution = Resolution(outcome: Result<MedicineRecord, Exception>, store: Store)

  /** The miss path: generate, extract, check, insert. */
  function Generate(store: Store, key: string, name: string, svc: Services): Resolution {
    match svc.recordReply(name)
    case None => Resolution(Failure(ServiceFailure), store)
    case Some(text) =>
      match Span(text)
      case None => Resolution(Failure(Error(NoJsonMessage)), store)
      case Some(span) =>
        match svc.parse(span)
        case None => Resolution(Failure(SyntaxError), store)
        case Some(parsed) =>
          if !Truthy(Field(Obj(parsed), "medicineName")) then
            Resolution(Failure(Error(IncompleteMessage)), store)
          else
            match Create(store, FieldsFrom(key, parsed))
            case Failure(e) => Resolution(Failure(e), store)
            case Success((rec, after)) => Resolution(Success(rec), after)
  }

  /** `getMedicineByName(inputName)` against the store it starts from. */
  function Resolve(store: Store, input: string, svc: Services): Resolution {
    match Normalize(input, svc.normalizerReply, svc.parse)
    case Failure(e) => Resolution(Failure(e), store)
    case Success(None) => Resolution(Failure(Error(NotRecognizedMessage)), store)
    case Success(Some(n)) =>
      var key := LookupKey(n);
      if key in store then Resolution(Success(store[key]), store)
      else Generate(store, key, ChosenName(n), svc)
  }

  /** An input the normaliser rejects fails with "Medicine not recognized", and
      neither the outcome nor the store depends on what the store holds. */
  lemma NotRecognizedNeverTouchesStore(store: Store, other: Store, input: string, svc: Services)
    requires Normalize(input, svc.normalizerReply, svc.parse) == Success(None)
    ensures Resolve(store, input, svc) == Resolution(Failure(Error(NotRecognizedMessage)), store)
    ensures Resolve(other, input, svc).outcome == Resolve(store, input, svc).outcome
  {
  }

  /** The key is the lower-cased generic name when there is one, else the
      lower-cased canonical name. */
  lemma KeyDerivation(n: Normalized)
    ensures n.genericName != "" ==> LookupKey(n) == Lower(n.genericName)
    ensures n.genericName == "" ==> LookupKey(n) == Lower(n.canonicalName)
    ensures |LookupKey(n)| == |ChosenName(n)|
  {
  }

  /** On a cache hit the stored record comes back as it is, nothing is
      inserted, and the record reply is never consulted. */
  lemma CacheHitServesStored(store: Store, input: string, svc: Services, recordReply: Reply)
    requires Normalize(input, svc.normalizerReply, svc.parse).Success?
    requires Normalize(input, svc.normalizerReply, svc.parse).value.Some?
    requires LookupKey(Normalize(input, svc.normalizerReply, svc.parse).value.value) in store
    ensures var key := LookupKey(Normalize(input, svc.normalizerReply, svc.parse).value.value);
      Resolve(store, input, svc) == Resolution(Success(store[key]), store)
    ensures Resolve(store, input, svc) == Resolve(store, input, svc.(recordReply := recordReply))
  {
  }

  /** On a miss, a reply without a brace span, a parse failure, or a parsed
      object without a truthy `medicineName` fails, and the store is unchanged. */
  lemma MissFailures(store: Store, key: string, name: string, svc: Services)
    requires svc.recordReply(name).Some?
    ensures var text := svc.recordReply(name).value;
      Span(text).None? ==> Generate(store, key, name, svc) == Resolution(Failure(Error(NoJsonMessage)), store)
    ensures var text := svc.recordReply(name).value;
      Span(text).Some? && svc.parse(Span(text).value).Some? &&
      !Truthy(Field(Obj(svc.parse(Span(text).value).value), "medicineName")) ==>
      Generate(store, key, name, svc) == Resolution(Failure(Error(IncompleteMessage)), store)
    ensures var text := svc.recordReply(name).value;
      Span(text).Some? && svc.parse(Span(text).value).None? ==>
      Generate(store, key, name, svc) == Resolution(Failure(SyntaxError), store)
  {
  }

  /** On a miss with a complete reply, exactly one record is inserted, under the
      key. The reply's name, texts and truthy lists are stored as given;
      falsy lists become [], alternatives are sanitised and the source is
      "gemini". */
  lemma {:induction false} MissInsertsOnce(store: Store, key: string, name: string, svc: Services)
    requires key !in store
    requires Generate(store, key, name, svc).outcome.Success?
    ensures var res := Generate(store, key, name, svc);
      var rec := res.outcome.value;
      && res.store == store[key := rec]
      && rec.normalizedName == key
      && rec.source == DefaultSource
      && (var parsed := Obj(svc.parse(Span(svc.recordReply(name).value).value).value);
          && rec.alternatives == SanitizeAlternatives(Field(parsed, "alternatives"))
          && (!Truthy(Field(parsed, "uses")) ==> rec.uses == [])
          && (!Truthy(Field(parsed, "symptoms")) ==> rec.symptoms == [])
          && (!Truthy(Field(parsed, "warnings")) ==> rec.warnings == [])
          && (!Truthy(Field(parsed, "sideEffects")) ==> rec.sideEffects == [])
          && (Truthy(Field(parsed, "uses")) ==> StoredList(Field(parsed, "uses"), rec.uses))
          && (Truthy(Field(parsed, "symptoms")) ==> StoredList(Field(parsed, "symptoms"), rec.symptoms))
          && (Truthy(Field(parsed, "warnings")) ==> StoredList(Field(parsed, "warnings"), rec.warnings))
          && (Truthy(Field(parsed, "sideEffects")) ==> StoredList(Field(parsed, "sideEffects"), rec.sideEffects))
          && StoredText(Field(parsed, "genericName"), rec.genericName)
          && StoredText(Field(parsed, "category"), rec.category)
          && StoredText(Field(parsed, "howToUse"), rec.howToUse)
          && Field(parsed, "medicineName") == Str(rec.medicineName))
  {
    var parsed := svc.parse(Span(svc.recordReply(name).value).value).value;
    var f := FieldsFrom(key, parsed);
    var created := Create(store, f);
    assert Generate(store, key, name, svc) == Resolution(Success(created.value.0), created.value.1);
    assert Validate(f) == Success(created.value.0);
    EmptyListsStayEmpty(f);
  }

  /** The miss path either fails and leaves the store as it was, or inserts
      the record it returns under the key it was given and nowhere else. */
  lemma GenerateOutcome(store: Store, key: string, name: string, svc: Services)
    requires key !in store
    ensures var res := Generate(store, key, name, svc);
      && (res.outcome.Failure? ==> res.store == store)
      && (res.outcome.Success? ==>
            && res.store == store[key := res.outcome.value]
            && res.outcome.value.normalizedName == key
            && WellFormed(res.outcome.value))
  {
  }

  /** A resolution keeps the store invariant and changes nothing when it fails;
      otherwise it either leaves the store as it was or adds the one record it
      returns, under that record's own `normalizedName`, which was not yet
      taken. No stored record is ever changed or removed. */
  lemma {:induction false} ResolveKeepsStore(store: Store, input: string, svc: Services)
    requires StoreInvariant(store)
    ensures var res := Resolve(store, input, svc);
      && StoreInvariant(res.store)
      && (res.outcome.Failure? ==> res.store == store)
      && (res.store == store ||
          (&& res.outcome.Success?
           && res.outcome.value.normalizedName !in store
           && res.store == store[res.outcome.value.normalizedName := res.outcome.value]))
  {
    var res := Resolve(store, input, svc);
    var norm := Normalize(input, svc.normalizerReply, svc.parse);
    if norm.Success? && norm.value.Some? && LookupKey(norm.value.value) !in store {
      var key := LookupKey(norm.value.value);
      var gen := Generate(store, key, ChosenName(norm.value.value), svc);
      assert res == gen;
      GenerateOutcome(store, key, ChosenName(norm.value.value), svc);
    } else {
      assert res.store == store;
    }
  }

  /** A successful resolution returns the record the store then holds under
      the key looked up, which is also the record's own `normalizedName`. */
  lemma {:induction false} ResolvedIsCached(store: Store, input: string, svc: Services)
    requires StoreInvariant(store)
    requires Resolve(store, input, svc).outcome.Success?
    ensures var norm := Normalize(input, svc.normalizerReply, svc.parse);
      norm.Success? && norm.value.Some?
    ensures var res := Resolve(store, input, svc);
      var rec := res.outcome.value;
      && rec.normalizedName == LookupKey(Normalize(input, svc.normalizerReply, svc.parse).value.value)
      && rec.normalizedName in res.store && res.store[rec.normalizedName] == rec
  {
    var res := Resolve(store, input, svc);
    var norm := Normalize(input, svc.normalizerReply, svc.parse);
    assert norm.Success? && norm.value.Some?;
    var key := LookupKey(norm.value.value);
    if key !in store {
      assert res == Generate(store, key, ChosenName(norm.value.value), svc);
      GenerateOutcome(store, key, ChosenName(norm.value.value), svc);
    } else {
      assert res == Resolution(Success(store[key]), store);
    }
  }

  /** Two inputs that normalise to the same key: once the first has been
      resolved, the second is served the identical record from the store,
      without a generation call and without an insert. */
  lemma {:induction false} AliasServedFromCache(store: Store, first: string, second: string, svc: Services)
    requires StoreInvariant(store)
    requires Resolve(store, first, svc).outcome.Success?
    requires Normalize(second, svc.normalizerReply, svc.parse).Success?
    requires Normalize(second, svc.normalizerReply, svc.parse).value.Some?
    requires Normalize(first, svc.normalizerReply, svc.parse).Success?
    requires Normalize(first, svc.normalizerReply, svc.parse).value.Some?
    requires LookupKey(Normalize(second, svc.normalizerReply, svc.parse).value.value) ==
             LookupKey(Normalize(first, svc.normalizerReply, svc.parse).value.value)
    ensures var after := Resolve(store, first, svc);
      Resolve(after.store, second, svc) == after
  {
    var after := Resolve(store, first, svc);
    ResolvedIsCached(store, first, svc);
    var key := LookupKey(Normalize(first, svc.normalizerReply, svc.parse).value.value);
    assert key in after.store && after.store[key] == after.outcome.value;
    assert Resolve(after.store, second, svc) == Resolution(Success(after.store[key]), after.store);
  }

  /** The Medicine collection as the service sees it. */
  class MedicineService {
    var records: Store

    ghost predicate Valid()
      reads this
    {
      StoreInvariant(records)
    }

    constructor (initial: Store)
      requires StoreInvariant(initial)
      ensures Valid() && records == initial
    {
      records := initial;
    }

    /** `getMedicineByName(inputName)`: each await in turn; the store is read
        once and written at most once. */
    method GetMedicineByName(inputName: string, svc: Services) returns (r: Result<MedicineRecord, Exception>)
      requires Valid()
      modifies this
      ensures Valid()
      ensures Resolution(r, records) == Resolve(old(records), inputName, svc)
    {
      ResolveKeepsStore(records, inputName, svc);
      var normalized := Normalize(inputName, svc.normalizerReply, svc.parse);
      if normalized.Failure? {
        return Failure(normalized.error);
      }
      if normalized.value.None? {
        return Failure(Error(NotRecognizedMessage));
      }
      var canonicalName := ChosenName(normalized.value.value);
      var normalizedKey := Lower(canonicalName);

      if normalizedKey in records {
        return Success(records[normalizedKey]);
      }

      var text := svc.recordReply(canonicalName);
      if text.None? {
        return Failure(ServiceFailure);
      }
      var jsonMatch := Span(text.value);
      if jsonMatch.None? {
        return Failure(Error(NoJsonMessage));
      }
      var parsed := svc.parse(jsonMatch.value);
      if parsed.None? {
        return Failure(SyntaxError);
      }
      if !Truthy(Field(Obj(parsed.value), "medicineName")) {
        return Failure(Error(IncompleteMessage));
      }
      var created := Create(records, FieldsFrom(normalizedKey, parsed.value));
      if created.Failure? {
        return Failure(created.error);
      }
      records := created.value.1;
      r := Success(created.value.0);
    }
  }
}
