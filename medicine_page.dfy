/**
 * The medicine search page: the free-scan gate around a search, the rule
 * that decides what the alternatives section shows, and two pure helpers
 * (`listItems`, which renders a list as `<li>` items, and
 * `buildTranslationPayload`, which fills in defaults before translation).
 */
module MedicinePage {
  import opened Wrappers
  import opened Js
  import opened Text
  import opened MedicineModel
  import opened ScanGate

  // ---------------------------------------------------------------------
  // buildTranslationPayload
  // ---------------------------------------------------------------------

  const NotAvailableText: string := "N/A"

  /** The object `buildTranslationPayload` returns. */
  datatype Payload = Payload(
    genericName: JsValue, category: JsValue, howToUse: JsValue,
    uses: JsValue, symptoms: JsValue, warnings: JsValue, sideEffects: JsValue)

  /** `buildTranslationPayload(med)`: each text field falls back to "N/A" and
      each list to [] when falsy; reading a field of null or undefined throws. */
  function BuildTranslationPayload(med: JsValue): Result<Payload, Exception> {
    if Nullish(med) then Failure(TypeError)
    else Success(Payload(
      Or(Field(med, "genericName"), Str(NotAvailableText)),
      Or(Field(med, "category"), Str(NotAvailableText)),
      Or(Field(med, "howToUse"), Str(NotAvailableText)),
      Or(Field(med, "uses"), Arr([])),
      Or(Field(med, "symptoms"), Arr([])),
      Or(Field(med, "warnings"), Arr([])),
      Or(Field(med, "sideEffects"), Arr([]))))
  }

  /** A payload as the object it is. */
  function PayloadJson(p: Payload): JsValue {
    Obj(map[
      "genericName" := p.genericName, "category" := p.category, "howToUse" := p.howToUse,
      "uses" := p.uses, "symptoms" := p.symptoms, "warnings" := p.warnings,
      "sideEffects" := p.sideEffects])
  }

  /** A present (truthy) value is copied unchanged and a falsy one is replaced
      by its default, so no text field of the payload is ever empty or
      missing and every list field is at least []. */
  lemma PayloadDefaults(med: JsValue)
    requires !Nullish(med)
    ensures var p := BuildTranslationPayload(med).value;
      && (Truthy(Field(med, "genericName")) ==> p.genericName == Field(med, "genericName"))
      && (!Truthy(Field(med, "genericName")) ==> p.genericName == Str("N/A"))
      && (Truthy(Field(med, "category")) ==> p.category == Field(med, "category"))
      && (!Truthy(Field(med, "category")) ==> p.category == Str("N/A"))
      && (Truthy(Field(med, "howToUse")) ==> p.howToUse == Field(med, "howToUse"))
      && (!Truthy(Field(med, "howToUse")) ==> p.howToUse == Str("N/A"))
      && (Truthy(Field(med, "uses")) ==> p.uses == Field(med, "uses"))
      && (!Truthy(Field(med, "uses")) ==> p.uses == Arr([]))
      && (Truthy(Field(med, "symptoms")) ==> p.symptoms == Field(med, "symptoms"))
      && (!Truthy(Field(med, "symptoms")) ==> p.symptoms == Arr([]))
      && (Truthy(Field(med, "warnings")) ==> p.warnings == Field(med, "warnings"))
      && (!Truthy(Field(med, "warnings")) ==> p.warnings == Arr([]))
      && (Truthy(Field(med, "sideEffects")) ==> p.sideEffects == Field(med, "sideEffects"))
      && (!Truthy(Field(med, "sideEffects")) ==> p.sideEffects == Arr([]))
      && Truthy(p.genericName) && Truthy(p.category) && Truthy(p.howToUse)
      && Truthy(p.uses) && Truthy(p.symptoms) && Truthy(p.warnings) && Truthy(p.sideEffects)
  {
  }

  /** Each field of a payload's object is that payload field. */
  lemma PayloadJsonFields(p: Payload)
    ensures var j := PayloadJson(p);
      && Field(j, "genericName") == p.genericName && Field(j, "category") == p.category
      && Field(j, "howToUse") == p.howToUse && Field(j, "uses") == p.uses
      && Field(j, "symptoms") == p.symptoms && Field(j, "warnings") == p.warnings
      && Field(j, "sideEffects") == p.sideEffects
  {
  }

  /** A payload whose every field is truthy is rebuilt as itself. */
  lemma FilledPayloadIsKept(p: Payload)
    requires Truthy(p.genericName) && Truthy(p.category) && Truthy(p.howToUse)
    requires Truthy(p.uses) && Truthy(p.symptoms) && Truthy(p.warnings) && Truthy(p.sideEffects)
    ensures BuildTranslationPayload(PayloadJson(p)) == Success(p)
  {
    PayloadJsonFields(p);
  }

  /** Building a payload from a payload changes nothing: every field is
      already filled in. */
  lemma PayloadIdempotent(med: JsValue)
    requires !Nullish(med)
    ensures BuildTranslationPayload(PayloadJson(BuildTranslationPayload(med).value)) == BuildTranslationPayload(med)
  {
    PayloadDefaults(med);
    FilledPayloadIsKept(BuildTranslationPayload(med).value);
  }

  /** Reading fields of null or undefined throws. */
  lemma PayloadOfNothing(med: JsValue)
    requires Nullish(med)
    ensures BuildTranslationPayload(med) == Failure(TypeError)
  {
  }

  // ---------------------------------------------------------------------
  // listItems
  // ---------------------------------------------------------------------

  const OpenTag: string := "<li>"
  const CloseTag: string := "</li>"
  const NotAvailableItem: string := "<li>Not available</li>"

  /** The elements `open + x + close` of `arr`, one after another. */
  function Elements(open: string, close: string, arr: seq<string>): string {
    if |arr| == 0 then "" else open + arr[0] + close + Elements(open, close, arr[1..])
  }

  /** One list item. */
  function Item(text: string): string {
    OpenTag + text + CloseTag
  }

  /** `arr.map((i) => `<li>${i}</li>`).join("")`. */
  function Items(arr: seq<string>): string {
    Elements(OpenTag, CloseTag, arr)
  }

  /** `listItems(arr)`. */
  function ListItems(arr: seq<string>): string {
    if |arr| == 0 then NotAvailableItem else Items(arr)
  }

  lemma {:induction false} ElementsAppend(open: string, close: string, a: seq<string>, b: seq<string>)
    ensures Elements(open, close, a + b) == Elements(open, close, a) + Elements(open, close, b)
    decreases |a|
  {
    if |a| == 0 {
      assert a + b == b;
    } else {
      assert (a + b)[1..] == a[1..] + b;
      ElementsAppend(open, close, a[1..], b);
    }
  }

  /** One `<li>` per item, in order: item `k` is rendered between the
      rendering of the items before it and that of the items after it. */
  lemma ListItemsInOrder(arr: seq<string>, k: nat)
    requires k < |arr|
    ensures ListItems(arr) == Items(arr[..k]) + Item(arr[k]) + Items(arr[k + 1..])
  {
    assert arr == arr[..k] + [arr[k]] + arr[k + 1..];
    ElementsAppend(OpenTag, CloseTag, arr[..k] + [arr[k]], arr[k + 1..]);
    ElementsAppend(OpenTag, CloseTag, arr[..k], [arr[k]]);
    assert Items([arr[k]]) == Item(arr[k]) + Items([]);
  }

  /** The empty list renders exactly like the one-item list "Not available". */
  lemma EmptyLooksLikeNotAvailable()
    ensures ListItems([]) == ListItems(["Not available"])
  {
    assert Items(["Not available"]) == Item("Not available") + Items([]);
  }

  /** Reads one element off the front of `s`: the text from the `open` tag
      to the next occurrence of the first character of `close`, which must
      start a `close` tag, and what follows that tag. */
  function ParseElement(open: string, close: string, s: string): (r: Option<(string, string)>)
    requires |open| > 0 && |close| > 0
    ensures r.Some? ==> |r.value.1| < |s|
  {
    if |s| < |open| || s[..|open|] != open then None
    else
      var body := s[|open|..];
      match IndexOf(body, close[0])
      case None => None
      case Some(j) =>
        var rest := body[j..];
        if |rest| < |close| || rest[..|close|] != close then None
        else Some((body[..j], rest[|close|..]))
  }

  /** An element whose text lacks the first character of the closing tag
      is read back whole, and reading stops right after its closing tag. */
  lemma ParseElementOf(open: string, close: string, x: string, tail: string)
    requires |open| > 0 && |close| > 0 && close[0] !in x
    ensures ParseElement(open, close, open + x + close + tail) == Some((x, tail))
  {
    var s := open + x + close + tail;
    assert s[..|open|] == open;
    var body := s[|open|..];
    assert body == x + [close[0]] + (close[1..] + tail);
    IndexOfAfter(x, close[0], close[1..] + tail);
    assert body[..|x|] == x;
    var rest := body[|x|..];
    assert rest == close + tail;
    assert rest[..|close|] == close;
    assert rest[|close|..] == tail;
  }

  /** Reads back a rendering of elements whose text lacks the first
      character of `close`. */
  function ParseElements(open: string, close: string, s: string): Option<seq<string>>
    requires |open| > 0 && |close| > 0
    decreases |s|
  {
    if |s| == 0 then Some([])
    else match ParseElement(open, close, s)
      case None => None
      case Some((x, rest)) =>
        match ParseElements(open, close, rest)
        case None => None
        case Some(more) => Some([x] + more)
  }

  /** Reads back a rendering of items that contain no '<'. */
  function ParseItems(s: string): Option<seq<string>> {
    ParseElements(OpenTag, CloseTag, s)
  }

  /** Reading an element and then the rest reads both, in order. */
  lemma ParseElementsCons(open: string, close: string, s: string, x: string, rest: string, more: seq<string>)
    requires |open| > 0 && |close| > 0
    requires ParseElement(open, close, s) == Some((x, rest)) && ParseElements(open, close, rest) == Some(more)
    ensures ParseElements(open, close, s) == Some([x] + more)
  {
    assert |s| != 0;
  }

  /** Elements whose text lacks the first character of `close` are read back
      from their rendering. */
  lemma {:induction false} ElementsRoundTrip(open: string, close: string, arr: seq<string>)
    requires |open| > 0 && |close| > 0
    requires forall k :: 0 <= k < |arr| ==> close[0] !in arr[k]
    ensures ParseElements(open, close, Elements(open, close, arr)) == Some(arr)
    decreases |arr|
  {
    if |arr| > 0 {
      var x, more := arr[0], arr[1..];
      assert arr == [x] + more;
      var tail := Elements(open, close, more);
      assert Elements(open, close, arr) == open + x + close + tail;
      ParseElementOf(open, close, x, tail);
      assert forall k :: 0 <= k < |more| ==> close[0] !in more[k] by {
        forall k | 0 <= k < |more| ensures close[0] !in more[k] {
          assert more[k] == arr[k + 1];
        }
      }
      ElementsRoundTrip(open, close, more);
      ParseElementsCons(open, close, Elements(open, close, arr), x, tail, more);
    }
  }

  lemma CloseTagStart()
    ensures |OpenTag| > 0 && |CloseTag| > 0 && CloseTag[0] == '<'
  {
  }

  /** Items without a '<' of their own can be read back from the rendering. */
  lemma ItemsRoundTrip(arr: seq<string>)
    requires forall k :: 0 <= k < |arr| ==> '<' !in arr[k]
    ensures ParseItems(Items(arr)) == Some(arr)
  {
    CloseTagStart();
    ElementsRoundTrip(OpenTag, CloseTag, arr);
  }

  // ---------------------------------------------------------------------
  // renderAlternatives
  // ---------------------------------------------------------------------

  /** What the alternatives section shows. */
  datatype AltView = Hidden | NoneAvailable | Cards(cards: seq<Alternative>)

  /** `renderAlternatives(alternatives)`, given whether a user is logged in. */
  function RenderAlternatives(loggedIn: bool, alternatives: seq<Alternative>): AltView {
    if !loggedIn then Hidden
    else if |alternatives| == 0 then NoneAvailable
    else Cards(alternatives)
  }

  /** Alternatives are hidden exactly from logged-out visitors; a logged-in
      user sees "No alternatives available" exactly when there are none, and
      otherwise one card per alternative, in order. */
  lemma AlternativesVisibility(loggedIn: bool, alternatives: seq<Alternative>)
    ensures RenderAlternatives(loggedIn, alternatives).Hidden? <==> !loggedIn
    ensures RenderAlternatives(loggedIn, alternatives).NoneAvailable? <==> loggedIn && |alternatives| == 0
    ensures RenderAlternatives(loggedIn, alternatives).Cards? ==>
      RenderAlternatives(loggedIn, alternatives).cards == alternatives
  {
  }

  // ---------------------------------------------------------------------
  // showMedicineDetails
  // ---------------------------------------------------------------------

  /** The medicine request: the record the backend answers with for a name,
      or `None` when the request, its status, its body or the rendering fails. */
  type Fetch = string -> Option<MedicineRecord>

  /** How a search ends. */
  datatype Outcome =
    | LimitReached
    | EmptyName
    | Failed
    | Shown(record: MedicineRecord, alternatives: AltView)

  /** A search: how it ended, the storage slots after it, and the record the
      page keeps for later language switches. */
  datatype Search = Search(outcome: Outcome, slots: Slots, kept: Option<MedicineRecord>)

  /** `showMedicineDetails()` with the search box holding `query`. */
  function SearchSpec(s: Slots, kept: Option<MedicineRecord>, query: string, fetch: Fetch): Search {
    if !LoggedIn(s) && !CanScan(s) then Search(LimitReached, s, kept)
    else
      var name := Trim(query);
      if name == "" then Search(EmptyName, s, kept)
      else match fetch(name)
        case None => Search(Failed, s, kept)
        case Some(rec) =>
          var view := RenderAlternatives(LoggedIn(s), rec.alternatives);
          Search(Shown(rec, view), if LoggedIn(s) then s else AfterIncrement(s), Some(rec))
  }

  /** A logged-out visitor past the limit is stopped before any request: the
      outcome does not depend on the backend, and nothing changes. */
  lemma GateBeforeFetch(s: Slots, kept: Option<MedicineRecord>, query: string, fetch: Fetch, other: Fetch)
    requires !LoggedIn(s) && Count(s) >= FreeScans
    ensures SearchSpec(s, kept, query, fetch) == Search(LimitReached, s, kept)
    ensures SearchSpec(s, kept, query, fetch) == SearchSpec(s, kept, query, other)
  {
  }

  /** A blank search is refused before any request, and nothing changes. */
  lemma BlankNameBeforeFetch(s: Slots, kept: Option<MedicineRecord>, query: string, fetch: Fetch, other: Fetch)
    requires CanScan(s) && Trim(query) == ""
    ensures SearchSpec(s, kept, query, fetch) == Search(EmptyName, s, kept)
    ensures SearchSpec(s, kept, query, fetch) == SearchSpec(s, kept, query, other)
  {
  }

  /** The count goes up by exactly one, and only for a logged-out visitor
      whose search succeeded; the user and the token are never touched. */
  lemma CountOnlyOnSuccess(s: Slots, kept: Option<MedicineRecord>, query: string, fetch: Fetch)
    ensures var r := SearchSpec(s, kept, query, fetch);
      && Count(r.slots) == Count(s) + (if r.outcome.Shown? && !LoggedIn(s) then 1 else 0)
      && r.slots.user == s.user && r.slots.token == s.token
      && (r.outcome.Failed? ==> r.slots == s && r.kept == kept)
      && (r.outcome.Shown? <==> CanScan(s) && Trim(query) != "" && fetch(Trim(query)).Some?)
  {
  }

  /** How many of a run of searches show a medicine. */
  function ShownCount(s: Slots, queries: seq<string>, fetch: Fetch): nat
    decreases |queries|
  {
    if |queries| == 0 then 0
    else
      var r := SearchSpec(s, None, queries[0], fetch);
      (if r.outcome.Shown? then 1 else 0) + ShownCount(r.slots, queries[1..], fetch)
  }

  /** However many searches a logged-out visitor makes, and whatever the
      backend answers, at most the remaining free scans show a medicine. */
  lemma {:induction false} FreeSearchesBounded(s: Slots, queries: seq<string>, fetch: Fetch)
    requires !LoggedIn(s)
    ensures ShownCount(s, queries, fetch) <= Remaining(s)
    decreases |queries|
  {
    if |queries| > 0 {
      var r := SearchSpec(s, None, queries[0], fetch);
      FreeSearchesBounded(r.slots, queries[1..], fetch);
      if r.outcome.Shown? {
        assert r.slots == AfterIncrement(s);
        assert Remaining(r.slots) == Remaining(s) - 1;
      } else {
        assert r.slots == s;
      }
    }
  }

  /** The page's global state. */
  class MedicinePage {
    var originalMedicineData: Option<MedicineRecord>

    constructor ()
      ensures originalMedicineData == None
    {
      originalMedicineData := None;
    }

    /** `showMedicineDetails()`. */
    method ShowMedicineDetails(config: AuthConfig, query: string, fetch: Fetch) returns (r: Outcome)
      modifies this, config
      ensures Search(r, config.State(), originalMedicineData) ==
        SearchSpec(old(config.State()), old(originalMedicineData), query, fetch)
    {
      if !config.IsLoggedIn() {
        if !config.CanScanNow() {
          return LimitReached;
        }
      }
      var name := Trim(query);
      if name == "" {
        return EmptyName;
      }
      var data := fetch(name);
      if data.None? {
        return Failed;
      }
      originalMedicineData := data;
      var view := RenderAlternatives(config.IsLoggedIn(), data.value.alternatives);
      if !config.IsLoggedIn() {
        var _ := config.IncrementScan();
      }
      r := Shown(data.value, view);
    }
  }
}
