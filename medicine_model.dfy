/**
 * The Medicine collection: the record the schema declares, the validation
 * `Medicine.create` applies to the values it is given (required fields, the
 * String type of the text fields, the alternative-type enum, the default
 * source) and the unique index on `normalizedName`, over a store that maps
 * each `normalizedName` to its record.
 */
module MedicineModel {
  import opened Wrappers
  import opened Js

  /** The `type` enum of an alternative: "generic" or "branded". */
  datatype AltKind = Generic | Branded

  datatype Alternative = Alternative(name: string, kind: AltKind)

  /** A stored medicine. Optional String fields that were never set are `None`;
      array fields default to the empty list. Timestamps are left out. */
  datatype MedicineRecord = MedicineRecord(
    normalizedName: string,
    medicineName: string,
    genericName: Option<string>,
    category: Option<string>,
    uses: seq<string>,
    symptoms: seq<string>,
    howToUse: Option<string>,
    warnings: seq<string>,
    sideEffects: seq<string>,
    alternatives: seq<Alternative>,
    source: string)

  /** The values handed to `Medicine.create`, before the schema looks at them. */
  datatype MedicineFields = MedicineFields(
    normalizedName: string,
    medicineName: JsValue,
    genericName: JsValue,
    category: JsValue,
    uses: JsValue,
    symptoms: JsValue,
    howToUse: JsValue,
    warnings: JsValue,
    sideEffects: JsValue,
    alternatives: seq<Alternative>,
    source: Option<string>)

  type Store = map<string, MedicineRecord>

  const DefaultSource: string := "gemini"

  /** What the schema demands of every stored record: both required fields are
      non-empty (Mongoose's `required` refuses the empty string). */
  predicate WellFormed(r: MedicineRecord) {
    r.normalizedName != "" && r.medicineName != ""
  }

  /** Every record sits under its own `normalizedName` and is well formed. */
  predicate StoreInvariant(store: Store) {
    forall k :: k in store ==> store[k].normalizedName == k && WellFormed(store[k])
  }

  /** A required String path: a non-empty string. */
  function RequiredText(path: string, v: JsValue): Result<string, Exception> {
    if v.Str? && v.s != "" then Success(v.s) else Failure(ValidationError(path))
  }

  /** A value an optional String path accepts: undefined, null or a string. */
  predicate TextAccepted(v: JsValue) {
    Nullish(v) || v.Str?
  }

  /** The optional text stored for the value given: unset exactly when the
      value is undefined or null, otherwise the string given. */
  predicate StoredText(v: JsValue, o: Option<string>) {
    (o.None? <==> Nullish(v)) && (o.Some? ==> v == Str(o.value))
  }

  /** An optional String path: unset when undefined or null. */
  function OptionalText(path: string, v: JsValue): (r: Result<Option<string>, Exception>)
    ensures r.Success? <==> TextAccepted(v)
    ensures r.Success? ==> StoredText(v, r.value)
    ensures r.Failure? ==> r.error == ValidationError(path)
  {
    if Nullish(v) then Success(None)
    else if v.Str? then Success(Some(v.s))
    else Failure(ValidationError(path))
  }

  predicate AllStrings(items: seq<JsValue>) {
    forall k :: 0 <= k < |items| ==> items[k].Str?
  }

  /** A value a `[String]` path accepts: undefined, null or an array of strings. */
  predicate ListAccepted(v: JsValue) {
    Nullish(v) || (v.Arr? && AllStrings(v.items))
  }

  /** The list stored for the value given: [] for undefined or null, otherwise
      the strings of the array given, all of them, in order. */
  predicate StoredList(v: JsValue, l: seq<string>) {
    && (Nullish(v) ==> l == [])
    && (!Nullish(v) ==> v.Arr? && |l| == |v.items| && forall k :: 0 <= k < |l| ==> v.items[k] == Str(l[k]))
  }

  /** A `[String]` path: the empty list when unset, otherwise an array of strings. */
  function TextList(path: string, v: JsValue): (r: Result<seq<string>, Exception>)
    ensures r.Success? <==> ListAccepted(v)
    ensures r.Success? ==> StoredList(v, r.value)
    ensures r.Failure? ==> r.error == ValidationError(path)
  {
    if Nullish(v) then Success([])
    else if v.Arr? && AllStrings(v.items) then
      Success(seq(|v.items|, k requires 0 <= k < |v.items| => v.items[k].s))
    else Failure(ValidationError(path))
  }

  /** The document the schema builds from the given values, or the validation
      error it raises. */
  function Validate(f: MedicineFields): (r: Result<MedicineRecord, Exception>)
    ensures r.Success? ==> WellFormed(r.value)
    ensures r.Success? ==> r.value.normalizedName == f.normalizedName
    ensures r.Success? ==> f.medicineName == Str(r.value.medicineName)
    ensures r.Success? ==> r.value.alternatives == f.alternatives
    ensures r.Success? ==>
      && StoredText(f.genericName, r.value.genericName)
      && StoredText(f.category, r.value.category)
      && StoredText(f.howToUse, r.value.howToUse)
    ensures r.Success? ==>
      && StoredList(f.uses, r.value.uses)
      && StoredList(f.symptoms, r.value.symptoms)
      && StoredList(f.warnings, r.value.warnings)
      && StoredList(f.sideEffects, r.value.sideEffects)
    ensures r.Success? <==>
      && f.normalizedName != "" && f.medicineName.Str? && f.medicineName.s != ""
      && TextAccepted(f.genericName) && TextAccepted(f.category) && TextAccepted(f.howToUse)
      && ListAccepted(f.uses) && ListAccepted(f.symptoms)
      && ListAccepted(f.warnings) && ListAccepted(f.sideEffects)
    ensures r.Success? ==> r.value.source == if f.source.Some? then f.source.value else DefaultSource
    ensures f.normalizedName == "" ==> r == Failure(ValidationError("normalizedName"))
    ensures !Truthy(f.medicineName) && f.normalizedName != "" ==> r == Failure(ValidationError("medicineName"))
  {
    var normalizedName :- RequiredText("normalizedName", Str(f.normalizedName));
    var medicineName :- RequiredText("medicineName", f.medicineName);
    var genericName :- OptionalText("genericName", f.genericName);
    var category :- OptionalText("category", f.category);
    var uses :- TextList("uses", f.uses);
    var symptoms :- TextList("symptoms", f.symptoms);
    var howToUse :- OptionalText("howToUse", f.howToUse);
    var warnings :- TextList("warnings", f.warnings);
    var sideEffects :- TextList("sideEffects", f.sideEffects);
    var source := if f.source.Some? then f.source.value else DefaultSource;
    Success(MedicineRecord(normalizedName, medicineName, genericName, category, uses, symptoms,
                           howToUse, warnings, sideEffects, f.alternatives, source))
  }

  /** The empty array is a valid list path and gives the empty list. */
  lemma EmptyArrayIsEmptyList(path: string)
    ensures TextList(path, Arr([])) == Success([])
  {
    var r := TextList(path, Arr([]));
    assert |r.value| == 0;
  }

  /** A list path given as the empty array is stored as the empty list. */
  lemma EmptyListsStayEmpty(f: MedicineFields)
    requires Validate(f).Success?
    ensures f.uses == Arr([]) ==> Validate(f).value.uses == []
    ensures f.symptoms == Arr([]) ==> Validate(f).value.symptoms == []
    ensures f.warnings == Arr([]) ==> Validate(f).value.warnings == []
    ensures f.sideEffects == Arr([]) ==> Validate(f).value.sideEffects == []
  {
    EmptyArrayIsEmptyList("uses");
    EmptyArrayIsEmptyList("symptoms");
    EmptyArrayIsEmptyList("warnings");
    EmptyArrayIsEmptyList("sideEffects");
  }

  /** `Medicine.create(fields)`: validates, then inserts under the unique
      `normalizedName`, refusing a key that is already taken. */
  function Create(store: Store, f: MedicineFields): (r: Result<(MedicineRecord, Store), Exception>)
    ensures r.Success? ==> r.value.1 == store[f.normalizedName := r.value.0]
    ensures r.Success? ==> f.normalizedName !in store && r.value.0.normalizedName == f.normalizedName
    ensures f.normalizedName in store ==> r.Failure?
    ensures StoreInvariant(store) && r.Success? ==> StoreInvariant(r.value.1)
  {
    var rec :- Validate(f);
    if f.normalizedName in store then Failure(DuplicateKey)
    else Success((rec, store[f.normalizedName := rec]))
  }

  /** The unique index: no two stored records share a `normalizedName`. */
  lemma UniqueNormalizedName(store: Store, k1: string, k2: string)
    requires StoreInvariant(store)
    requires k1 in store && k2 in store
    requires store[k1].normalizedName == store[k2].normalizedName
    ensures k1 == k2
  {
  }
}
