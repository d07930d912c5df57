/**
 * The medicine-name normaliser: one text-generation call, the brace span of
 * its reply handed to JSON.parse, and the rule that turns the parsed object
 * into a canonical/generic name pair or "not recognised".
 */
module MedicineNormalizer {
  import opened Wrappers
  import opened Js
  import opened Text
  import opened BraceSpan

  /** A text-generation call, as a function of the name its prompt is built
      from: the reply text, or `None` when the call is rejected. */
  type Reply = string -> Option<string>

  /** JSON.parse on a brace span: the parsed object, or `None` when it throws.
      A span opens with `{` and closes with `}`, so what parses is an object. */
  type Parser = string -> Option<JsObject>

  /** What the normaliser hands back when it accepts the input. */
  datatype Normalized = Normalized(canonicalName: string, genericName: string)

  const ParseFailedMessage: string := "Failed to parse normalization response"

  /** `extractJSON(text)`: `Success(None)` for null (no span), `Failure` when
      JSON.parse throws on the span. */
  function ExtractJSON(text: string, parse: Parser): Result<Option<JsObject>, Exception> {
    match Span(text)
    case None => Success(None)
    case Some(span) =>
      match parse(span)
      case None => Failure(SyntaxError)
      case Some(obj) => Success(Some(obj))
  }

  /** `extractJSON` returns null exactly when no `}` follows the first `{`;
      otherwise it parses the text from that `{` through the last `}`. */
  lemma ExtractJSONNullIffNoSpan(text: string, parse: Parser)
    ensures ExtractJSON(text, parse) == Success(None) <==>
      (match IndexOf(text, '{')
       case None => true
       case Some(f) => '}' !in text[f + 1..])
    ensures ExtractJSON(text, parse) != Success(None) ==>
      exists i: nat, j: nat :: IsMatch(text, i, j) && '{' !in text[..i] && '}' !in text[j..]
        && (ExtractJSON(text, parse) == Failure(SyntaxError) <==> parse(text[i..j]).None?)
  {
    SpanShape(text);
  }

  /** The reasons the source gives for "not a recognised medicine": no usable
      `canonicalName` (missing, empty or any falsy value), the exact string
      "unknown", or a confidence of exactly "low". */
  predicate Unrecognized(obj: JsObject) {
    var canonical := Field(Obj(obj), "canonicalName");
    || !Truthy(canonical)
    || canonical == Str("unknown")
    || Field(Obj(obj), "confidence") == Str("low")
  }

  /** The post-parse decision. A truthy `canonicalName` that is not a string, or
      a `genericName` that is neither nullish nor a string, has no `trim`
      method, and calling it throws a TypeError. */
  function Decide(obj: JsObject): (r: Result<Option<Normalized>, Exception>)
    ensures r == Success(None) <==> Unrecognized(obj)
    ensures r.Failure? <==>
      !Unrecognized(obj) &&
      (!Field(Obj(obj), "canonicalName").Str? ||
       !(Nullish(Field(Obj(obj), "genericName")) || Field(Obj(obj), "genericName").Str?))
    ensures r.Failure? ==> r.error == TypeError
    ensures r.Success? && r.value.Some? ==>
      var n := r.value.value;
      && Str(n.canonicalName) == (var c := Field(Obj(obj), "canonicalName"); if c.Str? then Str(Trim(c.s)) else c)
      && IsTrimmed(n.canonicalName)
      && IsTrimmed(n.genericName)
      && (var g := Field(Obj(obj), "genericName"); if g.Str? then n.genericName == Trim(g.s) else n.genericName == "")
  {
    var canonical := Field(Obj(obj), "canonicalName");
    var generic := Field(Obj(obj), "genericName");
    if Unrecognized(obj) then Success(None)
    else if !canonical.Str? then Failure(TypeError)
    else if Nullish(generic) then Success(Some(Normalized(Trim(canonical.s), "")))
    else if !generic.Str? then Failure(TypeError)
    else Success(Some(Normalized(Trim(canonical.s), Trim(generic.s))))
  }

  /** `normalizeMedicineWithAI(input)`: `Success(None)` is the source's null. */
  function Normalize(input: string, reply: Reply, parse: Parser): Result<Option<Normalized>, Exception> {
    match reply(input)
    case None => Failure(ServiceFailure)
    case Some(text) =>
      var parsed :- ExtractJSON(text, parse);
      match parsed
      case None => Failure(Error(ParseFailedMessage))
      case Some(obj) => Decide(obj)
  }

  /** A reply without a brace span is an error, not "not recognised"; with a
      span, the outcome is the decision on the parsed object. */
  lemma NormalizeOutcomes(input: string, reply: Reply, parse: Parser)
    ensures reply(input).None? ==> Normalize(input, reply, parse) == Failure(ServiceFailure)
    ensures reply(input).Some? && Span(reply(input).value).None? ==>
      Normalize(input, reply, parse) == Failure(Error(ParseFailedMessage))
    ensures reply(input).Some? && Span(reply(input).value).Some? ==>
      var obj := parse(Span(reply(input).value).value);
      Normalize(input, reply, parse) == if obj.None? then Failure(SyntaxError) else Decide(obj.value)
    ensures Normalize(input, reply, parse).Success? && Normalize(input, reply, parse).value.Some? ==>
      IsTrimmed(Normalize(input, reply, parse).value.value.canonicalName)
  {
  }

  /** A canonical name padded with one space on each side is never the
      exact string "unknown", so it is accepted with the padding trimmed. */
  lemma PaddedNameIsAccepted(w: string, obj: JsObject)
    requires IsTrimmed(w) && w != []
    requires obj == map["canonicalName" := Str([' '] + w + [' ']), "confidence" := Str("high")]
    ensures Decide(obj) == Success(Some(Normalized(w, "")))
  {
    var padded := [' '] + w + [' '];
    assert Field(Obj(obj), "canonicalName") == Str(padded);
    assert Field(Obj(obj), "genericName") == Undefined;
    assert Field(Obj(obj), "confidence") != Str("low");
    assert padded[0] != "unknown"[0];
    assert !Unrecognized(obj);
    TrimPadded(w);
  }

  /** The "unknown" test is an exact comparison made before trimming: a padded
      " unknown " is accepted, and comes back as the canonical name "unknown". */
  lemma PaddedUnknownIsAccepted()
    ensures Decide(map["canonicalName" := Str(" unknown "), "confidence" := Str("high")])
         == Success(Some(Normalized("unknown", "")))
  {
    assert " unknown " == [' '] + "unknown" + [' '];
    assert IsTrimmed("unknown");
    PaddedNameIsAccepted("unknown", map["canonicalName" := Str(" unknown "), "confidence" := Str("high")]);
  }
}
