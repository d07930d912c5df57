/**
 * The symptom chat responder: a fixed table of seven symptoms, a lookup that
 * tries the table's keys in order and then a few keyword heuristics on the
 * lower-cased message, a numbered-list response built from the table entry,
 * and the `/chat` handler that checks the message and falls back to a fixed
 * list of the symptoms it knows.
 */
module Chatbot {
  import opened Wrappers
  import opened Js
  import opened Text

  datatype Info = Info(causes: seq<string>, tips: seq<string>, warning: seq<string>)

  datatype Entry = Entry(key: string, info: Info)

  const BackPain: Entry := Entry("back pain", Info(
    ["Muscle strain", "Poor posture", "Lack of exercise", "Disc problems"],
    ["Apply ice for 48 hours", "Use heat therapy after", "Do gentle stretches", "Maintain good posture"],
    ["Pain > 2 weeks", "Severe pain", "Leg numbness", "Fever with pain"]))

  const Cough: Entry := Entry("cough", Info(
    ["Cold/flu", "Allergies", "Asthma", "Acid reflux"],
    ["Stay hydrated", "Honey tea", "Gargle salt water", "Steam inhalation"],
    ["Cough > 3 weeks", "Blood in cough", "Chest pain", "High fever"]))

  const Headache: Entry := Entry("headache", Info(
    ["Stress", "Dehydration", "Eye strain", "Lack of sleep"],
    ["Rest in dark room", "Cold compress", "Stay hydrated", "Sleep regularly"],
    ["Sudden severe headache", "Fever with headache", "Vision changes", "After head injury"]))

  const Fever: Entry := Entry("fever", Info(
    ["Viral infection", "Bacterial infection", "Heat exhaustion"],
    ["Rest well", "Drink lots of water", "Lukewarm bath", "Light clothing"],
    ["Temp > 103\U{00B0}F", "Fever > 3 days", "Difficulty breathing", "Severe headache"]))

  const StomachPain: Entry := Entry("stomach pain", Info(
    ["Indigestion", "Food poisoning", "Gastritis", "Constipation"],
    ["Drink clear fluids", "Ginger tea", "Bland foods", "Avoid spicy food"],
    ["Severe pain", "Blood in stool", "Fever", "Hard abdomen"]))

  const Cold: Entry := Entry("cold", Info(
    ["Viral infection", "Weak immunity", "Weather changes"],
    ["Rest well", "Warm fluids", "Steam inhalation", "Vitamin C foods"],
    ["Symptoms > 10 days", "High fever", "Ear pain", "Breathing difficulty"]))

  const SoreThroat: Entry := Entry("sore throat", Info(
    ["Viral infection", "Bacterial infection", "Allergies", "Dry air"],
    ["Gargle salt water", "Honey tea", "Stay hydrated", "Use humidifier"],
    ["Severe pain", "Fever > 101\U{00B0}F", "White patches", "Swollen neck"]))

  /** The `symptoms` object, in its key order. */
  const Table: seq<Entry> := [BackPain, Cough, Headache, Fever, StomachPain, Cold, SoreThroat]

  predicate IsKey(k: string) {
    exists i :: 0 <= i < |Table| && Table[i].key == k
  }

  // ---------------------------------------------------------------------
  // Finding the symptom

  /** The `for ... in symptoms` scan: the first key the message contains. */
  function DirectMatch(entries: seq<Entry>, msg: string): (r: Option<string>)
    ensures r.Some? ==> exists i :: 0 <= i < |entries| && entries[i].key == r.value
  {
    if |entries| == 0 then None
    else if Contains(msg, entries[0].key) then Some(entries[0].key)
    else DirectMatch(entries[1..], msg)
  }

  /** The scan finds key `k` exactly when `k` is the key of some entry the
      message contains and no earlier entry's key is contained. */
  lemma {:induction false} DirectMatchIsFirst(entries: seq<Entry>, msg: string, i: nat)
    requires i < |entries|
    ensures Contains(msg, entries[i].key) && (forall j :: 0 <= j < i ==> !Contains(msg, entries[j].key)) ==>
      DirectMatch(entries, msg) == Some(entries[i].key)
    decreases i
  {
    if i > 0 && Contains(msg, entries[i].key) && forall j :: 0 <= j < i ==> !Contains(msg, entries[j].key) {
      assert !Contains(msg, entries[0].key);
      forall j | 0 <= j < i - 1 ensures !Contains(msg, entries[1..][j].key) {
        assert entries[1..][j] == entries[j + 1];
      }
      DirectMatchIsFirst(entries[1..], msg, i - 1);
    }
  }

  /** Conversely, whatever the scan finds is the key of an entry the message
      contains, with no earlier entry's key contained. */
  lemma {:induction false} DirectMatchSound(entries: seq<Entry>, msg: string) returns (i: nat)
    requires DirectMatch(entries, msg).Some?
    ensures i < |entries| && entries[i].key == DirectMatch(entries, msg).value
    ensures Contains(msg, entries[i].key)
    ensures forall j :: 0 <= j < i ==> !Contains(msg, entries[j].key)
    decreases |entries|
  {
    if Contains(msg, entries[0].key) {
      i := 0;
    } else {
      var k := DirectMatchSound(entries[1..], msg);
      i := k + 1;
      forall j | 0 < j < i ensures !Contains(msg, entries[j].key) {
        assert entries[j] == entries[1..][j - 1];
      }
    }
  }

  /** The scan finds nothing exactly when the message contains no key. */
  lemma {:induction false} DirectMatchNone(entries: seq<Entry>, msg: string)
    ensures DirectMatch(entries, msg).None? <==> forall j :: 0 <= j < |entries| ==> !Contains(msg, entries[j].key)
    decreases |entries|
  {
    if |entries| > 0 {
      DirectMatchNone(entries[1..], msg);
      if forall j :: 0 <= j < |entries[1..]| ==> !Contains(msg, entries[1..][j].key) {
        forall j | 1 <= j < |entries| ensures !Contains(msg, entries[j].key) {
          assert entries[1..][j - 1] == entries[j];
        }
      }
    }
  }

  /** The fallback keywords, tried in this order once no key matched. */
  function Heuristic(msg: string): (r: Option<string>)
    ensures r.Some? ==> IsKey(r.value)
  {
    if Contains(msg, "pain") && (Contains(msg, "spine") || Contains(msg, "lower back")) then
      assert Table[0].key == "back pain"; Some("back pain")
    else if Contains(msg, "nose") || Contains(msg, "sneez") then
      assert Table[5].key == "cold"; Some("cold")
    else if Contains(msg, "temperature") || Contains(msg, "bukhar") then
      assert Table[3].key == "fever"; Some("fever")
    else if Contains(msg, "belly") || Contains(msg, "pet") then
      assert Table[4].key == "stomach pain"; Some("stomach pain")
    else if Contains(msg, "throat") then
      assert Table[6].key == "sore throat"; Some("sore throat")
    else None
  }

  /** `findSymptom(message)`. */
  function FindSymptom(message: string): (r: Option<string>)
    ensures r.Some? ==> IsKey(r.value)
  {
    var msg := Lower(message);
    match DirectMatch(Table, msg)
    case Some(k) => Some(k)
    case None => Heuristic(msg)
  }

  /** The heuristics are consulted only when no key occurs in the message. */
  lemma HeuristicsOnlyWithoutKey(message: string)
    ensures (exists j :: 0 <= j < |Table| && Contains(Lower(message), Table[j].key)) ==>
      FindSymptom(message) == DirectMatch(Table, Lower(message)) && FindSymptom(message).Some?
    ensures (forall j :: 0 <= j < |Table| ==> !Contains(Lower(message), Table[j].key)) ==>
      FindSymptom(message) == Heuristic(Lower(message))
  {
    DirectMatchNone(Table, Lower(message));
  }

  /** Lower-casing is idempotent. */
  lemma LowerIdempotent(s: string)
    ensures Lower(Lower(s)) == Lower(s)
  {
  }

  /** Matching ignores ASCII case: a message and its lower-cased form find the
      same symptom. */
  lemma FindSymptomIgnoresCase(message: string)
    ensures FindSymptom(Lower(message)) == FindSymptom(message)
  {
    LowerIdempotent(message);
  }

  // ---------------------------------------------------------------------
  // Building the response

  const CausesHeader: string := "\U{1F50D} Possible Causes:\n"
  const TipsHeader: string := "\n\U{1F4A1} Self-Care Tips:\n"
  const WarningHeader: string := "\n\U{26A0}\U{FE0F} See a Doctor If:\n"
  const Disclaimer: string :=
    "\n\U{1F3E5} Important: This is general advice only. Please consult a doctor for proper diagnosis.\n\nCan I help with anything else?"

  function Intro(symptom: string): string {
    "I understand you have " + symptom + ". Here's what I can tell you:\n\n"
  }

  /** One list line: `${i + 1}. ${item}\n`, for the 1-based number `n`. */
  function Line(n: nat, item: string): string {
    Decimal(n) + ". " + item + "\n"
  }

  /** The lines for `items`, numbered from `start + 1`. */
  function NumberedFrom(items: seq<string>, start: nat): string
    decreases |items|
  {
    if |items| == 0 then "" else Line(start + 1, items[0]) + NumberedFrom(items[1..], start + 1)
  }

  /** Numbering is by position: the lines of `a + b` are those of `a` followed
      by those of `b`, numbered on from where `a` stopped. */
  lemma {:induction false} NumberedAppend(a: seq<string>, b: seq<string>, start: nat)
    ensures NumberedFrom(a + b, start) == NumberedFrom(a, start) + NumberedFrom(b, start + |a|)
    decreases |a|
  {
    if |a| == 0 {
      assert a + b == b;
    } else {
      assert (a + b)[0] == a[0];
      assert (a + b)[1..] == a[1..] + b;
      NumberedAppend(a[1..], b, start + 1);
    }
  }

  /** The numbered list for an entry, each list numbered from 1. */
  function ResponseText(symptom: string, info: Info): string {
    Intro(symptom)
    + CausesHeader + NumberedFrom(info.causes, 0)
    + TipsHeader + NumberedFrom(info.tips, 0)
    + WarningHeader + NumberedFrom(info.warning, 0)
    + Disclaimer
  }

  /** `symptoms[symptom]`. */
  function Lookup(entries: seq<Entry>, symptom: string): (r: Option<Info>)
    ensures r.Some? <==> exists i :: 0 <= i < |entries| && entries[i].key == symptom
  {
    if |entries| == 0 then None
    else if entries[0].key == symptom then Some(entries[0].info)
    else
      var r := Lookup(entries[1..], symptom);
      assert forall i :: 0 <= i < |entries| - 1 ==> entries[1..][i] == entries[i + 1];
      r
  }

  /** The response opens with the symptom and closes with the disclaimer. */
  lemma ResponseFrame(symptom: string, info: Info)
    ensures var text := ResponseText(symptom, info);
      && |text| >= |Intro(symptom)| + |Disclaimer|
      && text[..|Intro(symptom)|] == Intro(symptom)
      && text[|text| - |Disclaimer|..] == Disclaimer
  {
    var rest := CausesHeader + NumberedFrom(info.causes, 0)
      + TipsHeader + NumberedFrom(info.tips, 0)
      + WarningHeader + NumberedFrom(info.warning, 0);
    assert ResponseText(symptom, info) == Intro(symptom) + rest + Disclaimer;
  }

  /** One more item adds one more line, numbered by its position. */
  lemma NumberedSnoc(items: seq<string>, i: nat)
    requires i < |items|
    ensures NumberedFrom(items[..i + 1], 0) == NumberedFrom(items[..i], 0) + Line(i + 1, items[i])
  {
    NumberedAppend(items[..i], [items[i]], 0);
    assert items[..i + 1] == items[..i] + [items[i]];
    assert NumberedFrom([items[i]], i) == Line(i + 1, items[i]) + NumberedFrom([], i + 1);
  }

  /** One `forEach` that appends a numbered line per item. */
  method AppendNumbered(response: string, items: seq<string>) returns (r: string)
    ensures r == response + NumberedFrom(items, 0)
  {
    r := response;
    var i := 0;
    while i < |items|
      invariant 0 <= i <= |items|
      invariant r == response + NumberedFrom(items[..i], 0)
    {
      NumberedSnoc(items, i);
      r := r + Line(i + 1, items[i]);
      i := i + 1;
    }
    assert items[..i] == items;
  }

  /** `createResponse(symptom)`; an unknown symptom has no entry, and reading
      `causes` of undefined throws. */
  method CreateResponse(symptom: string) returns (r: Result<string, Exception>)
    ensures Lookup(Table, symptom).None? ==> r == Failure(TypeError)
    ensures Lookup(Table, symptom).Some? ==> r == Success(ResponseText(symptom, Lookup(Table, symptom).value))
  {
    var info := Lookup(Table, symptom);
    if info.None? {
      return Failure(TypeError);
    }
    var response := Intro(symptom);
    response := response + CausesHeader;
    response := AppendNumbered(response, info.value.causes);
    response := response + TipsHeader;
    response := AppendNumbered(response, info.value.tips);
    response := response + WarningHeader;
    response := AppendNumbered(response, info.value.warning);
    response := response + Disclaimer;
    r := Success(response);
  }

  /** Every symptom `findSymptom` returns has an entry, so the response is built. */
  lemma FoundSymptomHasEntry(message: string)
    requires FindSymptom(message).Some?
    ensures Lookup(Table, FindSymptom(message).value).Some?
  {
  }

  // ---------------------------------------------------------------------
  // The handler

  const FallbackText: string :=
    "I can help with these symptoms:\n\n\U{2022} Back pain\n\U{2022} Cough\n\U{2022} Headache\n\U{2022} Fever\n\U{2022} Stomach pain\n\U{2022} Cold\n\U{2022} Sore throat\n\nPlease describe your symptoms in detail.\n\nFor serious issues, please consult a doctor immediately."

  /** An HTTP status and JSON body. */
  datatype HttpReply = HttpReply(status: nat, body: JsValue)

  function ErrorReply(status: nat, message: string): HttpReply {
    HttpReply(status, Obj(map["error" := Str(message)]))
  }

  /** The body text for a message: the symptom's response, or the fallback. */
  function ChatText(message: string): string {
    match FindSymptom(message)
    case Some(k) => ResponseText(k, Lookup(Table, k).value)
    case None => FallbackText
  }

  /** `POST /chat` on the request body. Destructuring a nullish body throws,
      and so does `toLowerCase` on a truthy message that is not a string;
      both end in the 500 reply. */
  function Chat(body: JsValue): (r: HttpReply)
    ensures Nullish(body) ==> r == ErrorReply(500, "Server error")
    ensures !Nullish(body) && !Truthy(Field(body, "message")) ==> r == ErrorReply(400, "Message required")
    ensures r.status == 200 <==> !Nullish(body) && Field(body, "message").Str? && Field(body, "message").s != ""
    ensures r.status == 200 ==> r.body == Obj(map["success" := Bool(true), "response" := Str(ChatText(Field(body, "message").s))])
  {
    if Nullish(body) then ErrorReply(500, "Server error")
    else
      var message := Field(body, "message");
      if !Truthy(message) then ErrorReply(400, "Message required")
      else if !message.Str? then ErrorReply(500, "Server error")
      else
        assert FindSymptom(message.s).Some? ==> Lookup(Table, FindSymptom(message.s).value).Some?;
        HttpReply(200, Obj(map["success" := Bool(true), "response" := Str(ChatText(message.s))]))
  }

  // ---------------------------------------------------------------------
  // Worked cases

  /** A message holding "headache" but neither 'b' nor 'g' matches the
      headache entry, though "fever" and later keys may be in it too. */
  lemma HeadacheWins(msg: string)
    requires 'b' !in msg && 'g' !in msg && Contains(msg, "headache")
    ensures DirectMatch(Table, msg) == Some("headache")
  {
    NotContainsByChar(msg, "back pain", 0);
    NotContainsByChar(msg, "cough", 3);
    assert Table[0].key == "back pain" && Table[1].key == "cough" && Table[2].key == "headache";
    DirectMatchIsFirst(Table, msg, 2);
  }

  /** The table's order decides between two keys: a message naming both a
      headache and a fever is answered as a headache. */
  lemma HeadacheBeforeFever()
    ensures FindSymptom("headache, fever") == Some("headache")
  {
    var m := "headache, fever";
    assert Lower(m) == m by {
      LowerOfLowerCase(m);
    }
    assert 'b' !in m && 'g' !in m;
    ContainsAt(m, "headache", 0);
    HeadacheWins(m);
  }

  /** A message that holds none of the seven keys makes the scan come up empty. */
  lemma NoTableKey(msg: string)
    requires !Contains(msg, "back pain") && !Contains(msg, "cough") && !Contains(msg, "headache")
    requires !Contains(msg, "fever") && !Contains(msg, "stomach pain") && !Contains(msg, "cold")
    requires !Contains(msg, "sore throat")
    ensures DirectMatch(Table, msg).None?
  {
    forall j | 0 <= j < |Table| ensures !Contains(msg, Table[j].key) {
      if j == 0 { assert Table[j] == BackPain; }
      else if j == 1 { assert Table[j] == Cough; }
      else if j == 2 { assert Table[j] == Headache; }
      else if j == 3 { assert Table[j] == Fever; }
      else if j == 4 { assert Table[j] == StomachPain; }
      else if j == 5 { assert Table[j] == Cold; }
      else { assert Table[j] == SoreThroat; }
    }
    DirectMatchNone(Table, msg);
  }

  /** A message without 'c', 'f' and 't' holds none of the seven keys. */
  lemma NoKeyWithoutCFT(msg: string)
    requires 'c' !in msg && 'f' !in msg && 't' !in msg
    ensures DirectMatch(Table, msg).None?
  {
    NotContainsByChar(msg, "back pain", 2);     // 'c'
    NotContainsByChar(msg, "cough", 0);         // 'c'
    NotContainsByChar(msg, "headache", 5);      // 'c'
    NotContainsByChar(msg, "fever", 0);         // 'f'
    NotContainsByChar(msg, "stomach pain", 1);  // 't'
    NotContainsByChar(msg, "cold", 0);          // 'c'
    NotContainsByChar(msg, "sore throat", 5);   // 't'
    NoTableKey(msg);
  }

  /** A message with no key, no "pain", and "sneez" in it is a cold. */
  lemma ColdBySneezing(message: string)
    requires 'c' !in Lower(message) && 'f' !in Lower(message) && 't' !in Lower(message)
    requires 'p' !in Lower(message) && Contains(Lower(message), "sneez")
    ensures FindSymptom(message) == Some("cold")
  {
    NoKeyWithoutCFT(Lower(message));
    NotContainsByChar(Lower(message), "pain", 0);
  }

  /** The heuristics have their own order: "sneezing" (cold) is tried before
      "bukhar" (fever). */
  lemma SneezingBeforeBukhar()
    ensures FindSymptom("sneeze, bukhar") == Some("cold")
  {
    var m := "sneeze, bukhar";
    assert Lower(m) == m by {
      LowerOfLowerCase(m);
    }
    assert 'c' !in m && 'f' !in m && 't' !in m && 'p' !in m;
    ContainsAt(m, "sneez", 0);
    ColdBySneezing(m);
  }

  /** A message without 'b', 'e', 'f', 'h' and 'l' holds none of the seven keys. */
  lemma NoKeyWithoutBEFHL(msg: string)
    requires 'b' !in msg && 'e' !in msg && 'f' !in msg && 'h' !in msg && 'l' !in msg
    ensures DirectMatch(Table, msg).None?
  {
    NotContainsByChar(msg, "back pain", 0);     // 'b'
    NotContainsByChar(msg, "cough", 4);         // 'h'
    NotContainsByChar(msg, "headache", 0);      // 'h'
    NotContainsByChar(msg, "fever", 0);         // 'f'
    NotContainsByChar(msg, "stomach pain", 6);  // 'h'
    NotContainsByChar(msg, "cold", 2);          // 'l'
    NotContainsByChar(msg, "sore throat", 3);   // 'e'
    NoTableKey(msg);
  }

  /** A message without 'b', 'e', 'h' and 'p' holds none of the heuristic keywords. */
  lemma NoKeywordWithoutBEHP(msg: string)
    requires 'b' !in msg && 'e' !in msg && 'h' !in msg && 'p' !in msg
    ensures Heuristic(msg).None?
  {
    NotContainsByChar(msg, "pain", 0);          // 'p'
    NotContainsByChar(msg, "nose", 3);          // 'e'
    NotContainsByChar(msg, "sneez", 2);         // 'e'
    NotContainsByChar(msg, "temperature", 1);   // 'e'
    NotContainsByChar(msg, "bukhar", 0);        // 'b'
    NotContainsByChar(msg, "belly", 0);         // 'b'
    NotContainsByChar(msg, "pet", 0);           // 'p'
    NotContainsByChar(msg, "throat", 1);        // 'h'
  }

  /** A message without 'b', 'e', 'f', 'h', 'l' and 'p' gets the fallback list. */
  lemma FallbackWithoutLetters(message: string)
    requires var msg := Lower(message);
      'b' !in msg && 'e' !in msg && 'f' !in msg && 'h' !in msg && 'l' !in msg && 'p' !in msg
    ensures FindSymptom(message) == None
    ensures ChatText(message) == FallbackText
  {
    NoKeyWithoutBEFHL(Lower(message));
    NoKeywordWithoutBEHP(Lower(message));
  }

  /** The letters that keep "i am sick" clear of every key and keyword. */
  lemma UnrelatedLetters(m: string)
    requires m == "i am sick"
    ensures var msg := Lower(m);
      'b' !in msg && 'e' !in msg && 'f' !in msg && 'h' !in msg && 'l' !in msg && 'p' !in msg
  {
    LowerOfLowerCase(m);
  }

  /** A message that names no symptom and no keyword gets the fallback list. */
  lemma UnrelatedMessageFallsBack()
    ensures FindSymptom("i am sick") == None
    ensures ChatText("i am sick") == FallbackText
  {
    UnrelatedLetters("i am sick");
    FallbackWithoutLetters("i am sick");
  }
}
