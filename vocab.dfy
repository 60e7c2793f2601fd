/** The records of model/vocab.go and the JSON that encoding/json writes for
    them, with decoders (json.Unmarshal into the struct) as their inverses. */
module Vocab {
  import opened Wrappers
  import opened Json

  /** One quiz item as observed from the server. `prompt` is the Go field
      `Question`; `choices` built by `append` from a nil slice, so an empty
      sequence stands for Go's nil slice. */
  datatype Question = Question(
    questionType: string,
    decodedCode: string,
    code: string,
    difficulty: real,
    context: string,
    prompt: string,
    answer: string,
    answerKey: string,
    choices: seq<QuestionChoices>,
    isCorrect: bool,
    targetWord: string)

  /** One answer choice: `key` is the submission nonce, `value` its text. */
  datatype QuestionChoices = QuestionChoices(key: string, value: string)

  datatype AnswerReq = AnswerReq(secret: string, v: int, rt: int, a: string)

  datatype NextQuestionReq = NextQuestionReq(secret: string, v: int)

  datatype StartPracticeReq = StartPracticeReq(v: int, activityType: string, wordListId: int, secret: string)

  /** Go's zero value `model.Question{}`. */
  const ZeroQuestion := Question("", "", "", 0.0, "", "", "", "", [], false, "")

  // ---------------------------------------------------------------------
  // Encoding (json.Marshal)

  function EncodeChoice(c: QuestionChoices): Json {
    JObject(map["key" := JString(c.key), "value" := JString(c.value)])
  }

  /** A nil slice marshals as `null`, a non-empty one as an array. */
  function EncodeChoices(cs: seq<QuestionChoices>): Json {
    if cs == [] then JNull else JArray(seq(|cs|, i requires 0 <= i < |cs| => EncodeChoice(cs[i])))
  }

  function EncodeAnswerReq(r: AnswerReq): Json {
    JObject(map["secret" := JString(r.secret), "v" := JNumber(r.v as real),
                "rt" := JNumber(r.rt as real), "a" := JString(r.a)])
  }

  function EncodeNextQuestionReq(r: NextQuestionReq): Json {
    JObject(map["secret" := JString(r.secret), "v" := JNumber(r.v as real)])
  }

  /** `secret` carries `omitempty`: it is written only when non-empty. */
  function EncodeStartPracticeReq(r: StartPracticeReq): Json {
    var base := map["v" := JNumber(r.v as real), "activitytype" := JString(r.activityType),
                    "wordlistid" := JNumber(r.wordListId as real)];
    JObject(if r.secret != "" then base["secret" := JString(r.secret)] else base)
  }

  // ---------------------------------------------------------------------
  // Decoding (json.Unmarshal into the struct): a missing key or `null`
  // leaves the zero value, a value of the wrong type is an error.

  function StringField(m: map<string, Json>, k: string): (r: Option<string>)
    ensures k !in m ==> r == Some("")
  {
    if k !in m then Some("")
    else match m[k]
      case JNull => Some("")
      case JString(s) => Some(s)
      case _ => None
  }

  /** An int field accepts only a number with no fractional part. */
  function IntField(m: map<string, Json>, k: string): (r: Option<int>)
    ensures k !in m ==> r == Some(0)
  {
    if k !in m then Some(0)
    else match m[k]
      case JNull => Some(0)
      case JNumber(n) => if n.Floor as real == n then Some(n.Floor) else None
      case _ => None
  }

  function DecodeChoice(j: Json): Option<QuestionChoices> {
    if !j.JObject? then None
    else
      match (StringField(j.fields, "key"), StringField(j.fields, "value"))
      case (Some(k), Some(v)) => Some(QuestionChoices(k, v))
      case _ => None
  }

  function DecodeChoiceList(js: seq<Json>): Option<seq<QuestionChoices>> {
    if js == [] then Some([])
    else
      match (DecodeChoice(js[0]), DecodeChoiceList(js[1..]))
      case (Some(c), Some(cs)) => Some([c] + cs)
      case _ => None
  }

  function DecodeChoices(j: Json): Option<seq<QuestionChoices>> {
    match j
    case JNull => Some([])
    case JArray(js) => DecodeChoiceList(js)
    case _ => None
  }

  function DecodeAnswerReq(j: Json): Option<AnswerReq> {
    if !j.JObject? then None
    else
      var m := j.fields;
      match (StringField(m, "secret"), IntField(m, "v"), IntField(m, "rt"), StringField(m, "a"))
      case (Some(s), Some(v), Some(rt), Some(a)) => Some(AnswerReq(s, v, rt, a))
      case _ => None
  }

  function DecodeNextQuestionReq(j: Json): Option<NextQuestionReq> {
    if !j.JObject? then None
    else
      match (StringField(j.fields, "secret"), IntField(j.fields, "v"))
      case (Some(s), Some(v)) => Some(NextQuestionReq(s, v))
      case _ => None
  }

  function DecodeStartPracticeReq(j: Json): Option<StartPracticeReq> {
    if !j.JObject? then None
    else
      var m := j.fields;
      match (IntField(m, "v"), StringField(m, "activitytype"), IntField(m, "wordlistid"), StringField(m, "secret"))
      case (Some(v), Some(t), Some(id), Some(s)) => Some(StartPracticeReq(v, t, id, s))
      case _ => None
  }

  // ---------------------------------------------------------------------
  // Properties of the encodings

  lemma IntRoundTrip(x: int)
    ensures (x as real).Floor == x
  {
  }

  /** A choice encodes as an object with exactly the keys `key` and `value`,
      and decodes back to itself. */
  lemma ChoiceEncoding(c: QuestionChoices)
    ensures EncodeChoice(c).JObject? && EncodeChoice(c).fields.Keys == {"key", "value"}
    ensures DecodeChoice(EncodeChoice(c)) == Some(c)
  {
  }

  /** A choice list encodes as an array of the encoded choices in the same
      order (as `null` when empty), and decodes back to itself. */
  lemma {:induction false} ChoicesEncoding(cs: seq<QuestionChoices>)
    ensures cs != [] ==> EncodeChoices(cs) == JArray(seq(|cs|, i requires 0 <= i < |cs| => EncodeChoice(cs[i])))
    ensures cs == [] ==> EncodeChoices(cs) == JNull
    ensures DecodeChoices(EncodeChoices(cs)) == Some(cs)
  {
    if cs != [] {
      var js := seq(|cs|, i requires 0 <= i < |cs| => EncodeChoice(cs[i]));
      ChoiceListRoundTrip(cs, js);
    }
  }

  lemma {:induction false} ChoiceListRoundTrip(cs: seq<QuestionChoices>, js: seq<Json>)
    requires |js| == |cs| && forall i :: 0 <= i < |cs| ==> js[i] == EncodeChoice(cs[i])
    ensures DecodeChoiceList(js) == Some(cs)
  {
    if cs != [] {
      ChoiceEncoding(cs[0]);
      ChoiceListRoundTrip(cs[1..], js[1..]);
      assert cs == [cs[0]] + cs[1..];
    }
  }

  /** An AnswerReq encodes exactly `secret`, `v`, `rt` and `a` (the secret
      even when empty) and decodes back to itself. */
  lemma AnswerReqEncoding(r: AnswerReq)
    ensures EncodeAnswerReq(r).fields.Keys == {"secret", "v", "rt", "a"}
    ensures EncodeAnswerReq(r).fields["secret"] == JString(r.secret)
    ensures DecodeAnswerReq(EncodeAnswerReq(r)) == Some(r)
  {
    IntRoundTrip(r.v);
    IntRoundTrip(r.rt);
  }

  /** A NextQuestionReq encodes exactly `secret` and `v` and decodes back. */
  lemma NextQuestionReqEncoding(r: NextQuestionReq)
    ensures EncodeNextQuestionReq(r).fields.Keys == {"secret", "v"}
    ensures DecodeNextQuestionReq(EncodeNextQuestionReq(r)) == Some(r)
  {
    IntRoundTrip(r.v);
  }

  /** A StartPracticeReq always encodes `v`, `activitytype` and `wordlistid`,
      encodes `secret` exactly when it is non-empty, and decodes back. */
  lemma StartPracticeReqEncoding(r: StartPracticeReq)
    ensures var m := EncodeStartPracticeReq(r).fields;
      && {"v", "activitytype", "wordlistid"} <= m.Keys
      && m.Keys <= {"v", "activitytype", "wordlistid", "secret"}
      && ("secret" in m <==> r.secret != "")
      && ("secret" in m ==> m["secret"] == JString(r.secret))
    ensures DecodeStartPracticeReq(EncodeStartPracticeReq(r)) == Some(r)
  {
    IntRoundTrip(r.v);
    IntRoundTrip(r.wordListId);
  }
}
