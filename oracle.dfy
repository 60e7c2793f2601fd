/** The answer oracle as Runner.Ask (application/app.go) uses it: the
    request payload it marshals and the doubly nested reply it unwraps. */
module Oracle {
  import opened Wrappers
  import opened Json
  import opened Vocab

  /** OllamaPayload: what the oracle is told about a question. */
  datatype OllamaPayload = OllamaPayload(context: string, question: string, choices: seq<QuestionChoices>)

  function PayloadOf(q: Question): OllamaPayload {
    OllamaPayload(q.context, q.prompt, q.choices)
  }

  function EncodeOllamaPayload(p: OllamaPayload): Json {
    JObject(map["context" := JString(p.context), "question" := JString(p.question),
                "choices" := EncodeChoices(p.choices)])
  }

  /** The payload carries exactly the question's context, prompt and
      choices, under `context`, `question` and `choices`. */
  lemma PayloadEncoding(q: Question)
    ensures var m := EncodeOllamaPayload(PayloadOf(q)).fields;
      && m.Keys == {"context", "question", "choices"}
      && m["context"] == JString(q.context) && m["question"] == JString(q.prompt)
      && DecodeChoices(m["choices"]) == Some(q.choices)
  {
    ChoicesEncoding(q.choices);
  }

  /** Unwraps the oracle's reply: `body` is the reply decoded as a JSON
      object (None when the call, the read or the decoding failed), and
      `unmarshal` decodes the string held in `response`. Every missing or
      mistyped field panics. */
  function UnwrapReply(body: Option<map<string, Json>>, unmarshal: string -> Option<map<string, Json>>): Exit<QuestionChoices> {
    match body
    case None => Panic("error decoding JSON response")
    case Some(data) =>
      match StringAt(data, "response")
      case None => Panic("failed to decode response JSON")
      case Some(response) =>
        match unmarshal(response)
        case None => Panic("error decoding JSON response")
        case Some(answerJson) =>
          match ObjectAt(answerJson, "answer")
          case None => Panic("failed to decode answer JSON")
          case Some(inner) =>
            match (StringAt(inner, "answer"), StringAt(inner, "code"))
            case (None, _) => Panic("failed to decode inner answer JSON")
            case (_, None) => Panic("failed to decode code JSON")
            case (Some(answer), Some(code)) => Return(QuestionChoices(code, answer))
  }

  /** The reply yields a choice exactly when `response` is a string holding
      JSON whose `answer` object has string `answer` and `code`; the choice's
      key is the code and its value the answer. */
  lemma UnwrapReplySpec(body: Option<map<string, Json>>, unmarshal: string -> Option<map<string, Json>>)
    ensures var r := UnwrapReply(body, unmarshal);
      r.Return? <==>
        && body.Some? && StringAt(body.value, "response").Some?
        && unmarshal(StringAt(body.value, "response").value).Some?
        && ObjectAt(unmarshal(StringAt(body.value, "response").value).value, "answer").Some?
        && var inner := ObjectAt(unmarshal(StringAt(body.value, "response").value).value, "answer").value;
           StringAt(inner, "answer").Some? && StringAt(inner, "code").Some?
    ensures var r := UnwrapReply(body, unmarshal);
      r.Return? ==>
        var inner := ObjectAt(unmarshal(StringAt(body.value, "response").value).value, "answer").value;
        JString(r.value.key) == inner["code"] && JString(r.value.value) == inner["answer"]
  {
  }

  /** A reply built the way the oracle answers unwraps to its choice. */
  lemma UnwrapReplyRoundTrip(c: QuestionChoices, text: string, unmarshal: string -> Option<map<string, Json>>)
    requires unmarshal(text) == Some(map["answer" := JObject(map["answer" := JString(c.value), "code" := JString(c.key)])])
    ensures UnwrapReply(Some(map["response" := JString(text)]), unmarshal) == Return(c)
  {
  }
}
