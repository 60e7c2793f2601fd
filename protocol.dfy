/** The session steps of Runner (application/app.go) as functions on the
    session context: what each of Start, AnswerQuestion, NextQuestion, Ask
    and the restart branch of Practice sends, how it changes the secret,
    the completion, the current question and the question table, and
    whether it returns or panics, and how every response's cookies are
    merged into the jar. The Runner class's methods are proved equal to
    these steps. */
module Protocol {
  import opened Wrappers
  import opened Json
  import opened Vocab
  import opened Extract
  import opened Store
  import opened Oracle
  import Cookies

  const ContentTypeJson := "application/json; charset=UTF-8"
  const ContentTypeUrlEncoded := "application/x-www-form-urlencoded; charset=UTF-8"
  const RestartChallenge := "RestartChallengeException"

  /** The reasons of panics that do not come from an error value. */
  const NilDereference := "invalid memory address or nil pointer dereference"
  const PointsNotInt := "interface conversion: points is not int"

  /** A response of the quiz server: its status, its body decoded as a JSON
      object and the cookies it sets. */
  datatype Response = Response(status: int, body: map<string, Json>, setCookies: seq<Cookies.Cookie>)

  /** The part of a Runner's state the steps read and write: the secret,
      CurrentCompletionPercentage, CurrentQuestion (None for nil), the last
      request body and content type (None before the first request), the
      rows of the question table and the cookie jar, by name. */
  datatype Ctx = Ctx(
    secret: string,
    completion: real,
    current: Option<Question>,
    requestBody: Option<Json>,
    contentType: string,
    table: Table,
    jar: map<string, Cookies.Cookie>)

  /** The context once a response arrived: its cookies merged into the jar
      (RetrieveCookies), before anything else looks at the response. */
  function Received(c: Ctx, r: Response): Ctx {
    c.(jar := Cookies.Absorb(c.jar, r.setCookies))
  }

  /** A 400 response whose `error` is the string RestartChallengeException. */
  predicate IsRestartSignal(r: Response) {
    r.status == 400 && StringAt(r.body, "error") == Some(RestartChallenge)
  }

  /** The progress in `data`, or `fallback` when it cannot be extracted. */
  function ProgressOr(data: map<string, Json>, fallback: real): real {
    match ExtractPracticeProgress(data)
    case Success(p) => p
    case Failure(_) => fallback
  }

  // ---------------------------------------------------------------------
  // Start

  /** Runner.Start: `resp` is None when the request fails. */
  function StartStep(c: Ctx, listId: int, resp: Option<Response>, decode: string -> Option<string>, select: string -> Page): (Ctx, Exit<Option<Question>>) {
    var c0 := c.(completion := if c.secret == "" then 0.0 else c.completion,
                 requestBody := Some(EncodeStartPracticeReq(StartPracticeReq(3, "p", listId, c.secret))),
                 contentType := ContentTypeJson);
    if resp.None? then (c0, Return(None)) else StartResponse(Received(c0, resp.value), resp.value, decode, select)
  }

  /** What Start does with a response. */
  function StartResponse(c: Ctx, r: Response, decode: string -> Option<string>, select: string -> Page): (Ctx, Exit<Option<Question>>) {
    if IsRestartSignal(r) then (c.(completion := 1.0, current := None), Return(None))
    else StartReply(c, r.body, decode, select)
  }

  lemma StartResponseKeepsRequest(c: Ctx, r: Response, decode: string -> Option<string>, select: string -> Page)
    ensures var (c', _) := StartResponse(c, r, decode, select);
      c'.requestBody == c.requestBody && c'.contentType == c.contentType && c'.jar == c.jar
  {
  }

  /** What Start does with a body that is not the restart signal. */
  function StartReply(c: Ctx, data: map<string, Json>, decode: string -> Option<string>, select: string -> Page): (Ctx, Exit<Option<Question>>) {
    match ExtractSecret(data)
    case Failure(_) => (c, Return(None))
    case Success(s) =>
      var c1 := c.(secret := s);
      match ExtractQuestionSpec(data, decode, select)
      case Panicked(reason) => (c1, Panic(reason))
      case Failed(_) => (c1, Return(None))
      case Extracted(q, _) =>
        (c1.(current := Some(q), table := Upsert(c1.table, q), completion := ProgressOr(data, c1.completion)),
         Return(Some(q)))
  }

  /** Start sends the stored secret only when it is non-empty, as JSON; with
      an empty secret the completion is reset to 0 before the request, so it
      stays 0 when the request fails. */
  lemma StartRequest(c: Ctx, listId: int, resp: Option<Response>, decode: string -> Option<string>, select: string -> Page)
    ensures var (c', _) := StartStep(c, listId, resp, decode, select);
      && c'.requestBody.Some? && c'.requestBody.value.JObject?
      && c'.contentType == ContentTypeJson
      && c'.requestBody.value.fields.Keys == {"v", "activitytype", "wordlistid"} + (if c.secret == "" then {} else {"secret"})
      && DecodeStartPracticeReq(c'.requestBody.value) == Some(StartPracticeReq(3, "p", listId, c.secret))
    ensures resp.None? ==>
      var (c', e) := StartStep(c, listId, resp, decode, select);
      && e == Return(None)
      && c'.completion == (if c.secret == "" then 0.0 else c.completion)
      && c'.secret == c.secret && c'.current == c.current && c'.table == c.table
  {
    var c0 := c.(completion := if c.secret == "" then 0.0 else c.completion,
                 requestBody := Some(EncodeStartPracticeReq(StartPracticeReq(3, "p", listId, c.secret))),
                 contentType := ContentTypeJson);
    if resp.Some? {
      StartResponseKeepsRequest(Received(c0, resp.value), resp.value, decode, select);
    }
    StartPracticeReqEncoding(StartPracticeReq(3, "p", listId, c.secret));
  }

  /** How Start ends once a response arrived: the restart signal sets the
      completion to 1 and the current question to nil and keeps the secret;
      a missing secret returns nil with the secret unchanged; a failed
      extraction returns nil after the secret was replaced; a question is
      made current, saved, and the progress taken when present. */
  lemma StartOutcome(c: Ctx, listId: int, r: Response, decode: string -> Option<string>, select: string -> Page)
    ensures var (c', e) := StartStep(c, listId, Some(r), decode, select);
      var reset := if c.secret == "" then 0.0 else c.completion;
      && (IsRestartSignal(r) ==>
            e == Return(None) && c'.completion == 1.0 && c'.current.None? && c'.secret == c.secret && c'.table == c.table)
      && (!IsRestartSignal(r) && ExtractSecret(r.body).Failure? ==>
            e == Return(None) && c'.secret == c.secret && c'.current == c.current && c'.completion == reset && c'.table == c.table)
      && (!IsRestartSignal(r) && ExtractSecret(r.body).Success? ==>
            && c'.secret == ExtractSecret(r.body).value
            && match ExtractQuestionSpec(r.body, decode, select)
               case Panicked(reason) => e == Panic(reason) && c'.current == c.current && c'.table == c.table
               case Failed(_) => e == Return(None) && c'.current == c.current && c'.completion == reset && c'.table == c.table
               case Extracted(q, _) =>
                 && e == Return(Some(q)) && c'.current == Some(q) && c'.table == Upsert(c.table, q)
                 && c'.completion == (if ExtractPracticeProgress(r.body).Success? then ExtractPracticeProgress(r.body).value else reset))
  {
  }

  // ---------------------------------------------------------------------
  // AnswerQuestion

  /** Runner.AnswerQuestion with the response time `rt` it submits. Past
      the `answer.word` check the source asserts `answer.points` to a Go
      int, which a value decoded from JSON never is, so every path that gets
      there panics; the save and progress steps after it are not reached. */
  function AnswerStep(c: Ctx, answer: QuestionChoices, rt: int, resp: Option<Response>): (Ctx, Exit<()>) {
    var c0 := c.(requestBody := Some(EncodeAnswerReq(AnswerReq(c.secret, 3, rt, answer.key))),
                 contentType := ContentTypeUrlEncoded);
    if resp.None? then (c0, Panic("error making HTTP request")) else AnswerResponse(Received(c0, resp.value), answer, resp.value)
  }

  /** What AnswerQuestion does with a response. */
  function AnswerResponse(c: Ctx, answer: QuestionChoices, r: Response): (Ctx, Exit<()>) {
    if IsRestartSignal(r) then (c.(completion := 1.0, current := Some(ZeroQuestion)), Return(()))
    else AnswerReply(c, answer, r.body)
  }

  lemma AnswerResponseKeepsRequest(c: Ctx, answer: QuestionChoices, r: Response)
    ensures var (c', e) := AnswerResponse(c, answer, r);
      && c'.requestBody == c.requestBody && c'.contentType == c.contentType && c'.table == c.table && c'.jar == c.jar
      && (e.Return? <==> IsRestartSignal(r))
  {
  }

  /** What AnswerQuestion does with a body that is not the restart signal. */
  function AnswerReply(c: Ctx, answer: QuestionChoices, data: map<string, Json>): (Ctx, Exit<()>) {
    match ExtractSecret(data)
    case Failure(e) => (c, Panic(e))
    case Success(s) =>
      var c1 := c.(secret := s);
      match ObjectAt(data, "answer")
      case None => (c1, Panic("failed to decode answer JSON"))
      case Some(a) =>
        match (BoolAt(a, "correct"), StringAt(a, "word"))
        case (None, _) => (c1, Panic("failed to decode wasCorrect JSON"))
        case (_, None) => (c1, Panic("failed to decode target word JSON"))
        case (Some(correct), Some(word)) =>
          match c1.current
          case None => (c1, Panic(NilDereference))
          case Some(q) =>
            (c1.(current := Some(q.(answer := answer.value, answerKey := answer.key, targetWord := word, isCorrect := correct))),
             Panic(PointsNotInt))
  }

  /** A zero Question has every string empty, IsCorrect false and no
      choices. */
  lemma ZeroQuestionIsEmpty()
    ensures var z := ZeroQuestion;
      && z.questionType == z.decodedCode == z.code == z.context == z.prompt == ""
      && z.answer == z.answerKey == z.targetWord == ""
      && z.difficulty == 0.0 && z.choices == [] && !z.isCorrect
  {
  }

  /** AnswerQuestion submits the stored secret, the response time and the
      chosen key, URL-encoded; it returns normally exactly on the restart
      signal, which sets the completion to 1 and the current question to a
      zero Question and keeps the secret; it never writes the table. */
  lemma AnswerOutcome(c: Ctx, answer: QuestionChoices, rt: int, resp: Option<Response>)
    ensures var (c', e) := AnswerStep(c, answer, rt, resp);
      && c'.requestBody == Some(EncodeAnswerReq(AnswerReq(c.secret, 3, rt, answer.key)))
      && c'.contentType == ContentTypeUrlEncoded
      && c'.table == c.table
      && (e.Return? <==> resp.Some? && IsRestartSignal(resp.value))
      && (e.Return? ==> c'.completion == 1.0 && c'.current == Some(ZeroQuestion) && c'.secret == c.secret)
      && (e.Panic? ==> c'.completion == c.completion)
  {
    var c0 := c.(requestBody := Some(EncodeAnswerReq(AnswerReq(c.secret, 3, rt, answer.key))),
                 contentType := ContentTypeUrlEncoded);
    if resp.Some? {
      AnswerResponseKeepsRequest(Received(c0, resp.value), answer, resp.value);
    }
  }

  /** Past the restart check AnswerQuestion replaces the secret first, then
      needs `answer` to be an object with a bool `correct` and a string
      `word`; with both and a current question, that question takes the
      submitted choice as its answer and the reply's word and verdict. */
  lemma AnswerUpdatesQuestion(c: Ctx, answer: QuestionChoices, rt: int, r: Response)
    requires !IsRestartSignal(r)
    ensures var (c', e) := AnswerStep(c, answer, rt, Some(r));
      && e.Panic?
      && (ExtractSecret(r.body).Failure? ==> c'.secret == c.secret && c'.current == c.current)
      && (ExtractSecret(r.body).Success? ==> c'.secret == ExtractSecret(r.body).value)
      && (var a := ObjectAt(r.body, "answer");
          var fieldsOk := a.Some? && BoolAt(a.value, "correct").Some? && StringAt(a.value, "word").Some?;
          && (ExtractSecret(r.body).Success? && fieldsOk && c.current.Some? ==>
                c'.current == Some(c.current.value.(answer := answer.value, answerKey := answer.key,
                                                   targetWord := StringAt(a.value, "word").value,
                                                   isCorrect := BoolAt(a.value, "correct").value)))
          && (!fieldsOk || c.current.None? ==> c'.current == c.current))
  {
  }

  // ---------------------------------------------------------------------
  // NextQuestion

  /** Runner.NextQuestion. The extraction error is ignored, but the nil
      question is then dereferenced, so a failed extraction panics after
      the current question was set to nil. There is no restart check. */
  function NextStep(c: Ctx, resp: Option<Response>, decode: string -> Option<string>, select: string -> Page): (Ctx, Exit<Question>) {
    var c0 := c.(requestBody := Some(EncodeNextQuestionReq(NextQuestionReq(c.secret, 3))),
                 contentType := ContentTypeUrlEncoded);
    if resp.None? then (c0, Panic("error making HTTP request"))
    else NextReply(Received(c0, resp.value), resp.value.body, decode, select)
  }

  /** What NextQuestion does with the body of a response. */
  function NextReply(c: Ctx, data: map<string, Json>, decode: string -> Option<string>, select: string -> Page): (Ctx, Exit<Question>) {
    match ExtractSecret(data)
    case Failure(e) => (c, Panic(e))
    case Success(s) =>
      var c1 := c.(secret := s);
      match ExtractQuestionSpec(data, decode, select)
      case Panicked(reason) => (c1, Panic(reason))
      case Failed(_) => (c1.(current := None), Panic(NilDereference))
      case Extracted(q, _) =>
        (c1.(current := Some(q), table := Upsert(c1.table, q), completion := ProgressOr(data, c1.completion)),
         Return(q))
  }

  /** NextQuestion submits the secret URL-encoded; it returns exactly when
      the body holds a secret and a question that extracts, which is then
      current and saved; missing progress keeps the completion; a body
      without a secret panics with the secret unchanged, and one whose
      question fails to decode leaves no current question. */
  lemma NextOutcome(c: Ctx, resp: Option<Response>, decode: string -> Option<string>, select: string -> Page)
    ensures var (c', e) := NextStep(c, resp, decode, select);
      && c'.requestBody == Some(EncodeNextQuestionReq(NextQuestionReq(c.secret, 3)))
      && c'.contentType == ContentTypeUrlEncoded
      && (e.Return? <==> resp.Some? && ExtractQuestionSpec(resp.value.body, decode, select).Extracted?)
      && (e.Return? ==>
            var x := ExtractQuestionSpec(resp.value.body, decode, select);
            && e.value == x.question && c'.current == Some(x.question)
            && c'.secret == ExtractSecret(resp.value.body).value
            && c'.table == Upsert(c.table, x.question)
            && c'.completion == ProgressOr(resp.value.body, c.completion))
      && (resp.Some? && ExtractSecret(resp.value.body).Failure? ==> c'.secret == c.secret && c'.current == c.current)
      && (resp.Some? && ExtractQuestionSpec(resp.value.body, decode, select).Failed? ==> c'.current.None? && c'.table == c.table)
      && (e.Panic? ==> c'.table == c.table && c'.completion == c.completion)
  {
    if resp.Some? {
      ExtractQuestionOutcome(resp.value.body, decode, select);
    }
  }

  /** The question NextQuestion returns is the current one. */
  lemma NextReturnsCurrent(c: Ctx, resp: Option<Response>, decode: string -> Option<string>, select: string -> Page)
    ensures var (c', e) := NextStep(c, resp, decode, select);
      e.Return? ==> c'.current == Some(e.value) && c'.(current := Some(e.value)) == c'
  {
  }

  /** A restart signal is not special to NextQuestion: a body that carries
      no secret panics whatever its status. */
  lemma NextIgnoresRestart(c: Ctx, r: Response, decode: string -> Option<string>, select: string -> Page)
    requires IsRestartSignal(r) && "secret" !in r.body
    ensures NextStep(c, Some(r), decode, select).1.Panic?
  {
  }

  // ---------------------------------------------------------------------
  // Ask

  /** Runner.Ask once the oracle's reply is in: `reply` is that reply
      decoded as a JSON object (None when the call or the decoding failed). */
  function AskStep(c: Ctx, reply: Option<map<string, Json>>, unmarshal: string -> Option<map<string, Json>>): (Ctx, Exit<QuestionChoices>) {
    match UnwrapReply(reply, unmarshal)
    case Panic(reason) => (c, Panic(reason))
    case Return(choice) =>
      match c.current
      case None => (c, Panic(NilDereference))
      case Some(q) => (c.(current := Some(q.(answer := choice.value, answerKey := choice.key))), Return(choice))
  }

  /** Ask returns the oracle's choice exactly when the reply unwraps and
      there is a current question; it then copies the choice's value and
      key into that question's answer and answer key and changes nothing
      else. */
  lemma AskOutcome(c: Ctx, reply: Option<map<string, Json>>, unmarshal: string -> Option<map<string, Json>>)
    ensures var (c', e) := AskStep(c, reply, unmarshal);
      && (e.Return? <==> UnwrapReply(reply, unmarshal).Return? && c.current.Some?)
      && (e.Return? ==>
            && e.value == UnwrapReply(reply, unmarshal).value
            && c' == c.(current := Some(c.current.value.(answer := e.value.value, answerKey := e.value.key))))
      && (e.Panic? ==> c' == c)
  {
  }

  // ---------------------------------------------------------------------
  // Practice: the restart branch

  /** Lines 520-527 of Practice, after AnswerQuestion: when the completion
      is 1 the secret is cleared, Start is called and its result made
      current, and the same answer is submitted again. The result tells
      whether the branch was taken. */
  function RestartBranch(c: Ctx, listId: int, answer: QuestionChoices, startResp: Option<Response>, rt: int, replayResp: Option<Response>,
                         decode: string -> Option<string>, select: string -> Page): (Ctx, Exit<bool>) {
    if c.completion != 1.0 then (c, Return(false))
    else
      var (c1, started) := StartStep(c.(secret := ""), listId, startResp, decode, select);
      match started
      case Panic(reason) => (c1, Panic(reason))
      case Return(q) =>
        var (c2, answered) := AnswerStep(c1.(current := q), answer, rt, replayResp);
        match answered
        case Panic(reason) => (c2, Panic(reason))
        case Return(_) => (c2, Return(true))
  }

  /** The restart starts a fresh challenge: the start request carries no
      secret and the completion is reset. Below completion 1 nothing
      happens. */
  lemma RestartStartsFresh(c: Ctx, listId: int, answer: QuestionChoices, startResp: Option<Response>, rt: int, replayResp: Option<Response>,
                           decode: string -> Option<string>, select: string -> Page)
    ensures c.completion != 1.0 ==> RestartBranch(c, listId, answer, startResp, rt, replayResp, decode, select) == (c, Return(false))
    ensures c.completion == 1.0 ==>
      var (c1, started) := StartStep(c.(secret := ""), listId, startResp, decode, select);
      && c1.requestBody == Some(EncodeStartPracticeReq(StartPracticeReq(3, "p", listId, "")))
      && "secret" !in c1.requestBody.value.fields
      && (startResp.None? ==> c1.completion == 0.0)
  {
    if c.completion == 1.0 {
      StartRequest(c.(secret := ""), listId, startResp, decode, select);
    }
  }

  /** Once the restarted Start returned, the answer is replayed with the
      secret that Start obtained and the same key, and the branch completes
      exactly when the replay meets the restart signal again. */
  lemma RestartReplaysAnswer(c: Ctx, listId: int, answer: QuestionChoices, startResp: Option<Response>, rt: int, replayResp: Option<Response>,
                             decode: string -> Option<string>, select: string -> Page)
    requires c.completion == 1.0
    ensures var (c1, started) := StartStep(c.(secret := ""), listId, startResp, decode, select);
      started.Return? ==>
        var (c', e) := RestartBranch(c, listId, answer, startResp, rt, replayResp, decode, select);
        && c'.requestBody == Some(EncodeAnswerReq(AnswerReq(c1.secret, 3, rt, answer.key)))
        && (e == Return(true) <==> replayResp.Some? && IsRestartSignal(replayResp.value))
  {
    var (c1, started) := StartStep(c.(secret := ""), listId, startResp, decode, select);
    if started.Return? {
      RestartBranchTaken(c, listId, answer, startResp, rt, replayResp, decode, select);
      AnswerOutcome(c1.(current := started.value), answer, rt, replayResp);
    }
  }

  /** The restart branch once Start returned: the replayed answer decides. */
  lemma RestartBranchTaken(c: Ctx, listId: int, answer: QuestionChoices, startResp: Option<Response>, rt: int, replayResp: Option<Response>,
                           decode: string -> Option<string>, select: string -> Page)
    requires c.completion == 1.0
    ensures var (c1, started) := StartStep(c.(secret := ""), listId, startResp, decode, select);
      started.Return? ==>
        var (c2, answered) := AnswerStep(c1.(current := started.value), answer, rt, replayResp);
        RestartBranch(c, listId, answer, startResp, rt, replayResp, decode, select)
          == (c2, if answered.Panic? then Panic(answered.reason) else Return(true))
  {
  }

  // ---------------------------------------------------------------------
  // Practice: the loop

  /** What a Runner works with besides its state: the word list, the base64
      decoder, the fragment selector, the oracle (the reply it gives to a
      payload, decoded as a JSON object) and the decoder of the string the
      oracle's reply holds. */
  datatype Env = Env(
    listId: int,
    decode: string -> Option<string>,
    select: string -> Page,
    oracle: Json -> Option<map<string, Json>>,
    unmarshal: string -> Option<map<string, Json>>)

  /** What one pass of Practice's loop receives: the response time and the
      server's reply to the answer, the replies to the restart's Start and
      replayed answer (with its response time), and the reply to
      NextQuestion. */
  datatype RoundInput = RoundInput(
    rt: int,
    answerResp: Option<Response>,
    startResp: Option<Response>,
    replayRt: int,
    replayResp: Option<Response>,
    nextResp: Option<Response>)

  /** One pass of Practice's loop: ask the oracle about the current question
      (a nil question panics on the dereference), submit its choice, take
      the restart branch, fetch the next question. */
  function RoundStep(c: Ctx, env: Env, input: RoundInput): (Ctx, Exit<()>) {
    match c.current
    case None => (c, Panic(NilDereference))
    case Some(q) =>
      var (c1, asked) := AskStep(c, env.oracle(EncodeOllamaPayload(PayloadOf(q))), env.unmarshal);
      match asked
      case Panic(reason) => (c1, Panic(reason))
      case Return(answer) => SubmitStep(c1, env, answer, input)
  }

  /** The rest of a pass once the oracle chose `answer`. */
  function SubmitStep(c: Ctx, env: Env, answer: QuestionChoices, input: RoundInput): (Ctx, Exit<()>) {
    var (c1, answered) := AnswerStep(c, answer, input.rt, input.answerResp);
    match answered
    case Panic(reason) => (c1, Panic(reason))
    case Return(_) => AdvanceStep(c1, env, answer, input)
  }

  /** The rest of a pass once the answer was submitted. */
  function AdvanceStep(c: Ctx, env: Env, answer: QuestionChoices, input: RoundInput): (Ctx, Exit<()>) {
    var (c1, restarted) := RestartBranch(c, env.listId, answer, input.startResp, input.replayRt, input.replayResp, env.decode, env.select);
    match restarted
    case Panic(reason) => (c1, Panic(reason))
    case Return(_) =>
      var (c2, next) := NextStep(c1, input.nextResp, env.decode, env.select);
      match next
      case Panic(reason) => (c2, Panic(reason))
      case Return(_) => (c2, Return(()))
  }

  /** Passes of the loop over `rounds` until one panics; Return when the
      inputs run out first. */
  function Rounds(c: Ctx, env: Env, rounds: seq<RoundInput>): (Ctx, Exit<()>)
    decreases |rounds|
  {
    if rounds == [] then (c, Return(()))
    else
      var (c1, e) := RoundStep(c, env, rounds[0]);
      if e.Panic? then (c1, e) else Rounds(c1, env, rounds[1..])
  }

  /** Practice: NextQuestion, then the loop. */
  function PracticeRun(c: Ctx, env: Env, first: Option<Response>, rounds: seq<RoundInput>): (Ctx, Exit<()>) {
    var (c0, e) := NextStep(c, first, env.decode, env.select);
    match e
    case Panic(reason) => (c0, Panic(reason))
    case Return(_) => Rounds(c0, env, rounds)
  }

  // ---------------------------------------------------------------------
  // The cookie jar

  /** The jar after a call that got `resp` (None when the request failed). */
  function JarAfter(jar: map<string, Cookies.Cookie>, resp: Option<Response>): map<string, Cookies.Cookie> {
    if resp.Some? then Cookies.Absorb(jar, resp.value.setCookies) else jar
  }

  /** Start, AnswerQuestion and NextQuestion merge the cookies of their
      response into the jar, whatever the response says, and nothing else
      changes the jar. */
  lemma StartAbsorbsCookies(c: Ctx, listId: int, resp: Option<Response>, decode: string -> Option<string>, select: string -> Page)
    ensures StartStep(c, listId, resp, decode, select).0.jar == JarAfter(c.jar, resp)
  {
    if resp.Some? {
      var c0 := c.(completion := if c.secret == "" then 0.0 else c.completion,
                   requestBody := Some(EncodeStartPracticeReq(StartPracticeReq(3, "p", listId, c.secret))),
                   contentType := ContentTypeJson);
      StartResponseKeepsRequest(Received(c0, resp.value), resp.value, decode, select);
    }
  }

  lemma AnswerAbsorbsCookies(c: Ctx, answer: QuestionChoices, rt: int, resp: Option<Response>)
    ensures AnswerStep(c, answer, rt, resp).0.jar == JarAfter(c.jar, resp)
  {
    if resp.Some? {
      var c0 := c.(requestBody := Some(EncodeAnswerReq(AnswerReq(c.secret, 3, rt, answer.key))),
                   contentType := ContentTypeUrlEncoded);
      AnswerResponseKeepsRequest(Received(c0, resp.value), answer, resp.value);
    }
  }

  lemma NextAbsorbsCookies(c: Ctx, resp: Option<Response>, decode: string -> Option<string>, select: string -> Page)
    ensures NextStep(c, resp, decode, select).0.jar == JarAfter(c.jar, resp)
  {
    if resp.Some? {
      var c0 := c.(requestBody := Some(EncodeNextQuestionReq(NextQuestionReq(c.secret, 3))),
                   contentType := ContentTypeUrlEncoded);
      NextReplyKeepsJar(Received(c0, resp.value), resp.value.body, decode, select);
    }
  }

  lemma NextReplyKeepsJar(c: Ctx, data: map<string, Json>, decode: string -> Option<string>, select: string -> Page)
    ensures NextReply(c, data, decode, select).0.jar == c.jar
  {
    if ExtractSecret(data).Success? {
      match ExtractQuestionSpec(data, decode, select)
      case Panicked(_) =>
      case Failed(_) =>
      case Extracted(q, _) =>
    }
  }

  /** Ask talks to the oracle, not the server: the jar stays. */
  lemma AskKeepsJar(c: Ctx, reply: Option<map<string, Json>>, unmarshal: string -> Option<map<string, Json>>)
    ensures AskStep(c, reply, unmarshal).0.jar == c.jar
  {
  }

  lemma JarAfterGrows(jar: map<string, Cookies.Cookie>, resp: Option<Response>)
    ensures Cookies.Grown(jar, JarAfter(jar, resp))
  {
    if resp.Some? {
      Cookies.AbsorbGrows(jar, resp.value.setCookies);
    }
  }

  /** The restart branch only grows the jar. */
  lemma RestartBranchGrowsJar(c: Ctx, listId: int, answer: QuestionChoices, startResp: Option<Response>, rt: int, replayResp: Option<Response>,
                              decode: string -> Option<string>, select: string -> Page)
    ensures Cookies.Grown(c.jar, RestartBranch(c, listId, answer, startResp, rt, replayResp, decode, select).0.jar)
  {
    if c.completion == 1.0 {
      var c0 := c.(secret := "");
      var (c1, started) := StartStep(c0, listId, startResp, decode, select);
      StartAbsorbsCookies(c0, listId, startResp, decode, select);
      JarAfterGrows(c.jar, startResp);
      if started.Return? {
        var c2 := c1.(current := started.value);
        AnswerAbsorbsCookies(c2, answer, rt, replayResp);
        JarAfterGrows(c2.jar, replayResp);
        Cookies.GrownTransitive(c.jar, c1.jar, AnswerStep(c2, answer, rt, replayResp).0.jar);
      }
    }
  }

  /** A pass of Practice's loop never drops a cookie from the jar and only
      replaces cookies on the allow-list. */
  lemma RoundGrowsJar(c: Ctx, env: Env, input: RoundInput)
    ensures Cookies.Grown(c.jar, RoundStep(c, env, input).0.jar)
  {
    if c.current.Some? {
      var reply := env.oracle(EncodeOllamaPayload(PayloadOf(c.current.value)));
      var (c1, asked) := AskStep(c, reply, env.unmarshal);
      AskKeepsJar(c, reply, env.unmarshal);
      if asked.Return? {
        var answer := asked.value;
        var (c2, answered) := AnswerStep(c1, answer, input.rt, input.answerResp);
        AnswerAbsorbsCookies(c1, answer, input.rt, input.answerResp);
        JarAfterGrows(c1.jar, input.answerResp);
        if answered.Return? {
          var (c3, restarted) := RestartBranch(c2, env.listId, answer, input.startResp, input.replayRt, input.replayResp, env.decode, env.select);
          RestartBranchGrowsJar(c2, env.listId, answer, input.startResp, input.replayRt, input.replayResp, env.decode, env.select);
          Cookies.GrownTransitive(c.jar, c2.jar, c3.jar);
          if restarted.Return? {
            NextAbsorbsCookies(c3, input.nextResp, env.decode, env.select);
            JarAfterGrows(c3.jar, input.nextResp);
            Cookies.GrownTransitive(c.jar, c3.jar, NextStep(c3, input.nextResp, env.decode, env.select).0.jar);
          }
        }
      }
    }
  }

  /** So does any run of the loop. */
  lemma {:induction false} RoundsGrowJar(c: Ctx, env: Env, rounds: seq<RoundInput>)
    ensures Cookies.Grown(c.jar, Rounds(c, env, rounds).0.jar)
    decreases |rounds|
  {
    if rounds != [] {
      var (c1, e) := RoundStep(c, env, rounds[0]);
      RoundGrowsJar(c, env, rounds[0]);
      if e.Return? {
        RoundsGrowJar(c1, env, rounds[1..]);
        Cookies.GrownTransitive(c.jar, c1.jar, Rounds(c1, env, rounds[1..]).0.jar);
      }
    }
  }

  /** And so does all of Practice. */
  lemma PracticeGrowsJar(c: Ctx, env: Env, first: Option<Response>, rounds: seq<RoundInput>)
    ensures Cookies.Grown(c.jar, PracticeRun(c, env, first, rounds).0.jar)
  {
    var (c0, e) := NextStep(c, first, env.decode, env.select);
    NextAbsorbsCookies(c, first, env.decode, env.select);
    JarAfterGrows(c.jar, first);
    if e.Return? {
      RoundsGrowJar(c0, env, rounds);
      Cookies.GrownTransitive(c.jar, c0.jar, Rounds(c0, env, rounds).0.jar);
    }
  }

  /** Both answers of a pass were met by the restart signal. */
  predicate Restarted(input: RoundInput) {
    && input.answerResp.Some? && IsRestartSignal(input.answerResp.value)
    && input.replayResp.Some? && IsRestartSignal(input.replayResp.value)
  }

  /** A pass of the loop completes only when the answer and its replay were
      both met by the restart signal: any other reply to an answer panics,
      and a normal return from AnswerQuestion always sets the completion to
      1, so the restart branch is always taken. */
  lemma RoundNeedsRestarts(c: Ctx, env: Env, input: RoundInput)
    ensures RoundStep(c, env, input).1.Return? ==> Restarted(input)
  {
    if c.current.Some? {
      var q := c.current.value;
      var (c1, asked) := AskStep(c, env.oracle(EncodeOllamaPayload(PayloadOf(q))), env.unmarshal);
      if asked.Return? {
        AnswerOutcome(c1, asked.value, input.rt, input.answerResp);
        var (c2, answered) := AnswerStep(c1, asked.value, input.rt, input.answerResp);
        if answered.Return? {
          assert c2.completion == 1.0;
          var (s1, started) := StartStep(c2.(secret := ""), env.listId, input.startResp, env.decode, env.select);
          if started.Return? {
            AnswerOutcome(s1.(current := started.value), asked.value, input.replayRt, input.replayResp);
          }
        }
      }
    }
  }

  /** A loop that returns normally returned from its first pass and from
      the passes after it. */
  lemma RoundsReturnStep(c: Ctx, env: Env, rounds: seq<RoundInput>)
    requires rounds != [] && Rounds(c, env, rounds).1.Return?
    ensures RoundStep(c, env, rounds[0]).1.Return?
    ensures Rounds(RoundStep(c, env, rounds[0]).0, env, rounds[1..]).1.Return?
  {
  }

  /** So Practice gets through a sequence of passes only when every answer
      it submitted was met by the restart signal. */
  lemma {:induction false} RoundsNeedRestarts(c: Ctx, env: Env, rounds: seq<RoundInput>)
    ensures Rounds(c, env, rounds).1.Return? ==> forall i :: 0 <= i < |rounds| ==> Restarted(rounds[i])
    decreases |rounds|
  {
    if rounds != [] && Rounds(c, env, rounds).1.Return? {
      var step := RoundStep(c, env, rounds[0]);
      RoundsReturnStep(c, env, rounds);
      RoundNeedsRestarts(c, env, rounds[0]);
      RoundsNeedRestarts(step.0, env, rounds[1..]);
      forall i | 0 <= i < |rounds|
        ensures Restarted(rounds[i])
      {
        if i > 0 {
          assert rounds[i] == rounds[1..][i - 1];
        }
      }
    }
  }

  /** The passes compose: running `xs` and then `ys` is running `xs + ys`. */
  lemma {:induction false} RoundsAppend(c: Ctx, env: Env, xs: seq<RoundInput>, ys: seq<RoundInput>)
    ensures var (c1, e) := Rounds(c, env, xs);
      Rounds(c, env, xs + ys) == if e.Panic? then (c1, e) else Rounds(c1, env, ys)
    decreases |xs|
  {
    if xs == [] {
      assert xs + ys == ys;
    } else {
      assert (xs + ys)[0] == xs[0];
      assert (xs + ys)[1..] == xs[1..] + ys;
      var (c1, e) := RoundStep(c, env, xs[0]);
      if e.Return? {
        RoundsAppend(c1, env, xs[1..], ys);
      }
    }
  }
}
