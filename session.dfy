/** Runner (application/app.go): the practice client's session state,
    updated in place by Start, AnswerQuestion, NextQuestion, Ask,
    SaveQuestionToDB and Practice. Each method is proved to do what the
    matching step of module Protocol says, and to merge the response's
    cookies into the jar and re-render the Cookie header before it looks at
    the status. */
module Session {
  import opened Wrappers
  import opened Json
  import opened Vocab
  import opened Extract
  import opened Store
  import opened Oracle
  import opened Cookies
  import opened Protocol

  /** A cookie given only by name and value. */
  function NamedCookie(name: string, value: string): Cookie {
    Cookie(name, value, "", "", 0, "", 0, false, false, 0, "", [])
  }

  class Runner {
    const env: Env

    var secret: string
    var completion: real
    var currentQuestion: Option<Question>
    var cookies: seq<Cookie>
    var cookieHeader: string
    var requestBody: Option<Json>
    var contentType: string
    var table: Table

    /** The state the Protocol steps speak about. */
    function Context(): Ctx
      reads this
    {
      Ctx(secret, completion, currentQuestion, requestBody, contentType, table, JarOf(cookies))
    }

    /** The jar never holds two cookies of the same name, and the Cookie
        header always renders it. */
    ghost predicate Valid()
      reads this
    {
      && DistinctNames(cookies)
      && cookieHeader == Render(cookies)
    }

    /** New: a jar of the three session cookies, the header rendered from
        it, URL-encoded requests, no secret, no current question and the
        rows already in the question table. */
    constructor (env: Env, albCookie: string, jSessionId: string, guid: string, rows: Table)
      ensures Valid()
      ensures this.env == env
      ensures cookies == [NamedCookie("AWSALB", albCookie), NamedCookie("JSESSIONID", jSessionId), NamedCookie("guid", guid)]
      ensures Context() == Ctx("", 0.0, None, None, ContentTypeUrlEncoded, rows,
                               map["AWSALB" := NamedCookie("AWSALB", albCookie),
                                   "JSESSIONID" := NamedCookie("JSESSIONID", jSessionId),
                                   "guid" := NamedCookie("guid", guid)])
    {
      this.env := env;
      var jar := [NamedCookie("AWSALB", albCookie), NamedCookie("JSESSIONID", jSessionId), NamedCookie("guid", guid)];
      var header := GetCookiesString(Some(jar));
      cookies := jar;
      assert JarOf(jar) == map[jar[0].name := jar[0], jar[1].name := jar[1], jar[2].name := jar[2]] by {
        var two, one := jar[..2], jar[..1];
        assert two[..1] == one && one[..0] == [];
        assert Indexed(map[], one) == map[jar[0].name := jar[0]];
        assert Indexed(map[], two) == Indexed(map[], one)[jar[1].name := jar[1]];
        assert Indexed(map[], jar) == Indexed(map[], two)[jar[2].name := jar[2]];
      }
      cookieHeader := header.value;
      secret := "";
      completion := 0.0;
      currentQuestion := None;
      requestBody := None;
      contentType := ContentTypeUrlEncoded;
      table := rows;
    }

    /** The two lines every server call runs on its response: the jar
        becomes the merge of the response's cookies into it, and the header
        is rendered again. */
    method AbsorbCookies(incoming: seq<Cookie>)
      modifies this`cookies, this`cookieHeader
      ensures Enumerates(cookies, Merged(old(cookies), incoming))
      ensures JarOf(cookies) == Absorb(JarOf(old(cookies)), incoming)
      ensures Valid()
    {
      cookies := RetrieveCookies(incoming, cookies);
      EnumeratedJar(cookies, Merged(old(cookies), incoming));
      var header := GetCookiesString(Some(cookies));
      cookieHeader := header.value;
    }

    /** SaveQuestionToDB: the upsert of the question's row. */
    method SaveQuestionToDB(question: Question)
      modifies this`table
      ensures table == Upsert(old(table), question)
    {
      table := Upsert(table, question);
    }

    /** The end of Start and NextQuestion once the secret is stored: the
        question is extracted and, when there is one, made current and
        saved, and the progress taken when present. */
    method TakeQuestion(data: map<string, Json>) returns (x: Extraction)
      modifies this`currentQuestion, this`table, this`completion
      ensures x == ExtractQuestionSpec(data, env.decode, env.select)
      ensures x.Extracted? ==>
        && currentQuestion == Some(x.question)
        && table == Upsert(old(table), x.question)
        && completion == ProgressOr(data, old(completion))
      ensures !x.Extracted? ==>
        currentQuestion == old(currentQuestion) && table == old(table) && completion == old(completion)
    {
      x := ExtractQuestion(data, env.decode, env.select);
      if x.Extracted? {
        currentQuestion := Some(x.question);
        SaveQuestionToDB(x.question);
        var progress := ExtractPracticeProgress(data);
        if progress.Success? {
          completion := progress.value;
        }
      }
    }

    /** Start past the restart check. */
    method StartFromReply(data: map<string, Json>) returns (e: Exit<Option<Question>>)
      modifies this`secret, this`currentQuestion, this`table, this`completion
      ensures (Context(), e) == StartReply(old(Context()), data, env.decode, env.select)
    {
      var s := ExtractSecret(data);
      if s.Failure? {
        return Return(None);
      }
      secret := s.value;
      var x := TakeQuestion(data);
      match x {
        case Panicked(reason) =>
          return Panic(reason);
        case Failed(_) =>
          return Return(None);
        case Extracted(question, _) =>
          return Return(Some(question));
      }
    }

    method Start(resp: Option<Response>) returns (e: Exit<Option<Question>>)
      requires Valid()
      modifies this
      ensures Valid()
      ensures (Context(), e) == StartStep(old(Context()), env.listId, resp, env.decode, env.select)
      ensures resp.Some? ==> Enumerates(cookies, Merged(old(cookies), resp.value.setCookies))
      ensures resp.None? ==> cookies == old(cookies)
    {
      if secret == "" {
        completion := 0.0;
      }
      requestBody := Some(EncodeStartPracticeReq(StartPracticeReq(3, "p", env.listId, secret)));
      contentType := ContentTypeJson;
      ghost var sent := Context();
      if resp.None? {
        return Return(None);
      }
      AbsorbCookies(resp.value.setCookies);
      assert Context() == Received(sent, resp.value);
      e := StartOnResponse(resp.value);
    }

    /** Start past the request: the restart check, then the body. */
    method StartOnResponse(r: Response) returns (e: Exit<Option<Question>>)
      modifies this`secret, this`currentQuestion, this`table, this`completion
      ensures (Context(), e) == StartResponse(old(Context()), r, env.decode, env.select)
    {
      if r.status == 400 {
        var roundOver := StringAt(r.body, "error");
        if roundOver.Some? && roundOver.value == RestartChallenge {
          completion := 1.0;
          currentQuestion := None;
          return Return(None);
        }
      }
      e := StartFromReply(r.body);
    }

    /** AnswerQuestion past the restart check. */
    method AnswerFromReply(answer: QuestionChoices, data: map<string, Json>) returns (e: Exit<()>)
      modifies this`secret, this`currentQuestion
      ensures (Context(), e) == AnswerReply(old(Context()), answer, data)
    {
      var s := ExtractSecret(data);
      if s.Failure? {
        return Panic(s.error);
      }
      secret := s.value;
      var answerJson := ObjectAt(data, "answer");
      if answerJson.None? {
        return Panic("failed to decode answer JSON");
      }
      var wasCorrect := BoolAt(answerJson.value, "correct");
      if wasCorrect.None? {
        return Panic("failed to decode wasCorrect JSON");
      }
      var targetWord := StringAt(answerJson.value, "word");
      if targetWord.None? {
        return Panic("failed to decode target word JSON");
      }
      if currentQuestion.None? {
        return Panic(NilDereference);
      }
      currentQuestion := Some(currentQuestion.value.(answer := answer.value, answerKey := answer.key,
                                                     targetWord := targetWord.value, isCorrect := wasCorrect.value));
      // `answer.points` is asserted to a Go int, which no decoded JSON value is.
      return Panic(PointsNotInt);
    }

    /** AnswerQuestion with the response time it submits. */
    method AnswerQuestion(answer: QuestionChoices, rt: int, resp: Option<Response>) returns (e: Exit<()>)
      requires Valid()
      modifies this
      ensures Valid()
      ensures (Context(), e) == AnswerStep(old(Context()), answer, rt, resp)
      ensures resp.Some? ==> Enumerates(cookies, Merged(old(cookies), resp.value.setCookies))
      ensures resp.None? ==> cookies == old(cookies)
    {
      requestBody := Some(EncodeAnswerReq(AnswerReq(secret, 3, rt, answer.key)));
      contentType := ContentTypeUrlEncoded;
      ghost var sent := Context();
      if resp.None? {
        return Panic("error making HTTP request");
      }
      AbsorbCookies(resp.value.setCookies);
      assert Context() == Received(sent, resp.value);
      e := AnswerOnResponse(answer, resp.value);
    }

    /** AnswerQuestion past the request: the restart check, then the body. */
    method AnswerOnResponse(answer: QuestionChoices, r: Response) returns (e: Exit<()>)
      modifies this`secret, this`currentQuestion, this`completion
      ensures (Context(), e) == AnswerResponse(old(Context()), answer, r)
    {
      if r.status == 400 {
        var roundOver := StringAt(r.body, "error");
        if roundOver.Some? && roundOver.value == RestartChallenge {
          completion := 1.0;
          currentQuestion := Some(ZeroQuestion);
          return Return(());
        }
      }
      e := AnswerFromReply(answer, r.body);
    }

    /** NextQuestion past the request. */
    method NextFromReply(data: map<string, Json>) returns (e: Exit<Question>)
      modifies this`secret, this`currentQuestion, this`table, this`completion
      ensures (Context(), e) == NextReply(old(Context()), data, env.decode, env.select)
    {
      var s := ExtractSecret(data);
      if s.Failure? {
        return Panic(s.error);
      }
      secret := s.value;
      var x := TakeQuestion(data);
      match x {
        case Panicked(reason) =>
          return Panic(reason);
        case Failed(_) =>
          currentQuestion := None;
          return Panic(NilDereference);
        case Extracted(question, _) =>
          return Return(question);
      }
    }

    method NextQuestion(resp: Option<Response>) returns (e: Exit<Question>)
      requires Valid()
      modifies this
      ensures Valid()
      ensures (Context(), e) == NextStep(old(Context()), resp, env.decode, env.select)
      ensures resp.Some? ==> Enumerates(cookies, Merged(old(cookies), resp.value.setCookies))
      ensures resp.None? ==> cookies == old(cookies)
    {
      requestBody := Some(EncodeNextQuestionReq(NextQuestionReq(secret, 3)));
      contentType := ContentTypeUrlEncoded;
      ghost var sent := Context();
      assert NextStep(old(Context()), resp, env.decode, env.select) ==
        if resp.None? then (sent, Panic("error making HTTP request"))
        else NextReply(Received(sent, resp.value), resp.value.body, env.decode, env.select);
      if resp.None? {
        return Panic("error making HTTP request");
      }
      var data := resp.value.body;
      AbsorbCookies(resp.value.setCookies);
      assert Context() == Received(sent, resp.value);
      e := NextFromReply(data);
    }

    /** Ask: the oracle is given the question's payload, and its reply is
        unwrapped into the choice it names. */
    method Ask(question: Question) returns (e: Exit<QuestionChoices>)
      modifies this`currentQuestion
      ensures (Context(), e) == AskStep(old(Context()), env.oracle(EncodeOllamaPayload(PayloadOf(question))), env.unmarshal)
    {
      var reply := env.oracle(EncodeOllamaPayload(PayloadOf(question)));
      var unwrapped := UnwrapReply(reply, env.unmarshal);
      if unwrapped.Panic? {
        return Panic(unwrapped.reason);
      }
      var choice := unwrapped.value;
      if currentQuestion.None? {
        return Panic(NilDereference);
      }
      currentQuestion := Some(currentQuestion.value.(answer := choice.value, answerKey := choice.key));
      return Return(choice);
    }

    /** The restart branch of Practice, run after AnswerQuestion. */
    method RestartIfRoundOver(answer: QuestionChoices, startResp: Option<Response>, rt: int, replayResp: Option<Response>) returns (e: Exit<bool>)
      requires Valid()
      modifies this
      ensures Valid()
      ensures (Context(), e) == RestartBranch(old(Context()), env.listId, answer, startResp, rt, replayResp, env.decode, env.select)
    {
      if completion == 1.0 {
        secret := "";
        var started := Start(startResp);
        if started.Panic? {
          return Panic(started.reason);
        }
        currentQuestion := started.value;
        var answered := AnswerQuestion(answer, rt, replayResp);
        if answered.Panic? {
          return Panic(answered.reason);
        }
        return Return(true);
      }
      return Return(false);
    }

    /** One pass of Practice's loop. */
    method Round(input: RoundInput) returns (e: Exit<()>)
      requires Valid()
      modifies this
      ensures Valid()
      ensures (Context(), e) == RoundStep(old(Context()), env, input)
    {
      if currentQuestion.None? {
        return Panic(NilDereference);
      }
      var asked := Ask(currentQuestion.value);
      if asked.Panic? {
        return Panic(asked.reason);
      }
      assert RoundStep(old(Context()), env, input) == SubmitStep(Context(), env, asked.value, input);
      e := Submit(asked.value, input);
    }

    /** The pass once the oracle chose `answer`: submit it, then go on. */
    method Submit(answer: QuestionChoices, input: RoundInput) returns (e: Exit<()>)
      requires Valid()
      modifies this
      ensures Valid()
      ensures (Context(), e) == SubmitStep(old(Context()), env, answer, input)
    {
      var answered := AnswerQuestion(answer, input.rt, input.answerResp);
      if answered.Panic? {
        return Panic(answered.reason);
      }
      e := Advance(answer, input);
    }

    /** The pass once the answer is in: the restart branch, then the next
        question. */
    method Advance(answer: QuestionChoices, input: RoundInput) returns (e: Exit<()>)
      requires Valid()
      modifies this
      ensures Valid()
      ensures (Context(), e) == AdvanceStep(old(Context()), env, answer, input)
    {
      var restarted := RestartIfRoundOver(answer, input.startResp, input.replayRt, input.replayResp);
      if restarted.Panic? {
        return Panic(restarted.reason);
      }
      ghost var restartedCtx := Context();
      var next := NextQuestion(input.nextResp);
      if next.Panic? {
        return Panic(next.reason);
      }
      NextReturnsCurrent(restartedCtx, input.nextResp, env.decode, env.select);
      currentQuestion := Some(next.value);
      return Return(());
    }

    /** Practice, fed the reply to its first NextQuestion and then one input
        per pass of its loop; it runs until a pass panics or the inputs run
        out. */
    method Practice(first: Option<Response>, rounds: seq<RoundInput>) returns (e: Exit<()>)
      requires Valid()
      modifies this
      ensures Valid()
      ensures (Context(), e) == PracticeRun(old(Context()), env, first, rounds)
    {
      var next := NextQuestion(first);
      if next.Panic? {
        return Panic(next.reason);
      }
      NextReturnsCurrent(old(Context()), first, env.decode, env.select);
      currentQuestion := Some(next.value);
      e := RunRounds(rounds);
    }

    /** The loop of Practice. */
    method RunRounds(rounds: seq<RoundInput>) returns (e: Exit<()>)
      requires Valid()
      modifies this
      ensures Valid()
      ensures (Context(), e) == Rounds(old(Context()), env, rounds)
    {
      for i := 0 to |rounds|
        invariant Valid()
        invariant Rounds(old(Context()), env, rounds) == Rounds(Context(), env, rounds[i..])
      {
        ghost var before := Context();
        ghost var rest := rounds[i..];
        assert rest[0] == rounds[i] && rest[1..] == rounds[i + 1..];
        var r := Round(rounds[i]);
        assert Rounds(before, env, rest) == if r.Panic? then (Context(), r) else Rounds(Context(), env, rounds[i + 1..]);
        if r.Panic? {
          return Panic(r.reason);
        }
      }
      assert rounds[|rounds|..] == [];
      return Return(());
    }
  }
}
