/** The response-body extractors of utils/utils.go: ExtractSecret,
    ExtractPracticeProgress and ExtractQuestion. Base64 decoding and HTML
    selection are library calls; they enter as function parameters. */
module Extract {
  import opened Wrappers
  import opened Json
  import opened Text
  import opened Vocab

  /** ExtractSecret: `data["secret"]` when it is a string. */
  function ExtractSecret(data: map<string, Json>): (r: Result<string, string>)
    ensures r.Success? <==> "secret" in data && data["secret"].JString?
    ensures r.Success? ==> data["secret"] == JString(r.value)
  {
    match StringAt(data, "secret")
    case Some(s) => Success(s)
    case None => Failure("error decoding secret")
  }

  /** ExtractPracticeProgress: `data.game.progress` when `game` is an object
      and `progress` a number. */
  function ExtractPracticeProgress(data: map<string, Json>): (r: Result<real, string>)
    ensures r.Success? <==>
      "game" in data && data["game"].JObject? && "progress" in data["game"].fields
      && data["game"].fields["progress"].JNumber?
    ensures r.Success? ==> data["game"].fields["progress"] == JNumber(r.value)
  {
    match ObjectAt(data, "game")
    case None => Failure("failed to decode game JSON")
    case Some(game) =>
      match NumberAt(game, "progress")
      case None => Failure("failed to decode progress JSON")
      case Some(p) => Success(p)
  }

  /** What the extractors read back is what a server puts in the body. */
  lemma ExtractorsRoundTrip(data: map<string, Json>, secret: string, progress: real)
    ensures ExtractSecret(data["secret" := JString(secret)]) == Success(secret)
    ensures ExtractPracticeProgress(data["game" := JObject(map["progress" := JNumber(progress)])]) == Success(progress)
  {
  }

  // ---------------------------------------------------------------------
  // ExtractQuestion

  /** An `a` element under `div.choices`: its `data-nonce` attribute, if
      present, and its text. */
  datatype Anchor = Anchor(nonce: Option<string>, text: string)

  /** The fragments ExtractQuestion selects from the decoded markup: the
      texts of the `div.sentence` elements of the first `div.questionContent`,
      the text of the first `div.instructions`, the text of the first
      `div.complete strong` ("" when absent) and the choice anchors, all in
      document order. */
  datatype Page = Page(sentences: seq<string>, instructions: string, completeStrong: string, anchors: seq<Anchor>)

  /** How ExtractQuestion ends: a question and the secret, a returned error,
      or a panic (a failed type assertion or the missing secret). */
  datatype Extraction = Extracted(question: Question, secret: string) | Failed(error: string) | Panicked(reason: string)

  /** goquery's Selection.Text(): the texts of all matched nodes, joined with
      nothing between them. */
  function Concat(ss: seq<string>): string {
    if ss == [] then "" else Concat(ss[..|ss| - 1]) + ss[|ss| - 1]
  }

  /** The choices kept from the anchors: those with a nonce, in order, with
      normalised text. */
  function ChoicesOf(anchors: seq<Anchor>): seq<QuestionChoices> {
    if anchors == [] then []
    else
      var a := anchors[|anchors| - 1];
      ChoicesOf(anchors[..|anchors| - 1])
      + (if a.nonce.Some? then [QuestionChoices(a.nonce.value, StripExtraWhiteSpace(a.text))] else [])
  }

  /** The key of the last choice whose text equals `answer`, if any. */
  function LastMatch(cs: seq<QuestionChoices>, answer: string): Option<string> {
    if cs == [] then None
    else if cs[|cs| - 1].value == answer then Some(cs[|cs| - 1].key)
    else LastMatch(cs[..|cs| - 1], answer)
  }

  /** The object the question is read from, and the name of its type field:
      the nested `question` object with `type`, else the body with `qtype`. */
  function QuestionSource(data: map<string, Json>): (map<string, Json>, string) {
    match ObjectAt(data, "question")
    case Some(q) => (q, "type")
    case None => (data, "qtype")
  }

  /** The question assembled from the decoded markup and its fragments. */
  function Assemble(qtype: string, code: string, difficulty: real, markup: string, page: Page): Question {
    var answer := if qtype == "T" then page.completeStrong else "";
    var choices := ChoicesOf(page.anchors);
    var m := LastMatch(choices, answer);
    Question(qtype, markup, code, difficulty,
             StripExtraWhiteSpace(Concat(page.sentences)), StripExtraWhiteSpace(page.instructions),
             answer, if m.Some? then m.value else answer, choices, m.Some?, "")
  }

  /** ExtractQuestion as a function of the body, the base64 decoder and the
      fragment selector. */
  function ExtractQuestionSpec(data: map<string, Json>, decode: string -> Option<string>, select: string -> Page): Extraction {
    match ExtractSecret(data)
    case Failure(e) => Panicked(e)
    case Success(secret) =>
      var (qdata, typeKey) := QuestionSource(data);
      match (StringAt(qdata, typeKey), StringAt(qdata, "code"), NumberAt(qdata, "difficulty"))
      case (None, _, _) => Panicked("interface conversion: question type is not a string")
      case (_, None, _) => Panicked("interface conversion: code is not a string")
      case (_, _, None) => Panicked("interface conversion: difficulty is not a float64")
      case (Some(qtype), Some(code), Some(difficulty)) =>
        match decode(code)
        case None => Failed("illegal base64 data")
        case Some(markup) => Extracted(Assemble(qtype, code, difficulty, markup, select(markup)), secret)
  }

  lemma ChoicesOfStep(anchors: seq<Anchor>, a: Anchor)
    ensures ChoicesOf(anchors + [a]) == ChoicesOf(anchors)
      + (if a.nonce.Some? then [QuestionChoices(a.nonce.value, StripExtraWhiteSpace(a.text))] else [])
  {
    assert (anchors + [a])[..|anchors|] == anchors;
  }

  /** ExtractQuestion (utils/utils.go): reads the secret, the type, code and
      difficulty (panicking when one is missing), decodes the code, then
      walks the choice anchors, appending each one with a nonce and
      reconciling the known answer with the matching choice's nonce. */
  method ExtractQuestion(data: map<string, Json>, decode: string -> Option<string>, select: string -> Page)
    returns (x: Extraction)
    ensures x == ExtractQuestionSpec(data, decode, select)
  {
    var question := ZeroQuestion;
    var secretResult := ExtractSecret(data);
    if secretResult.Failure? {
      return Panicked(secretResult.error);
    }
    var secret := secretResult.value;

    var questionData, typeKey := data, "qtype";
    var nested := ObjectAt(data, "question");
    if nested.Some? {
      questionData, typeKey := nested.value, "type";
    }
    var qtype := StringAt(questionData, typeKey);
    if qtype.None? {
      return Panicked("interface conversion: question type is not a string");
    }
    question := question.(questionType := qtype.value, isCorrect := false);
    var code := StringAt(questionData, "code");
    if code.None? {
      return Panicked("interface conversion: code is not a string");
    }
    question := question.(code := code.value);
    var difficulty := NumberAt(questionData, "difficulty");
    if difficulty.None? {
      return Panicked("interface conversion: difficulty is not a float64");
    }
    question := question.(difficulty := difficulty.value);

    var decoded := decode(question.code);
    if decoded.None? {
      return Failed("illegal base64 data");
    }
    question := question.(decodedCode := decoded.value);
    var page := select(question.decodedCode);

    question := question.(context := StripExtraWhiteSpace(Concat(page.sentences)),
                          prompt := StripExtraWhiteSpace(page.instructions));
    if question.questionType == "T" {
      question := question.(answer := page.completeStrong, answerKey := page.completeStrong);
    }

    var choices;
    question, choices := CollectChoices(question, page.anchors);
    question := question.(choices := choices);
    return Extracted(question, secret);
  }

  lemma LastMatchStep(cs: seq<QuestionChoices>, c: QuestionChoices, answer: string)
    ensures LastMatch(cs + [c], answer) == if c.value == answer then Some(c.key) else LastMatch(cs, answer)
  {
    assert (cs + [c])[..|cs|] == cs;
  }

  /** The `Each` callback of ExtractQuestion over the choice anchors: skips
      an anchor without `data-nonce`, otherwise normalises its text, marks
      the question correct with this nonce as answer key when the text equals
      the answer, and appends the choice. */
  method CollectChoices(question: Question, anchors: seq<Anchor>) returns (q: Question, choices: seq<QuestionChoices>)
    ensures choices == ChoicesOf(anchors)
    ensures var m := LastMatch(choices, question.answer);
      q == question.(isCorrect := m.Some? || question.isCorrect,
                     answerKey := if m.Some? then m.value else question.answerKey)
  {
    q, choices := question, [];
    for i := 0 to |anchors|
      invariant choices == ChoicesOf(anchors[..i])
      invariant var m := LastMatch(choices, question.answer);
        q == question.(isCorrect := m.Some? || question.isCorrect,
                       answerKey := if m.Some? then m.value else question.answerKey)
    {
      ChoicesOfStep(anchors[..i], anchors[i]);
      assert anchors[..i + 1] == anchors[..i] + [anchors[i]];
      var anchor := anchors[i];
      if anchor.nonce.Some? {
        var keyVal := anchor.nonce.value;
        var val := StripExtraWhiteSpace(anchor.text);
        LastMatchStep(choices, QuestionChoices(keyVal, val), question.answer);
        if val == q.answer {
          q := q.(isCorrect := true, answerKey := keyVal);
        }
        choices := choices + [QuestionChoices(keyVal, val)];
      }
    }
    assert anchors[..|anchors|] == anchors;
  }

  // ---------------------------------------------------------------------
  // Properties

  /** Anchors without a nonce are skipped; the others become choices in
      document order, with normalised text. */
  lemma {:induction false} ChoicesOfSpec(xs: seq<Anchor>, ys: seq<Anchor>)
    ensures ChoicesOf(xs + ys) == ChoicesOf(xs) + ChoicesOf(ys)
    ensures forall t :: ChoicesOf([Anchor(None, t)]) == []
    ensures forall n, t :: ChoicesOf([Anchor(Some(n), t)]) == [QuestionChoices(n, StripExtraWhiteSpace(t))]
    decreases |ys|
  {
    if ys != [] {
      var last := ys[|ys| - 1];
      assert (xs + ys)[..|xs + ys| - 1] == xs + ys[..|ys| - 1];
      ChoicesOfSpec(xs, ys[..|ys| - 1]);
    } else {
      assert xs + ys == xs;
    }
    forall t ensures ChoicesOf([Anchor(None, t)]) == [] {
      assert [Anchor(None, t)][..0] == [];
    }
    forall n, t ensures ChoicesOf([Anchor(Some(n), t)]) == [QuestionChoices(n, StripExtraWhiteSpace(t))] {
      assert [Anchor(Some(n), t)][..0] == [];
    }
  }

  /** LastMatch finds a choice with the answer's text exactly when there is
      one, and then the last one. */
  lemma {:induction false} LastMatchSpec(cs: seq<QuestionChoices>, answer: string)
    ensures LastMatch(cs, answer).Some? <==> exists i :: 0 <= i < |cs| && cs[i].value == answer
    ensures LastMatch(cs, answer).Some? ==>
      exists i :: 0 <= i < |cs| && cs[i].value == answer && cs[i].key == LastMatch(cs, answer).value
        && forall j :: i < j < |cs| ==> cs[j].value != answer
  {
    if cs != [] {
      var init := cs[..|cs| - 1];
      LastMatchSpec(init, answer);
      if cs[|cs| - 1].value != answer {
        if LastMatch(init, answer).Some? {
          var i :| 0 <= i < |init| && init[i].value == answer && init[i].key == LastMatch(init, answer).value
            && forall j :: i < j < |init| ==> init[j].value != answer;
          assert cs[i] == init[i];
        }
        forall i | 0 <= i < |cs| && cs[i].value == answer ensures LastMatch(init, answer).Some? {
          assert i < |init| && init[i] == cs[i];
        }
      } else {
        assert cs[|cs| - 1].value == answer;
      }
    }
  }

  /** How ExtractQuestion ends: it panics when the secret, the type (from
      the shape the body has), the code or the difficulty is missing; it
      returns an error when base64 decoding fails; otherwise it returns a
      question typed by `question.type` when a `question` object exists and
      by the top-level `qtype` otherwise, with the body's secret. */
  lemma ExtractQuestionOutcome(data: map<string, Json>, decode: string -> Option<string>, select: string -> Page)
    ensures var x := ExtractQuestionSpec(data, decode, select);
      var nested := "question" in data && data["question"].JObject?;
      var qdata := if nested then data["question"].fields else data;
      var typeKey := if nested then "type" else "qtype";
      var complete := StringAt(qdata, typeKey).Some? && StringAt(qdata, "code").Some? && NumberAt(qdata, "difficulty").Some?;
      && (x.Panicked? <==> ExtractSecret(data).Failure? || !complete)
      && (x.Failed? <==> ExtractSecret(data).Success? && complete && decode(StringAt(qdata, "code").value).None?)
      && (x.Extracted? ==>
            && complete
            && JString(x.secret) == data["secret"]
            && JString(x.question.questionType) == qdata[typeKey]
            && JString(x.question.code) == qdata["code"]
            && JNumber(x.question.difficulty) == qdata["difficulty"]
            && Some(x.question.decodedCode) == decode(x.question.code))
  {
  }

  /** A question ExtractQuestion returns: normalised context and prompt, the
      kept anchors as choices, no target word; for type "T" the answer is
      the raw `div.complete strong` text (for other types ""), IsCorrect
      holds exactly when some choice's text equals the answer, and then the
      answer key is the nonce of the last such choice (else the answer). */
  lemma AssembledQuestion(qtype: string, code: string, difficulty: real, markup: string, page: Page)
    ensures var q := Assemble(qtype, code, difficulty, markup, page);
      && q.questionType == qtype && q.code == code && q.difficulty == difficulty && q.decodedCode == markup
      && q.context == StripExtraWhiteSpace(Concat(page.sentences))
      && q.prompt == StripExtraWhiteSpace(page.instructions)
      && q.choices == ChoicesOf(page.anchors)
      && q.targetWord == ""
      && q.answer == (if qtype == "T" then page.completeStrong else "")
      && (q.isCorrect <==> exists i :: 0 <= i < |q.choices| && q.choices[i].value == q.answer)
      && (q.isCorrect ==>
            exists i :: 0 <= i < |q.choices| && q.choices[i].value == q.answer && q.choices[i].key == q.answerKey
              && forall j :: i < j < |q.choices| ==> q.choices[j].value != q.answer)
      && (!q.isCorrect ==> q.answerKey == q.answer)
  {
    var answer := if qtype == "T" then page.completeStrong else "";
    var choices := ChoicesOf(page.anchors);
    var m := LastMatch(choices, answer);
    var q := Assemble(qtype, code, difficulty, markup, page);
    assert q.answer == answer && q.choices == choices;
    assert q.isCorrect == m.Some?;
    assert q.answerKey == if m.Some? then m.value else answer;
    LastMatchSpec(choices, answer);
    if m.Some? {
      var i :| 0 <= i < |choices| && choices[i].value == answer && choices[i].key == m.value
        && forall j :: i < j < |choices| ==> choices[j].value != answer;
      assert q.choices[i].value == q.answer && q.choices[i].key == q.answerKey;
    }
  }

  /** Every question ExtractQuestion returns is assembled from the fragments
      of its own decoded markup. */
  lemma ExtractedIsAssembled(data: map<string, Json>, decode: string -> Option<string>, select: string -> Page)
    requires ExtractQuestionSpec(data, decode, select).Extracted?
    ensures var q := ExtractQuestionSpec(data, decode, select).question;
      q == Assemble(q.questionType, q.code, q.difficulty, q.decodedCode, select(q.decodedCode))
  {
    var (qdata, typeKey) := QuestionSource(data);
    var qtype, code, difficulty :=
      StringAt(qdata, typeKey).value, StringAt(qdata, "code").value, NumberAt(qdata, "difficulty").value;
    var markup := decode(code).value;
    var q := Assemble(qtype, code, difficulty, markup, select(markup));
    assert ExtractQuestionSpec(data, decode, select).question == q;
    assert q.questionType == qtype && q.code == code && q.difficulty == difficulty && q.decodedCode == markup;
  }

  /** For a type other than "T" the answer is "", so a choice whose text is
      blank (an image choice, say) marks the question correct. */
  lemma BlankChoiceMarksUntypedCorrect(data: map<string, Json>, decode: string -> Option<string>, select: string -> Page)
    requires ExtractQuestionSpec(data, decode, select).Extracted?
    requires ExtractQuestionSpec(data, decode, select).question.questionType != "T"
    ensures var q := ExtractQuestionSpec(data, decode, select).question;
      q.isCorrect <==> exists i :: 0 <= i < |q.choices| && q.choices[i].value == ""
  {
    var q := ExtractQuestionSpec(data, decode, select).question;
    ExtractedIsAssembled(data, decode, select);
    AssembledQuestion(q.questionType, q.code, q.difficulty, q.decodedCode, select(q.decodedCode));
  }
}
