/** The `question` table written by SaveQuestionToDB (application/app.go):
    an INSERT keyed by (question_type, question_context, question) whose ON
    CONFLICT clause updates only the answer columns, and only while the
    stored row is not marked correct. */
module Store {
  import opened Json
  import opened Vocab

  /** The table's uniqueness key. */
  datatype Key = Key(questionType: string, context: string, prompt: string)

  /** One row: the columns of the INSERT; `choices` is the marshalled list. */
  datatype Row = Row(
    questionType: string,
    prompt: string,
    context: string,
    code: string,
    html: string,
    answer: string,
    answerKey: string,
    difficulty: real,
    choices: Json,
    correct: bool,
    targetWord: string)

  type Table = map<Key, Row>

  function KeyOf(q: Question): Key {
    Key(q.questionType, q.context, q.prompt)
  }

  /** The key columns of a row. */
  function KeyOfRow(row: Row): Key {
    Key(row.questionType, row.context, row.prompt)
  }

  function RowOf(q: Question): Row {
    Row(q.questionType, q.prompt, q.context, q.code, q.decodedCode, q.answer, q.answerKey,
        q.difficulty, EncodeChoices(q.choices), q.isCorrect, q.targetWord)
  }

  /** The INSERT ... ON CONFLICT ... DO UPDATE ... WHERE question.correct = FALSE. */
  function Upsert(t: Table, q: Question): Table {
    var k := KeyOf(q);
    if k !in t then t[k := RowOf(q)]
    else if t[k].correct then t
    else t[k := t[k].(answer := q.answer, answerKey := q.answerKey, correct := q.isCorrect, targetWord := q.targetWord)]
  }

  /** Only the question's own key is touched: one row is added for a new
      key, none otherwise, and every row stays filed under its own key
      columns. */
  lemma UpsertFrame(t: Table, q: Question)
    requires forall k :: k in t ==> KeyOfRow(t[k]) == k
    ensures var r := Upsert(t, q);
      && r.Keys == t.Keys + {KeyOf(q)}
      && |r.Keys| == |t.Keys| + (if KeyOf(q) in t then 0 else 1)
      && (forall k :: k in t && k != KeyOf(q) ==> r[k] == t[k])
      && (forall k :: k in r ==> KeyOfRow(r[k]) == k)
  {
    var k := KeyOf(q);
    if k !in t {
      assert (t.Keys + {k}) - {k} == t.Keys;
    } else {
      assert t.Keys + {k} == t.Keys;
    }
  }

  /** A row already marked correct never changes. */
  lemma CorrectRowIsLocked(t: Table, q: Question)
    requires KeyOf(q) in t && t[KeyOf(q)].correct
    ensures Upsert(t, q) == t
  {
  }

  /** On conflict with a row not marked correct, exactly the answer, answer
      key, correct flag and target word are replaced; the type, texts, code,
      markup, difficulty and choices of the first insert stay. */
  lemma ConflictUpdatesAnswerColumns(t: Table, q: Question)
    requires KeyOf(q) in t && !t[KeyOf(q)].correct
    ensures var old_row, new_row := t[KeyOf(q)], Upsert(t, q)[KeyOf(q)];
      && new_row.answer == q.answer && new_row.answerKey == q.answerKey
      && new_row.correct == q.isCorrect && new_row.targetWord == q.targetWord
      && new_row.questionType == old_row.questionType && new_row.prompt == old_row.prompt
      && new_row.context == old_row.context && new_row.code == old_row.code
      && new_row.html == old_row.html && new_row.difficulty == old_row.difficulty
      && new_row.choices == old_row.choices
  {
  }

  /** Saving a question twice (once after decoding, once after answering)
      leaves one row for its key: the second call's answer columns over the
      first call's other columns, unless the first was already correct. */
  lemma SaveTwice(t: Table, q1: Question, q2: Question)
    requires KeyOf(q1) !in t && KeyOf(q2) == KeyOf(q1)
    ensures var r := Upsert(Upsert(t, q1), q2);
      && r.Keys == t.Keys + {KeyOf(q1)}
      && r[KeyOf(q1)] == if q1.isCorrect then RowOf(q1)
         else RowOf(q1).(answer := q2.answer, answerKey := q2.answerKey, correct := q2.isCorrect, targetWord := q2.targetWord)
  {
  }

  /** Upserting the same question again changes nothing. */
  lemma UpsertIdempotent(t: Table, q: Question)
    ensures Upsert(Upsert(t, q), q) == Upsert(t, q)
  {
    var k := KeyOf(q);
    var r := Upsert(t, q);
    if k in t && !t[k].correct {
      assert r[k].answer == q.answer && r[k].answerKey == q.answerKey && r[k].targetWord == q.targetWord;
      if !q.isCorrect {
        assert r[k].(answer := q.answer, answerKey := q.answerKey, correct := q.isCorrect, targetWord := q.targetWord) == r[k];
      }
    } else if k !in t && !q.isCorrect {
      assert r[k].(answer := q.answer, answerKey := q.answerKey, correct := q.isCorrect, targetWord := q.targetWord) == r[k];
    }
  }
}
