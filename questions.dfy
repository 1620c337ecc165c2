/** The `questions` table (backend/src/models/questionsModel.js): one row per
    quiz item, its id "Q01" … "Q30" and its three option letters "R,I,A". Every
    write validates the id and the options first; seeding upserts the rows of
    a category matrix one by one. */
module Questions {
  import opened Common
  import opened Text
  import opened Riasec
  import opened Validators
  import opened Store
  import opened Sorting
  import opened RiasecItems

  /** A row of `questions`. */
  datatype Question = Question(questionId: string, options: string)

  /** Every stored id is one of Q01 … Q30 and every options string is well shaped. */
  predicate QuestionsValid(questions: map<string, string>) {
    forall k :: k in questions ==> IsQuestionKey(k) && OptionsShaped(questions[k])
  }

  /** `assertQuestionId` then `assertOptionsString`, as every write does first. */
  function ValidateQuestion(questionId: string, options: Option<string>): (r: Result<Question>)
    ensures r.Ok? <==> AssertQuestionId(questionId).Ok? && AssertOptionsString(options).Ok?
    ensures r.Ok? ==> r.value == Question(ToUpper(Trim(questionId)), ToUpper(Trim(options.value)))
    ensures r.Ok? ==> IsQuestionKey(r.value.questionId) && OptionsShaped(r.value.options)
    ensures AssertQuestionId(questionId).Err? ==> r == Err(AssertQuestionId(questionId).msg)
  {
    var id :- AssertQuestionId(questionId);
    var options :- AssertOptionsString(options);
    Ok(Question(id, options))
  }

  /** A stored question passes validation unchanged. */
  lemma StoredQuestionRevalidates(id: string, options: string)
    requires IsQuestionKey(id) && OptionsShaped(options)
    ensures ValidateQuestion(id, Some(options)) == Ok(Question(id, options))
  {
    var n :| 1 <= n <= 30 && QuestionKey(n) == id;
    QuestionKeyAccepted(n);
    OptionsAccepted(options);
  }

  // ---------------------------------------------------------------- writes

  /** `createQuestion`: a plain `INSERT`, which fails on an id already present. */
  method CreateQuestion(db: Database, questionId: string, options: Option<string>) returns (r: Result<Question>)
    modifies db`questions
    ensures var v := ValidateQuestion(questionId, options);
            r.Ok? <==> v.Ok? && v.value.questionId !in old(db.questions)
    ensures ValidateQuestion(questionId, options).Err? ==> r == ValidateQuestion(questionId, options)
    ensures r.Ok? ==> r == ValidateQuestion(questionId, options)
                      && db.questions == old(db.questions)[r.value.questionId := r.value.options]
    ensures r.Err? ==> db.questions == old(db.questions)
    ensures QuestionsValid(old(db.questions)) ==> QuestionsValid(db.questions)
  {
    r := ValidateQuestion(questionId, options);
    if r.Ok? {
      if r.value.questionId in db.questions {
        r := Err("SQLITE_CONSTRAINT: UNIQUE constraint failed: questions.question_id");
      } else {
        db.questions := db.questions[r.value.questionId := r.value.options];
      }
    }
  }

  /** `upsertQuestion`: insert a new id or overwrite the options of an
      existing one; no other row changes. */
  method UpsertQuestion(db: Database, questionId: string, options: Option<string>) returns (r: Result<Question>)
    modifies db`questions
    ensures r == ValidateQuestion(questionId, options)
    ensures db.questions == if r.Ok? then old(db.questions)[r.value.questionId := r.value.options] else old(db.questions)
    ensures QuestionsValid(old(db.questions)) ==> QuestionsValid(db.questions)
  {
    r := ValidateQuestion(questionId, options);
    if r.Ok? {
      db.questions := db.questions[r.value.questionId := r.value.options];
    }
  }

  /** `getQuestionById`. */
  function GetQuestionById(questions: map<string, string>, questionId: string): (r: Result<Option<Question>>)
    ensures r.Ok? <==> AssertQuestionId(questionId).Ok?
    ensures r.Ok? && r.value.Some? ==> var id := ToUpper(Trim(questionId));
                                       id in questions && r.value.value == Question(id, questions[id])
    ensures r.Ok? && r.value.None? ==> ToUpper(Trim(questionId)) !in questions
  {
    var id :- AssertQuestionId(questionId);
    Ok(if id in questions then Some(Question(id, questions[id])) else None)
  }

  /** What an upsert wrote is what `getQuestionById` reads back, whatever the
      spelling of the id the caller used. */
  lemma UpsertThenGet(questions: map<string, string>, questionId: string, options: Option<string>)
    requires ValidateQuestion(questionId, options).Ok?
    ensures var q := ValidateQuestion(questionId, options).value;
            GetQuestionById(questions[q.questionId := q.options], questionId) == Ok(Some(q))
            && GetQuestionById(questions[q.questionId := q.options], q.questionId) == Ok(Some(q))
  {
    var q := ValidateQuestion(questionId, options).value;
    var n :| 1 <= n <= 30 && QuestionKey(n) == q.questionId;
    QuestionKeyAccepted(n);
  }

  /** `updateQuestionOptions`: only an existing id may be updated. */
  method UpdateQuestionOptions(db: Database, questionId: string, options: Option<string>) returns (r: Result<Question>)
    modifies db`questions
    ensures var v := ValidateQuestion(questionId, options);
            (v.Err? ==> r == v)
            && (v.Ok? && v.value.questionId !in old(db.questions) ==>
                  r == Err("Question " + v.value.questionId + " not found"))
            && (v.Ok? && v.value.questionId in old(db.questions) ==> r == v)
    ensures db.questions == if r.Ok? then old(db.questions)[r.value.questionId := r.value.options] else old(db.questions)
    ensures QuestionsValid(old(db.questions)) ==> QuestionsValid(db.questions)
  {
    r := ValidateQuestion(questionId, options);
    if r.Ok? {
      if r.value.questionId !in db.questions {
        r := Err("Question " + r.value.questionId + " not found");
      } else {
        db.questions := db.questions[r.value.questionId := r.value.options];
      }
    }
  }

  /** `deleteQuestion`: true exactly when a row was removed. */
  method DeleteQuestion(db: Database, questionId: string) returns (r: Result<bool>)
    modifies db`questions
    ensures r.Ok? <==> AssertQuestionId(questionId).Ok?
    ensures r.Ok? ==> var id := ToUpper(Trim(questionId));
                      r.value == (id in old(db.questions)) && db.questions == old(db.questions) - {id}
    ensures r.Err? ==> db.questions == old(db.questions)
    ensures QuestionsValid(old(db.questions)) ==> QuestionsValid(db.questions)
  {
    var id := AssertQuestionId(questionId);
    if id.Err? {
      return Err(id.msg);
    }
    r := Ok(id.value in db.questions);
    db.questions := db.questions - {id.value};
  }

  // ---------------------------------------------------------------- list

  /** `ORDER BY question_id ASC`. */
  predicate QuestionBefore(a: Question, b: Question) {
    StrLt(a.questionId, b.questionId)
  }

  lemma QuestionBeforeStrictOrder()
    ensures StrictOrder(QuestionBefore)
  {
    forall a: Question
      ensures !QuestionBefore(a, a)
    {
      StrLtIrreflexive(a.questionId);
    }
    forall a: Question, b: Question, c: Question | QuestionBefore(a, b) && QuestionBefore(b, c)
      ensures QuestionBefore(a, c)
    {
      StrLtTransitive(a.questionId, b.questionId, c.questionId);
    }
  }

  /** Questions the id order does not separate share their id, so the order
      is a strict weak order. */
  lemma QuestionBeforeWeakOrder()
    ensures StrictWeakOrder(QuestionBefore)
  {
    QuestionBeforeStrictOrder();
    forall a: Question, b: Question, c: Question
      | Incomparable(QuestionBefore, a, b) && Incomparable(QuestionBefore, b, c)
      ensures Incomparable(QuestionBefore, a, c)
    {
      StrLtTotal(a.questionId, b.questionId);
      StrLtTotal(b.questionId, c.questionId);
      StrLtIrreflexive(a.questionId);
    }
  }

  predicate Stored(questions: map<string, string>, q: Question) {
    q.questionId in questions && questions[q.questionId] == q.options
  }

  /** `listQuestions`: every stored question once, by id ascending. */
  method ListQuestions(db: Database) returns (qs: seq<Question>)
    ensures SortedBy(qs, QuestionBefore)
    ensures forall q :: q in qs <==> Stored(db.questions, q)
    ensures |qs| == |db.questions|
  {
    var found := CollectQuestions(db.questions);
    qs := SortBy(found, QuestionBefore);
    QuestionBeforeStrictOrder();
    SortBySorted(found, QuestionBefore);
    forall q
      ensures q in qs <==> q in found
    {
      assert q in multiset(qs) <==> q in multiset(found);
    }
  }

  /** The table scan: one question per key, in no particular order. */
  method CollectQuestions(questions: map<string, string>) returns (found: seq<Question>)
    ensures forall q :: q in found <==> Stored(questions, q)
    ensures |found| == |questions|
  {
    var remaining := questions.Keys;
    found := [];
    while remaining != {}
      invariant remaining <= questions.Keys
      invariant forall j :: 0 <= j < |found| ==>
                  Stored(questions, found[j]) && found[j].questionId !in remaining
      invariant forall k :: k in questions && k !in remaining ==> Question(k, questions[k]) in found
      invariant forall i, j :: 0 <= i < j < |found| ==> found[i].questionId != found[j].questionId
      invariant |found| + |remaining| == |questions|
      decreases |remaining|
    {
      var k :| k in remaining;
      found := found + [Question(k, questions[k])];
      remaining := remaining - {k};
    }
  }

  // ---------------------------------------------------------------- seeding

  /** The options text of a matrix row: `String(item || '').trim().toUpperCase()`
      of each cell, joined by commas. A cell is given as its string form. */
  function RowOptions(row: seq<string>): string {
    Join(seq(|row|, j requires 0 <= j < |row| => ToUpper(Trim(row[j]))), ',')
  }

  /** The id the loop gives row `i`: `Q${String(i + 1).padStart(2, '0')}`. */
  function RowKey(i: nat): (key: string)
    ensures key == QuestionKey(i + 1)
  {
    QuestionKey(i + 1)
  }

  /** What the loop makes of row `i` (None when it is not an array): the
      row must have three cells, then its id and options are validated as
      `upsertQuestion` does. */
  function CheckRow(row: Option<seq<string>>, i: nat): (r: Result<Question>)
    ensures row.None? || |row.value| != 3 ==> r == Err("Invalid CATEGORY_MATRIX row at index " + NatToString(i))
    ensures r.Ok? <==> row.Some? && |row.value| == 3 && i < 30
                       && AssertOptionsString(Some(RowOptions(row.value))).Ok?
    ensures r.Ok? ==> r.value == Question(RowKey(i), AssertOptionsString(Some(RowOptions(row.value))).value)
  {
    if row.None? || |row.value| != 3 then Err("Invalid CATEGORY_MATRIX row at index " + NatToString(i))
    else
      AcceptedKeyFixed(i + 1);
      KeyNormal(i + 1);
      ValidateQuestion(RowKey(i), Some(RowOptions(row.value)))
  }

  /** The check of every row, by index. */
  function CheckRows(rows: seq<Option<seq<string>>>): (cs: seq<Result<Question>>)
    ensures |cs| == |rows| && forall i :: 0 <= i < |rows| ==> cs[i] == CheckRow(rows[i], i)
  {
    seq(|rows|, i requires 0 <= i < |rows| => CheckRow(rows[i], i))
  }

  /** Where seeding stands: the first error met, if any, and the table. */
  datatype SeedState = SeedState(error: Option<string>, questions: map<string, string>)

  /** The state after the loop has handled the first `n` checked rows,
      stopping at the first error; each accepted row is upserted. */
  function SeedPrefix(questions: map<string, string>, cs: seq<Result<Question>>, n: nat): (s: SeedState)
    requires n <= |cs|
  {
    if n == 0 then SeedState(None, questions)
    else
      var s := SeedPrefix(questions, cs, n - 1);
      if s.error.Some? then s
      else if cs[n - 1].Err? then SeedState(Some(cs[n - 1].msg), s.questions)
      else SeedState(None, s.questions[cs[n - 1].value.questionId := cs[n - 1].value.options])
  }

  /** A question key is its own normal form. */
  lemma KeyNormal(m: nat)
    ensures ToUpper(Trim(QuestionKey(m))) == QuestionKey(m)
  {
    var k := QuestionKey(m);
    assert IsTrimmed(k);
    NormalizedFixed(k);
  }

  /** The key of a row number is accepted exactly for the numbers 1 … 30,
      and then as it is. */
  lemma AcceptedKeyFixed(m: nat)
    ensures AssertQuestionId(QuestionKey(m)).Ok? <==> 1 <= m <= 30
    ensures AssertQuestionId(QuestionKey(m)).Ok? ==> AssertQuestionId(QuestionKey(m)).value == QuestionKey(m)
  {
    KeyNormal(m);
    if AssertQuestionId(QuestionKey(m)).Ok? {
      var n :| 1 <= n <= 30 && QuestionKey(n) == QuestionKey(m);
      QuestionKeyInjective(m, n);
    } else if 1 <= m <= 30 {
      QuestionKeyAccepted(m);
    }
  }

  /** `seedQuestionsFromCategoryMatrix`: reject a missing or empty matrix,
      upsert row by row (an error leaves the rows before it written), and
      list the table at the end. */
  method SeedQuestionsFromCategoryMatrix(db: Database, matrix: Option<seq<Option<seq<string>>>>)
    returns (r: Result<seq<Question>>)
    modifies db`questions
    ensures matrix.None? || |matrix.value| == 0 ==>
              r == Err("categoryMatrix must be a non-empty array") && db.questions == old(db.questions)
    ensures matrix.Some? && |matrix.value| > 0 ==>
              var s := SeedPrefix(old(db.questions), CheckRows(matrix.value), |matrix.value|);
              db.questions == s.questions
              && (s.error.Some? ==> r == Err(s.error.value))
              && (s.error.None? ==> r.Ok? && SortedBy(r.value, QuestionBefore)
                                    && forall q :: q in r.value <==> Stored(db.questions, q))
  {
    if matrix.None? || |matrix.value| == 0 {
      return Err("categoryMatrix must be a non-empty array");
    }
    var rows := matrix.value;
    ghost var cs := CheckRows(rows);
    var i := 0;
    while i < |rows|
      invariant 0 <= i <= |rows|
      invariant SeedPrefix(old(db.questions), cs, i) == SeedState(None, db.questions)
    {
      var row := rows[i];
      if row.None? || |row.value| != 3 {
        assert cs[i] == CheckRow(row, i);
        SeedStops(old(db.questions), cs, i, |rows|);
        return Err("Invalid CATEGORY_MATRIX row at index " + NatToString(i));
      }
      var upserted := UpsertQuestion(db, RowKey(i), Some(RowOptions(row.value)));
      assert cs[i] == CheckRow(row, i) == upserted;
      if upserted.Err? {
        SeedStops(old(db.questions), cs, i, |rows|);
        return Err(upserted.msg);
      }
      i := i + 1;
    }
    var listed := ListQuestions(db);
    r := Ok(listed);
  }

  /** Once a row fails, the outcome is that row's error and the table as the
      earlier rows left it. */
  lemma {:induction false} SeedStops(questions: map<string, string>, cs: seq<Result<Question>>, i: nat, n: nat)
    requires i < n <= |cs|
    requires SeedPrefix(questions, cs, i).error.None?
    requires cs[i].Err?
    ensures SeedPrefix(questions, cs, n) == SeedState(Some(cs[i].msg), SeedPrefix(questions, cs, i).questions)
    decreases n
  {
    if n > i + 1 {
      SeedStops(questions, cs, i, n - 1);
    }
  }

  /** The ids of rows `0 .. n-1`. */
  function RowKeys(n: nat): set<string> {
    set k | 0 <= k < n :: RowKey(k)
  }

  /** Checked rows whose accepted questions carry their row's id. */
  predicate KeyedByRow(cs: seq<Result<Question>>) {
    forall k :: 0 <= k < |cs| && cs[k].Ok? ==> cs[k].value.questionId == RowKey(k)
  }

  /** After the first `n` checked rows without error, every one of them
      passed and is stored under its id, and every other id keeps its old
      options. */
  lemma {:induction false} SeedStoresChecked(questions: map<string, string>, cs: seq<Result<Question>>, n: nat)
    requires n <= |cs| && KeyedByRow(cs)
    requires SeedPrefix(questions, cs, n).error.None?
    ensures var t := SeedPrefix(questions, cs, n).questions;
            (forall k :: 0 <= k < n ==> cs[k].Ok? && RowKey(k) in t && t[RowKey(k)] == cs[k].value.options)
            && (forall id :: id in questions && id !in RowKeys(n) ==> id in t && t[id] == questions[id])
            && t.Keys == questions.Keys + RowKeys(n)
    decreases n
  {
    if n > 0 {
      SeedStoresChecked(questions, cs, n - 1);
      var before := SeedPrefix(questions, cs, n - 1).questions;
      var t := SeedPrefix(questions, cs, n).questions;
      assert cs[n - 1].Ok? && t == before[RowKey(n - 1) := cs[n - 1].value.options];
      forall k | 0 <= k < n
        ensures cs[k].Ok? && RowKey(k) in t && t[RowKey(k)] == cs[k].value.options
      {
        if k < n - 1 && RowKey(k) == RowKey(n - 1) {
          QuestionKeyInjective(k + 1, n);
        }
      }
      assert RowKeys(n) == RowKeys(n - 1) + {RowKey(n - 1)};
    }
  }

  /** The checked rows of any matrix are keyed by row. */
  lemma CheckRowsKeyed(rows: seq<Option<seq<string>>>)
    ensures KeyedByRow(CheckRows(rows))
  {
  }

  /** A seeding without error had at most 30 rows, each with three cells
      whose options text is well shaped; it stored the normalised text of
      row `k` under its id and left every other id as it was. */
  lemma SeedStoresRows(questions: map<string, string>, rows: seq<Option<seq<string>>>)
    requires SeedPrefix(questions, CheckRows(rows), |rows|).error.None?
    ensures |rows| <= 30
    ensures var t := SeedPrefix(questions, CheckRows(rows), |rows|).questions;
            (forall k :: 0 <= k < |rows| ==>
               rows[k].Some? && |rows[k].value| == 3 && RowKey(k) in t
               && AssertOptionsString(Some(RowOptions(rows[k].value))).Ok?
               && t[RowKey(k)] == AssertOptionsString(Some(RowOptions(rows[k].value))).value)
            && (forall id :: id in questions && id !in RowKeys(|rows|) ==> id in t && t[id] == questions[id])
            && t.Keys == questions.Keys + RowKeys(|rows|)
  {
    var cs := CheckRows(rows);
    var t := SeedPrefix(questions, cs, |rows|).questions;
    CheckRowsKeyed(rows);
    SeedStoresChecked(questions, cs, |rows|);
    forall k | 0 <= k < |rows|
      ensures rows[k].Some? && |rows[k].value| == 3 && k < 30 && RowKey(k) in t
              && AssertOptionsString(Some(RowOptions(rows[k].value))).Ok?
              && t[RowKey(k)] == AssertOptionsString(Some(RowOptions(rows[k].value))).value
    {
      assert cs[k] == CheckRow(rows[k], k) && cs[k].Ok?;
    }
    if |rows| > 0 {
      assert |rows| - 1 < 30;
    }
  }

  // ---------------------------------------------------------------- the shipped matrix

  /** A matrix as the seeding loop receives it: every row is an array. */
  function AsRows(m: seq<seq<string>>): (rows: seq<Option<seq<string>>>)
    ensures |rows| == |m| && forall k :: 0 <= k < |m| ==> rows[k] == Some(m[k])
  {
    seq(|m|, k requires 0 <= k < |m| => Some(m[k]))
  }

  /** The options text of a well-formed row is its three letters joined by commas. */
  lemma RowOptionsShaped(row: seq<string>)
    requires WellFormedRow(row)
    ensures RowOptions(row) == [row[0][0], ',', row[1][0], ',', row[2][0]]
    ensures OptionsShaped(RowOptions(row))
  {
    var cells := seq(|row|, j requires 0 <= j < |row| => ToUpper(Trim(row[j])));
    forall j | 0 <= j < 3
      ensures cells[j] == row[j]
    {
      NormalizedFixed(row[j]);
    }
    assert cells == row;
    JoinThree(cells);
  }

  /** Seeding the shipped CATEGORY_MATRIX succeeds and stores Q01 … Q30. */
  lemma SeedCategoryMatrix(questions: map<string, string>)
    ensures var s := SeedPrefix(questions, CheckRows(AsRows(CategoryMatrix)), ItemCount);
            s.error.None?
            && forall k :: 0 <= k < ItemCount ==>
                 RowKey(k) in s.questions
                 && s.questions[RowKey(k)] == [Code(k, 0), ',', Code(k, 1), ',', Code(k, 2)]
  {
    MatrixWellFormed();
    var rows := AsRows(CategoryMatrix);
    SeedWellFormed(questions, rows, ItemCount);
    SeedStoresRows(questions, rows);
    forall k | 0 <= k < ItemCount
      ensures AssertOptionsString(Some(RowOptions(rows[k].value))).value == [Code(k, 0), ',', Code(k, 1), ',', Code(k, 2)]
    {
      RowOptionsShaped(CategoryMatrix[k]);
      OptionsAccepted(RowOptions(CategoryMatrix[k]));
    }
  }

  /** Up to 30 rows that are all well formed seed without error. */
  lemma {:induction false} SeedWellFormed(questions: map<string, string>, rows: seq<Option<seq<string>>>, n: nat)
    requires n <= |rows| && n <= 30
    requires forall k :: 0 <= k < n ==> rows[k].Some? && WellFormedRow(rows[k].value)
    ensures SeedPrefix(questions, CheckRows(rows), n).error.None?
    decreases n
  {
    if n > 0 {
      SeedWellFormed(questions, rows, n - 1);
      RowOptionsShaped(rows[n - 1].value);
      OptionsAccepted(RowOptions(rows[n - 1].value));
      assert CheckRows(rows)[n - 1] == CheckRow(rows[n - 1], n - 1);
    }
  }
}
