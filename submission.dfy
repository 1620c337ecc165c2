/** The quiz submission pipeline (backend/src/services/quizPersistenceService.js):
    a run-once gate, 30 response rows built from a loosely keyed answer map,
    scores recounted from the stored rows, a 6-letter profile, the ten best
    majors, and the user record brought up to date, all in one transaction. */
module Submission {
  import opened Common
  import opened Text
  import opened Riasec
  import opened Validators
  import opened Store
  import opened RiasecItems
  import opened Responses
  import opened Users
  import opened Questions
  import opened Majors
  import opened Sorting

  // ---------------------------------------------------------------- small helpers

  /** `toUpperLetter`: the trimmed, upper-cased value when it is one of the
      six letters, else "". */
  function ToUpperLetter(value: string): (letter: string)
    ensures letter == [] || (|letter| == 1 && IsRiasec(letter[0]))
    ensures letter != [] <==> |ToUpper(Trim(value))| == 1 && IsRiasec(ToUpper(Trim(value))[0])
    ensures letter != [] ==> letter == ToUpper(Trim(value))
  {
    var letter := ToUpper(Trim(value));
    if |letter| == 1 && IsRiasec(letter[0]) then letter else []
  }

  /** A letter, in either case, is read as its upper-case self. */
  lemma UpperLetterOfChar(c: char)
    requires IsRiasec(UpperChar(c))
    ensures ToUpperLetter([c]) == [UpperChar(c)]
  {
    assert !IsSpace(c);
    assert IsTrimmed([c]);
    TrimmedFixed([c]);
  }

  /** `extractPositionFromOptionId`: the last character of the trimmed,
      lower-cased id picks the position: a, b, c give 1, 2, 3. */
  function ExtractPosition(optionId: string): (r: Result<nat>)
    ensures r.Ok? <==> Trim(optionId) != [] && LowerChar(Trim(optionId)[|Trim(optionId)| - 1]) in "abc"
    ensures r.Ok? ==> 1 <= r.value <= 3 && "abc"[r.value - 1] == LowerChar(Trim(optionId)[|Trim(optionId)| - 1])
    ensures r.Err? ==> r == Err("Invalid option id: " + optionId)
  {
    var normalized := ToLower(Trim(optionId));
    if normalized == [] then Err("Invalid option id: " + optionId)
    else
      var suffix := normalized[|normalized| - 1];
      if suffix == 'a' then Ok(1)
      else if suffix == 'b' then Ok(2)
      else if suffix == 'c' then Ok(3)
      else Err("Invalid option id: " + optionId)
  }

  /** The option ids the catalog hands out are read back as their positions. */
  lemma ExtractOptionId(itemId: nat, j: nat)
    requires j < 3
    ensures ExtractPosition(OptionId(itemId, j)) == Ok(j + 1)
  {
    var id := OptionId(itemId, j);
    assert IsTrimmed(id) by {
      assert IsAsciiDigit(id[0]);
    }
    TrimmedFixed(id);
  }

  /** `getAnswerForQuestion`: the answer under the item's number, else under
      its `Q`+two-digit key (a JavaScript object reads `answers[1]` and
      `answers["1"]` as one property; a null entry counts as absent). */
  function AnswerFor(answers: map<string, string>, n: nat): (a: Option<string>)
    ensures a.Some? <==> NatToString(n) in answers || QuestionKey(n) in answers
    ensures NatToString(n) in answers ==> a == Some(answers[NatToString(n)])
    ensures NatToString(n) !in answers && QuestionKey(n) in answers ==> a == Some(answers[QuestionKey(n)])
  {
    if NatToString(n) in answers then Some(answers[NatToString(n)])
    else if QuestionKey(n) in answers then Some(answers[QuestionKey(n)])
    else None
  }

  /** An empty answer or "pass" in any case skips the item. */
  function Skipped(optionId: string): (r: bool)
    ensures r ==> |optionId| == 0 || |optionId| == 4
  {
    optionId == [] || ToLower(optionId) == "pass"
  }

  /** The position the loop picks for item `n`: 1 for a skipped item, else
      the answer must start with the item's number and end in a, b or c. */
  function AnswerPosition(answers: map<string, string>, n: nat): (r: Result<nat>)
    ensures r.Ok? ==> 1 <= r.value <= 3
    ensures var a := AnswerFor(answers, n);
            (a.None? || Skipped(a.value) ==> r == Ok(1))
            && (a.Some? && !Skipped(a.value) ==>
                  (!StartsWith(a.value, NatToString(n)) ==>
                     r == Err("Answer option id " + a.value + " does not belong to " + QuestionKey(n)))
                  && (StartsWith(a.value, NatToString(n)) ==> r == ExtractPosition(a.value)))
  {
    var answer := AnswerFor(answers, n);
    var optionId := if answer.None? then [] else answer.value;
    if Skipped(optionId) then Ok(1)
    else if !StartsWith(optionId, NatToString(n)) then
      Err("Answer option id " + optionId + " does not belong to " + QuestionKey(n))
    else ExtractPosition(optionId)
  }

  /** Answering with a catalog option id picks that option. */
  lemma AnswerOptionId(answers: map<string, string>, n: nat, j: nat)
    requires j < 3 && AnswerFor(answers, n) == Some(OptionId(n, j))
    ensures AnswerPosition(answers, n) == Ok(j + 1)
  {
    ExtractOptionId(n, j);
    var id := OptionId(n, j);
    assert ToLower(id)[0] != 'p';
  }

  /** The item-number test only looks at the prefix, so "12b" is accepted as
      an answer to item 1 (and picks option b). */
  lemma PrefixOnly()
    ensures AnswerPosition(map["1" := "12b"], 1) == Ok(2)
  {
    var id := "12b";
    assert NatToString(1) == "1";
    assert IsTrimmed(id);
    TrimmedFixed(id);
    assert ToLower(id) != "pass" by {
      assert ToLower(id)[0] == '1';
    }
  }

  /** An answer under another item's number is refused. */
  lemma ForeignAnswerRefused()
    ensures AnswerPosition(map["1" := "2a"], 1).Err?
  {
    assert NatToString(1) == "1";
    assert !StartsWith("2a", "1") by {
      assert "2a"[..1] == "2";
    }
    assert ToLower("2a") != "pass" by {
      assert ToLower("2a")[0] == '2';
    }
  }

  /** `getResponseTime`, in hundredths: the time under the item's number,
      else under its `Q` key; 0 when there is no time object, no entry, or
      the entry is not a finite non-negative number, else the number rounded
      to hundredths. There is no upper bound. */
  function ResponseHundredths(times: Option<map<string, Raw<real>>>, n: nat): (h: nat)
    ensures h > 0 ==> times.Some? && exists key :: key in times.value && times.value[key].Parsed().Some? && times.value[key].Parsed().value > 0.0
  {
    if times.None? then 0
    else
      var m := times.value;
      var candidate :=
        if NatToString(n) in m && !m[NatToString(n)].Missing? then m[NatToString(n)]
        else if QuestionKey(n) in m then m[QuestionKey(n)]
        else Missing;
      var parsed := candidate.Parsed();
      if parsed.None? || parsed.value < 0.0 then 0
      else Hundredths(parsed.value)
  }

  /** `getResponseTime` in seconds, as the response row receives it. */
  function ResponseTime(times: Option<map<string, Raw<real>>>, n: nat): (t: real)
    ensures t >= 0.0
  {
    ResponseHundredths(times, n) as real / 100.0
  }

  /** A time is kept to hundredths and never clamped: 700.5 seconds stays
      700.5 (and the response validator refuses it later). */
  lemma ResponseTimeUnclamped()
    ensures ResponseTime(Some(map["1" := Given(Some(700.5))]), 1) == 700.5
    ensures ResponseHundredths(Some(map["1" := Given(Some(700.5))]), 1) > 60000
  {
    assert NatToString(1) == "1";
    assert Hundredths(700.5) == 70050;
  }

  /** A time already at hundredths is kept as it is. */
  lemma ResponseTimeKeepsHundredths(times: map<string, Raw<real>>, n: nat, h: nat)
    requires NatToString(n) in times && times[NatToString(n)] == Given(Some(h as real / 100.0))
    ensures ResponseHundredths(Some(times), n) == h
  {
    assert Hundredths(h as real / 100.0) == h;
  }

  /** `ensureScoreRecordTotalThirty`. */
  function EnsureTotalThirty(scores: ScoreRecord): (r: Result<ScoreRecord>)
    ensures r.Ok? <==> scores.Total() == 30
    ensures r.Ok? ==> r.value == scores
    ensures r.Err? ==> r == Err("computed scores sum must equal 30, received " + NatToString(scores.Total()))
  {
    var total := scores.Total();
    if total != 30 then Err("computed scores sum must equal 30, received " + NatToString(total))
    else Ok(scores)
  }

  /** `buildProfileFromScores`: the six letters by count, highest first,
      ties in alphabetical order. */
  function BuildProfile(scores: ScoreRecord): (profile: string)
    ensures IsProfile(profile)
    ensures Sorted(scores, Alphabetical, profile)
  {
    RankLettersIsProfile(scores, Alphabetical);
    RankLetters(scores, Alphabetical)
  }

  /** The profile is the only ordering of the six letters by count with
      alphabetical ties, and its counts never increase along it. */
  lemma BuildProfileOrdered(scores: ScoreRecord, p: string)
    ensures forall i, j :: 0 <= i < j < 6 ==> scores.Get(BuildProfile(scores)[i]) >= scores.Get(BuildProfile(scores)[j])
    ensures Sorted(scores, Alphabetical, p) && multiset(p) == multiset(Letters) ==> p == BuildProfile(scores)
  {
    forall i, j | 0 <= i < j < 6
      ensures scores.Get(BuildProfile(scores)[i]) >= scores.Get(BuildProfile(scores)[j])
    {
      RankLettersNonIncreasing(scores, Alphabetical, i, j);
    }
    if Sorted(scores, Alphabetical, p) && multiset(p) == multiset(Letters) {
      RankLettersUnique(scores, Alphabetical, p);
    }
  }

  /** "RACEIS" reorders "RIASEC". */
  lemma RaceisReorders()
    ensures multiset("RACEIS") == multiset(Letters)
  {
  }

  /** "ACEIRS" reorders "RIASEC". */
  lemma AceirsReorders()
    ensures multiset("ACEIRS") == multiset(Letters)
  {
  }

  /** Thirty answers for R give "RACEIS": R first, the rest alphabetically. */
  lemma AllRealisticProfile()
    ensures BuildProfile(ScoreRecord(30, 0, 0, 0, 0, 0)) == "RACEIS"
  {
    var sc := ScoreRecord(30, 0, 0, 0, 0, 0);
    var p := "RACEIS";
    assert Sorted(sc, Alphabetical, p) by {
      assert p[0] == 'R' && p[1] == 'A' && p[2] == 'C' && p[3] == 'E' && p[4] == 'I' && p[5] == 'S';
      ChainSorted(sc, Alphabetical, p);
    }
    RaceisReorders();
    RankLettersUnique(sc, Alphabetical, p);
  }

  /** With all counts equal the profile is alphabetical. */
  lemma EvenProfile()
    ensures BuildProfile(ScoreRecord(5, 5, 5, 5, 5, 5)) == "ACEIRS"
  {
    var sc := ScoreRecord(5, 5, 5, 5, 5, 5);
    var p := "ACEIRS";
    assert Sorted(sc, Alphabetical, p) by {
      assert p[0] == 'A' && p[1] == 'C' && p[2] == 'E' && p[3] == 'I' && p[4] == 'R' && p[5] == 'S';
      ChainSorted(sc, Alphabetical, p);
    }
    AceirsReorders();
    RankLettersUnique(sc, Alphabetical, p);
  }

  /** `toOptionalText`: null or blank gives null, else the trimmed text cut
      to `maxLength` characters. */
  function ToOptionalText(value: Option<string>, maxLength: nat): (r: Option<string>)
    ensures r.Some? <==> value.Some? && Trim(value.value) != []
    ensures r.Some? ==> |r.value| == Min(maxLength, |Trim(value.value)|)
                        && r.value == Trim(value.value)[..|r.value|]
  {
    if value.None? then None
    else
      var normalized := Trim(value.value);
      if normalized == [] then None
      else Some(normalized[..Min(maxLength, |normalized|)])
  }

  function Min(a: nat, b: nat): nat {
    if a <= b then a else b
  }

  /** Cutting can leave a trailing space, so the text is trimmed again by
      the validators it is handed to: "ab cd" cut to 3 is "ab ". */
  lemma OptionalTextCutLeavesSpace()
    ensures ToOptionalText(Some("ab cd"), 3) == Some("ab ")
  {
    assert IsTrimmed("ab cd");
    TrimmedFixed("ab cd");
    assert "ab cd"[..3] == "ab ";
  }

  // ---------------------------------------------------------------- the 30 response rows

  /** The options text of item `k + 1`: its three letters, comma-separated. */
  function ItemOptions(k: nat): (options: string)
    requires k < ItemCount
    ensures OptionsShaped(options)
  {
    MatrixWellFormed();
    [Code(k, 0), ',', Code(k, 1), ',', Code(k, 2)]
  }

  /** `getQuestionOptionRows`: the id and options text of each matrix row
      (that these options are the row's cells trimmed, upper-cased and
      joined by commas is `RowOptionsOfMatrix`). */
  function QuestionOptionRows(): (rows: seq<Question>)
    ensures |rows| == ItemCount
    ensures forall k :: 0 <= k < ItemCount ==> OptionsShaped(rows[k].options)
  {
    seq(ItemCount, k requires 0 <= k < ItemCount => Question(RowKey(k), ItemOptions(k)))
  }

  /** The options text of each item is its matrix row with every cell
      trimmed and upper-cased, joined by commas. */
  lemma RowOptionsOfMatrix()
    ensures forall k :: 0 <= k < ItemCount ==> RowOptions(CategoryMatrix[k]) == ItemOptions(k)
  {
    MatrixWellFormed();
    forall k | 0 <= k < ItemCount
      ensures RowOptions(CategoryMatrix[k]) == ItemOptions(k)
    {
      RowOptionsShaped(CategoryMatrix[k]);
    }
  }

  /** The body of the row loop for item `n`: the chosen position, then the
      payload built for that position. */
  function RowFor(uid: string, answers: map<string, string>, times: Option<map<string, Raw<real>>>,
                  n: nat, question: Question): (r: Result<ResponsePayload>)
  {
    var position :- AnswerPosition(answers, n);
    ChosenRow(uid, question.questionId, question.options, position, ResponseTime(times, n))
  }

  /** The letter at `position` of the comma-separated options, or "" when
      there is none: on well-shaped options, the letter at that position. */
  function ChosenCode(options: string, position: nat): (code: string)
    ensures OptionsShaped(options) && 1 <= position <= 3 ==> code == OptionAt(options, position)
  {
    var choices := Split(options, ',');
    SplitShaped(options);
    ShapedChoice(options, position);
    ToUpperLetter(if 1 <= position <= |choices| then choices[position - 1] else [])
  }

  lemma ShapedChoice(options: string, position: nat)
    ensures OptionsShaped(options) && 1 <= position <= 3 ==>
              ToUpperLetter([options[2 * (position - 1)]]) == OptionAt(options, position)
  {
    if OptionsShaped(options) && 1 <= position <= 3 {
      UpperLetterOfChar(options[2 * (position - 1)]);
    }
  }

  /** The rest of the loop body once the position is known: the letter at
      that position, and the payload handed to the bulk insert. */
  function ChosenRow(uid: string, questionId: string, options: string, position: nat, time: real)
    : (r: Result<ResponsePayload>)
  {
    var chosenCode := ChosenCode(options, position);
    if chosenCode == [] then Err("Invalid chosen code for " + questionId)
    else
      Ok(ResponsePayload(uid + "_" + questionId, uid, questionId, Some(options),
                         chosenCode, Given(Some(position)), Given(Some(time))))
  }

  /** The response row that answers `question` with option `position`. */
  function ExpectedRow(uid: string, question: Question, position: int, h: nat, now: nat): ResponseRow
    requires OptionsShaped(question.options) && 1 <= position <= 3
  {
    ResponseRow(uid + "_" + question.questionId, uid, question.questionId, question.options,
                OptionAt(question.options, position), position, h, now)
  }

  /** A row is built exactly when the answer gives a position, the error of
      the answer is the error of the row, and the row built is the payload of
      the expected row for that position and the rounded time. */
  lemma RowForShape(uid: string, answers: map<string, string>, times: Option<map<string, Raw<real>>>,
                    n: nat, question: Question)
    requires OptionsShaped(question.options)
    ensures RowFor(uid, answers, times, n, question).Ok? <==> AnswerPosition(answers, n).Ok?
    ensures RowFor(uid, answers, times, n, question).Err? ==>
              RowFor(uid, answers, times, n, question) == Err(AnswerPosition(answers, n).msg)
    ensures RowFor(uid, answers, times, n, question).Ok? ==>
              RowFor(uid, answers, times, n, question).value
                == PayloadOf(ExpectedRow(uid, question, AnswerPosition(answers, n).value, ResponseHundredths(times, n), 0))
  {
    var position := AnswerPosition(answers, n);
    if position.Ok? {
      RowForPosition(uid, answers, times, n, question, position.value);
    }
  }

  /** Once the answer gives a position, the row is the expected one. */
  lemma RowForPosition(uid: string, answers: map<string, string>, times: Option<map<string, Raw<real>>>,
                       n: nat, question: Question, position: nat)
    requires OptionsShaped(question.options) && AnswerPosition(answers, n) == Ok(position)
    ensures RowFor(uid, answers, times, n, question)
              == Ok(PayloadOf(ExpectedRow(uid, question, position, ResponseHundredths(times, n), 0)))
  {
    assert RowFor(uid, answers, times, n, question)
             == ChosenRow(uid, question.questionId, question.options, position, ResponseTime(times, n));
    ChosenRowExpected(uid, question, position, ResponseHundredths(times, n), ResponseTime(times, n));
  }

  /** With a position from 1 to 3, the loop body yields the payload of the
      expected row. */
  lemma ChosenRowExpected(uid: string, question: Question, position: nat, h: nat, time: real)
    requires OptionsShaped(question.options) && 1 <= position <= 3 && time == h as real / 100.0
    ensures ChosenRow(uid, question.questionId, question.options, position, time)
              == Ok(PayloadOf(ExpectedRow(uid, question, position, h, 0)))
  {
    assert ChosenCode(question.options, position) == OptionAt(question.options, position);
  }

  /** The expected row passes the response validator exactly when its time
      is at most 600 seconds, and then it is stored as it is. */
  lemma ExpectedRowRevalidates(uid: string, k: nat, position: int, h: nat, now: nat)
    requires IsId(uid) && k < ItemCount && 1 <= position <= 3
    ensures var row := ExpectedRow(uid, QuestionOptionRows()[k], position, h, now);
            (ValidateResponsePayload(PayloadOf(row)).Ok? <==> h <= 60000)
            && (h <= 60000 ==> ResponseRowValid(row)
                               && ToRow(ValidateResponsePayload(PayloadOf(row)).value, now) == row)
  {
    var row := ExpectedRow(uid, QuestionOptionRows()[k], position, h, now);
    assert row.questionId == RowKey(k);
    assert IsId(row.responseId) by {
      assert row.responseId[0] == uid[0];
      assert row.responseId[|row.responseId| - 1] == RowKey(k)[|RowKey(k)| - 1];
      assert IsAsciiDigit(RowKey(k)[|RowKey(k)| - 1]);
    }
    assert IsQuestionKey(row.questionId);
    assert OptionsShaped(row.options);
    if h <= 60000 {
      assert ResponseRowValid(row);
      RevalidateRow(row);
    } else {
      StoredTimeRounds(h);
      assert ValidateIds(PayloadOf(row)).Err?;
    }
  }

  /** The payload of a row does not carry its timestamp. */
  lemma PayloadIgnoresCreatedAt(a: ResponseRow, b: ResponseRow)
    requires a == b.(createdAt := a.createdAt)
    ensures PayloadOf(a) == PayloadOf(b)
  {
  }

  /** The same, for the payload the loop builds (timestamp 0) and the row
      the insert stores (timestamp `now`). */
  lemma ExpectedRowValidates(uid: string, k: nat, position: int, h: nat, now: nat)
    requires IsId(uid) && k < ItemCount && 1 <= position <= 3
    ensures var row := ExpectedRow(uid, QuestionOptionRows()[k], position, h, now);
            var v := ValidateResponsePayload(PayloadOf(ExpectedRow(uid, QuestionOptionRows()[k], position, h, 0)));
            (v.Ok? <==> h <= 60000) && (h <= 60000 ==> ResponseRowValid(row) && ToRow(v.value, now) == row)
  {
    ExpectedRowRevalidates(uid, k, position, h, now);
    PayloadIgnoresCreatedAt(ExpectedRow(uid, QuestionOptionRows()[k], position, h, now),
                            ExpectedRow(uid, QuestionOptionRows()[k], position, h, 0));
  }

  /** The letter stored for item `k + 1` is the matrix letter at that position. */
  lemma ExpectedCode(uid: string, k: nat, position: int, h: nat, now: nat)
    requires k < ItemCount && 1 <= position <= 3
    ensures ExpectedRow(uid, QuestionOptionRows()[k], position, h, now).chosenCode == [Code(k, position - 1)]
  {
    var options := ItemOptions(k);
    assert QuestionOptionRows()[k].options == options;
    assert options[2 * (position - 1)] == Code(k, position - 1) by {
      if position == 1 {
      } else if position == 2 {
      } else {
      }
    }
  }

  // ---------------------------------------------------------------- the row loop

  /** The payload the loop pushes for item `k + 1` once its answer gives a
      position: the expected row for that position and the rounded time. */
  function ExpectedPayload(uid: string, answers: map<string, string>, times: Option<map<string, Raw<real>>>, k: nat)
    : ResponsePayload
    requires k < ItemCount && AnswerPosition(answers, k + 1).Ok?
  {
    PayloadOf(ExpectedRow(uid, QuestionOptionRows()[k], AnswerPosition(answers, k + 1).value,
                          ResponseHundredths(times, k + 1), 0))
  }

  /** The `for (const question of questionRows)` loop of `saveQuizSubmission`.
      The item number is the question id's digits, which is the item's index
      plus one. The loop finishes exactly when every answer gives a position,
      and then yields the 30 expected payloads in item order; otherwise it
      stops with the error of the first answer that gives none. */
  method BuildResponseRows(uid: string, answers: map<string, string>, times: Option<map<string, Raw<real>>>)
    returns (r: Result<seq<ResponsePayload>>)
    ensures r.Ok? <==> AnsweredUpTo(answers, ItemCount)
    ensures r.Ok? ==> |r.value| == ItemCount && ExpectedPrefix(uid, answers, times, r.value)
    ensures r.Err? ==> exists n :: 1 <= n <= ItemCount && AnsweredUpTo(answers, n - 1)
                                   && AnswerPosition(answers, n).Err? && r == Err(AnswerPosition(answers, n).msg)
  {
    var questionRows := QuestionOptionRows();
    var responseRows: seq<ResponsePayload> := [];
    var i := 0;
    while i < |questionRows|
      invariant i <= |questionRows| == ItemCount && |responseRows| == i
      invariant AnsweredUpTo(answers, i) && ExpectedPrefix(uid, answers, times, responseRows)
    {
      RowForShape(uid, answers, times, i + 1, questionRows[i]);
      var row := RowFor(uid, answers, times, i + 1, questionRows[i]);
      if row.Err? {
        AnsweredUpToAll(answers, ItemCount);
        r := Err(row.msg);
        assert AnsweredUpTo(answers, i + 1 - 1) && AnswerPosition(answers, i + 1).Err?;
        return;
      }
      assert (responseRows + [row.value])[..i] == responseRows;
      responseRows := responseRows + [row.value];
      i := i + 1;
    }
    r := Ok(responseRows);
  }

  /** The answers to items 1 to `i` all give a position. */
  predicate AnsweredUpTo(answers: map<string, string>, i: nat) {
    i == 0 || (AnsweredUpTo(answers, i - 1) && AnswerPosition(answers, i).Ok?)
  }

  /** `rows` are the expected payloads of the first `|rows|` items. */
  predicate ExpectedPrefix(uid: string, answers: map<string, string>, times: Option<map<string, Raw<real>>>,
                           rows: seq<ResponsePayload>)
    decreases |rows|
  {
    rows == []
    || (|rows| <= ItemCount && ExpectedPrefix(uid, answers, times, rows[..|rows| - 1])
        && AnswerPosition(answers, |rows|).Ok?
        && rows[|rows| - 1] == ExpectedPayload(uid, answers, times, |rows| - 1))
  }

  lemma AnsweredUpToAll(answers: map<string, string>, i: nat)
    ensures AnsweredUpTo(answers, i) <==> forall n :: 1 <= n <= i ==> AnswerPosition(answers, n).Ok?
  {
    var ok := (n: nat) => AnswerPosition(answers, n).Ok?;
    AnsweredUpToHolds(answers, ok, i);
    HoldsUpToAll(ok, i);
  }

  /** `ok` holds at 1, 2, ..., i. */
  predicate HoldsUpTo(ok: nat -> bool, i: nat) {
    i == 0 || (HoldsUpTo(ok, i - 1) && ok(i))
  }

  lemma {:induction false} HoldsUpToAll(ok: nat -> bool, i: nat)
    ensures HoldsUpTo(ok, i) <==> forall n :: 1 <= n <= i ==> ok(n)
  {
    if i > 0 {
      HoldsUpToAll(ok, i - 1);
    }
  }

  lemma {:induction false} AnsweredUpToHolds(answers: map<string, string>, ok: nat -> bool, i: nat)
    requires forall n :: ok(n) == AnswerPosition(answers, n).Ok?
    ensures AnsweredUpTo(answers, i) == HoldsUpTo(ok, i)
  {
    if i > 0 {
      AnsweredUpToHolds(answers, ok, i - 1);
      assert ok(i) == AnswerPosition(answers, i).Ok?;
    }
  }

  /** A prefix of expected payloads holds, at each index, the expected
      payload of that item. */
  lemma {:induction false} ExpectedPrefixAt(uid: string, answers: map<string, string>, times: Option<map<string, Raw<real>>>,
                                            rows: seq<ResponsePayload>, k: nat)
    requires ExpectedPrefix(uid, answers, times, rows) && k < |rows|
    ensures k < ItemCount && AnswerPosition(answers, k + 1).Ok?
    ensures rows[k] == ExpectedPayload(uid, answers, times, k)
    decreases |rows|
  {
    if k < |rows| - 1 {
      var init := rows[..|rows| - 1];
      ExpectedPrefixAt(uid, answers, times, init, k);
      assert init[k] == rows[k];
    }
  }

  // ---------------------------------------------------------------- deletes and the gate

  /** `SELECT 1 FROM user_major_recommendations WHERE user_id = ? LIMIT 1`
      finds a row. */
  function HasAttempt(recommendations: map<(string, nat), RecommendationRow>, uid: string): (r: bool)
    ensures r <==> uid in (set key | key in recommendations :: recommendations[key].userId)
  {
    exists key :: key in recommendations && recommendations[key].userId == uid
  }

  /** The response table once `DELETE ... WHERE user_id = ?` has run. */
  function WithoutUserResponses(responses: map<string, ResponseRow>, uid: string): (rest: map<string, ResponseRow>)
    ensures rest.Keys <= responses.Keys
    ensures forall k :: k in rest ==> rest[k] == responses[k] && rest[k].userId != uid
  {
    map k | k in responses && responses[k].userId != uid :: responses[k]
  }

  /** The delete removes exactly the user's rows and keeps every other row. */
  lemma WithoutUserResponsesKeeps(responses: map<string, ResponseRow>, uid: string)
    ensures WithoutUserResponses(responses, uid).Keys == responses.Keys - UserKeys(responses, uid)
    ensures UserKeys(WithoutUserResponses(responses, uid), uid) == {}
    ensures forall k :: k in WithoutUserResponses(responses, uid) ==> WithoutUserResponses(responses, uid)[k] == responses[k]
  {
  }

  /** `DELETE FROM user_item_responses WHERE user_id = ?`. */
  method DeleteUserResponses(db: Database, uid: string)
    modifies db`responses
    ensures unchanged(db`users, db`recommendations)
    ensures db.responses == WithoutUserResponses(old(db.responses), uid)
  {
    db.responses := map k | k in db.responses && db.responses[k].userId != uid :: db.responses[k];
  }

  /** The recommendation table once `DELETE ... WHERE user_id = ?` has run. */
  function WithoutUserRecommendations(recommendations: map<(string, nat), RecommendationRow>, uid: string)
    : (rest: map<(string, nat), RecommendationRow>)
  {
    map key | key in recommendations && recommendations[key].userId != uid :: recommendations[key]
  }

  /** The delete leaves no row of the user and keeps every other row. */
  lemma WithoutUserRecommendationsKeeps(recommendations: map<(string, nat), RecommendationRow>, uid: string)
    ensures !HasAttempt(WithoutUserRecommendations(recommendations, uid), uid)
    ensures forall key :: key in recommendations && recommendations[key].userId != uid <==>
                          key in WithoutUserRecommendations(recommendations, uid)
    ensures forall key :: key in WithoutUserRecommendations(recommendations, uid) ==>
                          WithoutUserRecommendations(recommendations, uid)[key] == recommendations[key]
  {
  }

  /** Without a row for the user the delete changes nothing. */
  lemma NoAttemptNothingDeleted(recommendations: map<(string, nat), RecommendationRow>, uid: string)
    requires !HasAttempt(recommendations, uid)
    ensures WithoutUserRecommendations(recommendations, uid) == recommendations
  {
  }

  /** `DELETE FROM user_major_recommendations WHERE user_id = ?`. */
  method DeleteUserRecommendations(db: Database, uid: string)
    modifies db`recommendations
    ensures unchanged(db`users, db`responses)
    ensures db.recommendations == WithoutUserRecommendations(old(db.recommendations), uid)
  {
    db.recommendations := map key | key in db.recommendations && db.recommendations[key].userId != uid
                                  :: db.recommendations[key];
  }

  // ---------------------------------------------------------------- the recommendation loop

  /** The table after the insert loop has handled the first `|top|` entries:
      entry `i` with a non-blank trimmed name is upserted under rank `i + 1`. */
  function RecommendationsAfter(recommendations: map<(string, nat), RecommendationRow>, uid: string,
                                top: seq<ScoredMajor>, now: nat): (r: map<(string, nat), RecommendationRow>)
    ensures forall key :: key in recommendations && key.0 != uid ==> key in r && r[key] == recommendations[key]
    decreases |top|
  {
    if top == [] then recommendations
    else
      var i := |top| - 1;
      var before := RecommendationsAfter(recommendations, uid, top[..i], now);
      var majorName := Trim(top[i].major);
      if majorName == [] then before
      else before[(uid, i + 1) := RecommendationRow(uid, majorName, i + 1, top[i].score, now)]
  }

  /** The `for (let i = 0; i < topRecommendations.length; i += 1)` loop. */
  method StoreRecommendations(db: Database, uid: string, top: seq<ScoredMajor>, now: nat)
    modifies db`recommendations
    ensures unchanged(db`users, db`responses)
    ensures db.recommendations == RecommendationsAfter(old(db.recommendations), uid, top, now)
  {
    var i := 0;
    while i < |top|
      invariant i <= |top|
      invariant db.recommendations == RecommendationsAfter(old(db.recommendations), uid, top[..i], now)
    {
      assert top[..i + 1][..i] == top[..i];
      var majorName := Trim(top[i].major);
      if majorName != [] {
        var rank := i + 1;
        db.recommendations := db.recommendations[(uid, rank) := RecommendationRow(uid, majorName, rank, top[i].score, now)];
      }
      i := i + 1;
    }
    assert top[..i] == top;
  }

  /** After the loop the user holds a row at rank `i + 1` exactly for each
      entry `i` with a non-blank name, and no other key is added. */
  lemma {:induction false} RecommendationKeys(recommendations: map<(string, nat), RecommendationRow>, uid: string,
                                              top: seq<ScoredMajor>, now: nat)
    ensures forall key :: key in RecommendationsAfter(recommendations, uid, top, now) <==>
              key in recommendations || (key.0 == uid && 1 <= key.1 <= |top| && Trim(top[key.1 - 1].major) != [])
    decreases |top|
  {
    if top != [] {
      var n := |top| - 1;
      RecommendationKeys(recommendations, uid, top[..n], now);
      forall j | 0 <= j < n
        ensures top[..n][j] == top[j]
      {
      }
    }
  }

  /** The row at rank `i + 1` carries entry `i`'s trimmed name and score. */
  lemma {:induction false} RecommendationRows(recommendations: map<(string, nat), RecommendationRow>, uid: string,
                                              top: seq<ScoredMajor>, now: nat, i: nat)
    requires i < |top| && Trim(top[i].major) != []
    ensures (uid, i + 1) in RecommendationsAfter(recommendations, uid, top, now)
    ensures RecommendationsAfter(recommendations, uid, top, now)[(uid, i + 1)]
              == RecommendationRow(uid, Trim(top[i].major), i + 1, top[i].score, now)
    decreases |top|
  {
    var n := |top| - 1;
    if i < n {
      RecommendationRows(recommendations, uid, top[..n], now, i);
      assert top[..n][i] == top[i];
    }
  }

  /** Every row of another user is as it was. */
  lemma {:induction false} RecommendationsKeepOthers(recommendations: map<(string, nat), RecommendationRow>, uid: string,
                                                     top: seq<ScoredMajor>, now: nat, key: (string, nat))
    requires key in recommendations && key.0 != uid
    ensures key in RecommendationsAfter(recommendations, uid, top, now)
    ensures RecommendationsAfter(recommendations, uid, top, now)[key] == recommendations[key]
    decreases |top|
  {
    if top != [] {
      RecommendationsKeepOthers(recommendations, uid, top[..|top| - 1], now, key);
    }
  }

  // ---------------------------------------------------------------- the score recount

  /** The number of the user's rows whose chosen code is `code`: the
      `COUNT(*)` of one `GROUP BY chosen_code` group. */
  function CodeCount(responses: map<string, ResponseRow>, uid: string, code: string): nat {
    |set k | k in responses && responses[k].userId == uid && responses[k].chosenCode == code|
  }

  /** The chosen codes of the user's rows. */
  function UserCodes(responses: map<string, ResponseRow>, uid: string): set<string> {
    set k | k in responses && responses[k].userId == uid :: responses[k].chosenCode
  }

  /** The rows of the `GROUP BY chosen_code` query: each code of the user's
      rows with the number of rows carrying it. */
  function CodeGroups(responses: map<string, ResponseRow>, uid: string): (groups: map<string, nat>)
    ensures groups.Keys == UserCodes(responses, uid)
    ensures forall c :: c in groups ==> groups[c] == CodeCount(responses, uid, c)
  {
    map c | c in UserCodes(responses, uid) :: CodeCount(responses, uid, c)
  }

  /** `computed[letter] = total`. */
  function WithScore(sc: ScoreRecord, l: char, v: nat): (r: ScoreRecord)
    requires IsRiasec(l)
    ensures r.Get(l) == v
    ensures forall m :: m != l ==> r.Get(m) == sc.Get(m)
  {
    match l
    case 'R' => sc.(R := v)
    case 'I' => sc.(I := v)
    case 'A' => sc.(A := v)
    case 'S' => sc.(S := v)
    case 'E' => sc.(E := v)
    case 'C' => sc.(C := v)
  }

  /** After the groups in `done` have been read: each letter holds the count
      of a group whose code reads as that letter, or 0 when none does. */
  predicate ScoresFromGroups(groups: map<string, nat>, done: set<string>, sc: ScoreRecord) {
    done <= groups.Keys
    && forall l :: IsRiasec(l) ==>
         (sc.Get(l) == 0 && forall c :: c in done ==> ToUpperLetter(c) != [l])
         || (exists c :: c in done && ToUpperLetter(c) == [l] && sc.Get(l) == groups[c])
  }

  /** `computeScoresFromStoredResponses`: the groups are read in whatever
      order the query returns them. */
  method ComputeScoresFromStoredResponses(db: Database, uid: string) returns (r: Result<ScoreRecord>)
    ensures exists sc :: ScoresFromGroups(CodeGroups(db.responses, uid), UserCodes(db.responses, uid), sc)
                         && r == EnsureTotalThirty(sc)
  {
    var groups := CodeGroups(db.responses, uid);
    var computed := ZeroScores;
    var pending := groups.Keys;
    NoGroupsRead(groups);
    while pending != {}
      invariant pending <= groups.Keys
      invariant ScoresFromGroups(groups, groups.Keys - pending, computed)
      decreases |pending|
    {
      var code :| code in pending;
      var letter := ToUpperLetter(code);
      ghost var done := groups.Keys - pending;
      ghost var before := computed;
      if letter != [] {
        computed := WithScore(computed, letter[0], groups[code]);
      }
      GroupRead(groups, done, before, code, computed);
      assert groups.Keys - (pending - {code}) == done + {code};
      pending := pending - {code};
    }
    assert groups.Keys - pending == UserCodes(db.responses, uid);
    r := EnsureTotalThirty(computed);
  }

  /** Before any group is read every count is 0. */
  lemma NoGroupsRead(groups: map<string, nat>)
    ensures ScoresFromGroups(groups, {}, ZeroScores)
  {
    forall l | IsRiasec(l) ensures ZeroScores.Get(l) == 0 {
      ZeroScoresGet(l);
    }
  }

  /** Reading one more group keeps each letter tied to a group of its own. */
  lemma GroupRead(groups: map<string, nat>, done: set<string>, sc: ScoreRecord, code: string, next: ScoreRecord)
    requires ScoresFromGroups(groups, done, sc) && code in groups
    requires next == if ToUpperLetter(code) != [] then WithScore(sc, ToUpperLetter(code)[0], groups[code]) else sc
    ensures ScoresFromGroups(groups, done + {code}, next)
  {
    var letter := ToUpperLetter(code);
    forall l | IsRiasec(l)
      ensures (next.Get(l) == 0 && forall c :: c in done + {code} ==> ToUpperLetter(c) != [l])
              || (exists c :: c in done + {code} && ToUpperLetter(c) == [l] && next.Get(l) == groups[c])
    {
      if letter == [l] {
        assert code in done + {code};
      } else if exists c :: c in done && ToUpperLetter(c) == [l] && sc.Get(l) == groups[c] {
        var c :| c in done && ToUpperLetter(c) == [l] && sc.Get(l) == groups[c];
        assert c in done + {code};
      }
    }
  }

  /** Every row of the user carries a one-letter RIASEC code, as every row
      the response validator accepts does. */
  predicate CodesAreLetters(responses: map<string, ResponseRow>, uid: string) {
    forall k :: k in responses && responses[k].userId == uid ==>
      |responses[k].chosenCode| == 1 && IsRiasec(responses[k].chosenCode[0])
  }

  /** The six per-letter counts of the user's rows. */
  function StoredTally(responses: map<string, ResponseRow>, uid: string): ScoreRecord {
    ScoreRecord(CodeCount(responses, uid, "R"), CodeCount(responses, uid, "I"), CodeCount(responses, uid, "A"),
                CodeCount(responses, uid, "S"), CodeCount(responses, uid, "E"), CodeCount(responses, uid, "C"))
  }

  /** A RIASEC letter reads as itself. */
  lemma LetterReadsAsItself(l: char)
    requires IsRiasec(l)
    ensures ToUpperLetter([l]) == [l]
  {
    UpperLetterOfChar(l);
  }

  /** One letter of the recount: with letter codes only, the group the
      letter took its score from is the group of that very letter. */
  lemma GroupGivesCount(responses: map<string, ResponseRow>, uid: string, sc: ScoreRecord, l: char)
    requires IsRiasec(l)
    requires CodesAreLetters(responses, uid)
    requires ScoresFromGroups(CodeGroups(responses, uid), UserCodes(responses, uid), sc)
    ensures sc.Get(l) == CodeCount(responses, uid, [l])
  {
    var groups := CodeGroups(responses, uid);
    LetterReadsAsItself(l);
    if c :| c in UserCodes(responses, uid) && ToUpperLetter(c) == [l] && sc.Get(l) == groups[c] {
      var k :| k in responses && responses[k].userId == uid && responses[k].chosenCode == c;
      LetterReadsAsItself(c[0]);
      assert c == [c[0]];
    } else {
      assert [l] !in UserCodes(responses, uid);
      assert (set k | k in responses && responses[k].userId == uid && responses[k].chosenCode == [l]) == {};
    }
  }

  /** When every code is a letter, the order the groups come in does not
      matter: the recount is the count of the user's rows per letter. */
  lemma GroupsGiveCounts(responses: map<string, ResponseRow>, uid: string, sc: ScoreRecord)
    requires CodesAreLetters(responses, uid)
    requires ScoresFromGroups(CodeGroups(responses, uid), UserCodes(responses, uid), sc)
    ensures sc == StoredTally(responses, uid)
  {
    GroupGivesCount(responses, uid, sc, 'R');
    GroupGivesCount(responses, uid, sc, 'I');
    GroupGivesCount(responses, uid, sc, 'A');
    GroupGivesCount(responses, uid, sc, 'S');
    GroupGivesCount(responses, uid, sc, 'E');
    GroupGivesCount(responses, uid, sc, 'C');
  }

  // ---------------------------------------------------------------- preparing the user

  /** The signed-in account: `id`, `name` and `surname`, None when null or
      undefined. */
  datatype AccountUser = AccountUser(id: Option<string>, name: Option<string>, surname: Option<string>)

  /** The optional `userMeta` of a submission. */
  datatype UserMeta = UserMeta(
    firstName: Option<string>,
    lastName: Option<string>,
    gender: Option<string>,
    educationLevel: Option<string>,
    favoriteSubject1: Option<string>,
    favoriteSubject2: Option<string>,
    chosenMajor: Option<string>,
    satisfactionScore: Raw<int>)

  /** `payloadForUser`: the user fields the submission writes. */
  datatype PreparedUser = PreparedUser(
    userId: string,
    firstName: string,
    lastName: string,
    gender: Option<string>,
    educationLevel: Option<string>,
    favoriteSubject1: Option<string>,
    favoriteSubject2: Option<string>,
    chosenMajor: Option<string>,
    satisfactionScore: Option<int>)

  /** `String(v || '')`. */
  function OrEmpty(v: Option<string>): string {
    if v.Some? then v.value else []
  }

  /** `String(given || Trim(account) || fallback).trim().slice(0, 50)`: the
      first truthy source wins, and only then is it trimmed, so a meta name
      made of spaces alone gives the empty name. */
  function DisplayName(given: Option<string>, account: Option<string>, fallback: string): (name: string)
    requires IsId(fallback) && |fallback| <= 50
    ensures |name| <= 50
    ensures name == [] <==> given.Some? && given.value != [] && Trim(given.value) == []
    ensures given.Some? && given.value != [] ==> |name| <= |Trim(given.value)| && name == Trim(given.value)[..|name|]
    ensures (given.None? || given.value == []) && Trim(OrEmpty(account)) == [] ==> name == fallback
  {
    var fromAccount := Trim(OrEmpty(account));
    var chosen := if given.Some? && given.value != [] then given.value
                  else if fromAccount != [] then fromAccount
                  else fallback;
    TrimIdempotent(OrEmpty(account));
    TrimmedFixed(fallback);
    var normalized := Trim(chosen);
    normalized[..Min(50, |normalized|)]
  }

  /** The checks and defaults of `saveQuizSubmission` before its transaction:
      the account id is required, names fall back to the account's and then
      to "Anonymous" / "User", texts are made optional and cut, and a given
      satisfaction score must be an integer from 1 to 5. */
  function PrepareUser(account: AccountUser, meta: UserMeta): (r: Result<PreparedUser>)
    ensures Trim(OrEmpty(account.id)) == [] ==> r == Err("user id is required")
    ensures r.Ok? <==> Trim(OrEmpty(account.id)) != [] && ValidateSatisfaction(meta.satisfactionScore).Ok?
    ensures r.Ok? ==> IsId(r.value.userId) && r.value.userId == Trim(OrEmpty(account.id))
    ensures r.Ok? ==> r.value.chosenMajor == ToOptionalText(meta.chosenMajor, 150)
                      && r.value.satisfactionScore == ValidateSatisfaction(meta.satisfactionScore).value
  {
    var userId := Trim(OrEmpty(account.id));
    if userId == [] then Err("user id is required")
    else
      var satisfaction :- ValidateSatisfaction(meta.satisfactionScore);
      Ok(PreparedFrom(userId, account, meta, satisfaction))
  }

  /** `payloadForUser` once the id and the satisfaction score are checked. */
  function PreparedFrom(userId: string, account: AccountUser, meta: UserMeta, satisfaction: Option<int>): PreparedUser {
    PreparedUser(userId,
                 DisplayName(meta.firstName, account.name, "Anonymous"),
                 DisplayName(meta.lastName, account.surname, "User"),
                 ToOptionalText(meta.gender, 10), ToOptionalText(meta.educationLevel, 50),
                 ToOptionalText(meta.favoriteSubject1, 30), ToOptionalText(meta.favoriteSubject2, 30),
                 ToOptionalText(meta.chosenMajor, 150), satisfaction)
  }

  /** The payload `createUserRecord` gets for a first-time user: no scores,
      the placeholder profile, no chosen major and no satisfaction. */
  function CreatePayload(p: PreparedUser): UserPayload {
    UserPayload(Some(p.userId), Some(p.firstName), Some(p.lastName), p.gender, p.educationLevel,
                p.favoriteSubject1, p.favoriteSubject2, None, Some("RIASEC"), None, Missing)
  }

  /** `{ ...payloadForUser, riasec_profile, scores }` as `updateUserRecord`
      reads it: a null field keeps the stored value. */
  function QuizUpdate(p: PreparedUser, scores: ScoreRecord, profile: string): UserUpdate {
    UserUpdate(Some(p.firstName), Some(p.lastName), p.gender, p.educationLevel,
               p.favoriteSubject1, p.favoriteSubject2, GivenScores(scores), NoScores,
               Some(profile), p.chosenMajor, StoredOrNull(p.satisfactionScore))
  }

  /** A successful quiz update stores the recounted scores and the profile
      built from them: the update carries both, and a profile passes the
      normalisation unchanged. */
  lemma QuizUpdateStores(users: map<string, UserRecord>, uid: string, u: UserUpdate, scores: ScoreRecord,
                         profile: string, isLetter: char -> bool)
    requires u.nested == GivenScores(scores) && u.riasecProfile == Some(profile) && IsProfile(profile)
    ensures var r := Users.UpdateOutcome(users, Some(uid), u, isLetter);
            r.Ok? ==> r.value.scores == scores && r.value.riasecProfile == profile
  {
    ProfileAccepted(profile);
    UpdateAppliesGiven(users, Some(uid), u, isLetter, scores);
  }

  // ---------------------------------------------------------------- storing the answers

  /** The row item `k + 1` stores for `sid` once its answer gives a position. */
  function AnswerRow(sid: string, answers: map<string, string>, times: Option<map<string, Raw<real>>>,
                     now: nat, k: nat): ResponseRow
    requires k < ItemCount && AnswerPosition(answers, k + 1).Ok?
  {
    ExpectedRow(sid, QuestionOptionRows()[k], AnswerPosition(answers, k + 1).value, ResponseHundredths(times, k + 1), now)
  }

  /** The 30 rows a fully answered quiz stores for `sid`, in item order. */
  function AnswerRows(sid: string, answers: map<string, string>, times: Option<map<string, Raw<real>>>, now: nat)
    : (rows: seq<ResponseRow>)
    requires AnsweredUpTo(answers, ItemCount)
    ensures |rows| == ItemCount
  {
    AnsweredUpToAll(answers, ItemCount);
    seq(ItemCount, k requires 0 <= k < ItemCount => AnswerRow(sid, answers, times, now, k))
  }

  /** The response table once the user's rows were replaced by `rows`: every
      row of another user is kept, each of `rows` sits under its own id, and
      there is nothing else. */
  predicate Replaced(before: map<string, ResponseRow>, sid: string, rows: seq<ResponseRow>,
                     after: map<string, ResponseRow>) {
    after.Keys == WithoutUserResponses(before, sid).Keys + (set row | row in rows :: row.responseId)
    && (forall k :: k in before && before[k].userId != sid ==> after[k] == before[k])
    && (forall row :: row in rows ==> after[row.responseId] == row)
  }

  /** Inserting the 30 built payloads creates exactly the 30 answer rows. */
  lemma StoredAnswerRows(base: map<string, ResponseRow>, sid: string, answers: map<string, string>,
                         times: Option<map<string, Raw<real>>>, rows: seq<ResponsePayload>, now: nat)
    requires IsId(sid) && AnsweredUpTo(answers, ItemCount)
    requires |rows| == ItemCount && ExpectedPrefix(sid, answers, times, rows)
    requires BulkInsert(base, ValidateAll(rows), now).0.Ok?
    ensures BulkInsert(base, ValidateAll(rows), now).0.value == AnswerRows(sid, answers, times, now)
  {
    var vs := ValidateAll(rows);
    BulkInsertOk(base, vs, now);
    var created := BulkInsert(base, vs, now).0.value;
    AnsweredUpToAll(answers, ItemCount);
    forall k | 0 <= k < ItemCount
      ensures created[k] == AnswerRow(sid, answers, times, now, k)
    {
      StoredAt(sid, answers, times, rows, vs[k], created[k], now, k);
    }
    AnswerRowsPointwise(sid, answers, times, now, created);
  }

  /** The row created from the payload built for item `k + 1`. */
  lemma StoredAt(sid: string, answers: map<string, string>, times: Option<map<string, Raw<real>>>,
                 rows: seq<ResponsePayload>, v: Result<ResponseData>, row: ResponseRow, now: nat, k: nat)
    requires IsId(sid) && k < |rows| && ExpectedPrefix(sid, answers, times, rows)
    requires v == ValidateResponsePayload(rows[k]) && v.Ok? && row == ToRow(v.value, now)
    ensures k < ItemCount && AnswerPosition(answers, k + 1).Ok?
    ensures row == AnswerRow(sid, answers, times, now, k)
  {
    ExpectedPrefixAt(sid, answers, times, rows, k);
    PayloadStoresAnswerRow(sid, answers, times, now, k, rows[k]);
  }

  /** Thirty rows that are the answer rows one by one are the answer rows. */
  lemma AnswerRowsPointwise(sid: string, answers: map<string, string>, times: Option<map<string, Raw<real>>>,
                            now: nat, created: seq<ResponseRow>)
    requires AnsweredUpTo(answers, ItemCount) && |created| == ItemCount
    requires forall k :: 0 <= k < ItemCount && AnswerPosition(answers, k + 1).Ok? ==>
               created[k] == AnswerRow(sid, answers, times, now, k)
    ensures created == AnswerRows(sid, answers, times, now)
  {
    AnsweredUpToAll(answers, ItemCount);
  }

  /** The payload built for item `k + 1`, once validated, is stored as the
      answer row. */
  lemma PayloadStoresAnswerRow(sid: string, answers: map<string, string>, times: Option<map<string, Raw<real>>>,
                               now: nat, k: nat, p: ResponsePayload)
    requires IsId(sid) && k < ItemCount && AnswerPosition(answers, k + 1).Ok?
    requires p == ExpectedPayload(sid, answers, times, k) && ValidateResponsePayload(p).Ok?
    ensures ToRow(ValidateResponsePayload(p).value, now) == AnswerRow(sid, answers, times, now, k)
  {
    var pos := AnswerPosition(answers, k + 1).value;
    var h := ResponseHundredths(times, k + 1);
    ExpectedRowValidates(sid, k, pos, h, now);
  }

  /** A successful bulk insert after the delete replaces the user's rows by
      the created ones. */
  lemma BulkReplaces(before: map<string, ResponseRow>, sid: string, vs: seq<Result<ResponseData>>, now: nat)
    requires BulkInsert(WithoutUserResponses(before, sid), vs, now).0.Ok?
    ensures var out := BulkInsert(WithoutUserResponses(before, sid), vs, now);
            Replaced(before, sid, out.0.value, out.1)
  {
    var base := WithoutUserResponses(before, sid);
    BulkInsertKeys(base, vs, now);
    BulkInsertStores(base, vs, now);
    BulkInsertKeepsExisting(base, vs, now);
  }

  /** The loop, `DELETE FROM user_item_responses WHERE user_id = ?` and
      `createResponsesBulk`: a quiz with an unusable answer stops before the
      delete; otherwise the user's rows are replaced by the 30 answer rows. */
  method StoreAnswers(db: Database, sid: string, answers: map<string, string>,
                      times: Option<map<string, Raw<real>>>, now: nat) returns (r: Result<seq<ResponseRow>>)
    requires IsId(sid)
    modifies db`responses
    ensures unchanged(db`users, db`recommendations)
    ensures !AnsweredUpTo(answers, ItemCount) ==> r.Err? && db.responses == old(db.responses)
    ensures r.Ok? ==> AnsweredUpTo(answers, ItemCount) && r.value == AnswerRows(sid, answers, times, now)
                      && Replaced(old(db.responses), sid, r.value, db.responses)
  {
    var rows :- BuildResponseRows(sid, answers, times);
    DeleteUserResponses(db, sid);
    r := CreateResponsesBulk(db, Some(rows), now);
    if r.Ok? {
      StoredAnswerRows(WithoutUserResponses(old(db.responses), sid), sid, answers, times, rows, now);
      BulkReplaces(old(db.responses), sid, ValidateAll(rows), now);
    }
  }

  /** Once the user's rows are replaced by rows with one-letter codes, every
      row of the user carries a one-letter code. */
  lemma ReplacedCodesAreLetters(before: map<string, ResponseRow>, sid: string, rows: seq<ResponseRow>,
                                after: map<string, ResponseRow>)
    requires Replaced(before, sid, rows, after)
    requires forall row :: row in rows ==> IsLetterString(row.chosenCode)
    ensures CodesAreLetters(after, sid)
  {
    forall k | k in after && after[k].userId == sid
      ensures |after[k].chosenCode| == 1 && IsRiasec(after[k].chosenCode[0])
    {
      if k in before && before[k].userId != sid {
      } else {
        var row :| row in rows && row.responseId == k;
      }
    }
  }

  /** Each answer row belongs to `sid` and stores the matrix letter of the
      chosen option. */
  lemma AnswerRowsLetters(sid: string, answers: map<string, string>, times: Option<map<string, Raw<real>>>, now: nat)
    requires AnsweredUpTo(answers, ItemCount)
    ensures forall k :: 0 <= k < ItemCount ==>
              AnswerPosition(answers, k + 1).Ok?
              && AnswerRows(sid, answers, times, now)[k].userId == sid
              && AnswerRows(sid, answers, times, now)[k].chosenCode == [ChosenLetter(answers, k)]
  {
    AnsweredUpToAll(answers, ItemCount);
    forall k | 0 <= k < ItemCount
      ensures AnswerRows(sid, answers, times, now)[k].chosenCode == [ChosenLetter(answers, k)]
    {
      ExpectedCode(sid, k, AnswerPosition(answers, k + 1).value, ResponseHundredths(times, k + 1), now);
    }
  }

  /** The letter of the option item `k + 1` was answered with. */
  function ChosenLetter(answers: map<string, string>, k: nat): (l: char)
    requires k < ItemCount && AnswerPosition(answers, k + 1).Ok?
    ensures IsRiasec(l)
  {
    Code(k, AnswerPosition(answers, k + 1).value - 1)
  }

  // ---------------------------------------------------------------- the recount is the tally of the answers

  /** The letters of the chosen options, item by item. */
  function ChosenLetters(answers: map<string, string>): (letters: string)
    requires AnsweredUpTo(answers, ItemCount)
    ensures |letters| == ItemCount && AllRiasec(letters)
    ensures forall k :: 0 <= k < ItemCount ==> AnswerPosition(answers, k + 1).Ok? && letters[k] == ChosenLetter(answers, k)
  {
    AnsweredUpToAll(answers, ItemCount);
    seq(ItemCount, k requires 0 <= k < ItemCount => ChosenLetter(answers, k))
  }

  /** One point per letter among the first `n` of `letters`. */
  function Tally(letters: string, n: nat): ScoreRecord
    requires AllRiasec(letters) && n <= |letters|
  {
    if n == 0 then ZeroScores else Tally(letters, n - 1).Bump(letters[n - 1])
  }

  /** The tally of `n` letters hands out `n` points in all. */
  lemma {:induction false} TallyTotal(letters: string, n: nat)
    requires AllRiasec(letters) && n <= |letters|
    ensures Tally(letters, n).Total() == n
  {
    if n > 0 {
      TallyTotal(letters, n - 1);
      var before := Tally(letters, n - 1);
      var l := letters[n - 1];
      assert IsRiasec(l);
      assert before.Bump(l).Total() == before.Total() + 1;
    }
  }

  /** The ids of the first `n` rows whose code is `l`. */
  function LetterIds(rows: seq<ResponseRow>, n: nat, l: char): set<string>
    requires n <= |rows|
  {
    set k | 0 <= k < n && rows[k].chosenCode == [l] :: rows[k].responseId
  }

  /** Taking one more row adds its id exactly when its code is `l`. */
  lemma LetterIdsStep(rows: seq<ResponseRow>, n: nat, l: char)
    requires 0 < n <= |rows|
    ensures rows[n - 1].chosenCode == [l] ==> LetterIds(rows, n, l) == LetterIds(rows, n - 1, l) + {rows[n - 1].responseId}
    ensures rows[n - 1].chosenCode != [l] ==> LetterIds(rows, n, l) == LetterIds(rows, n - 1, l)
  {
  }

  /** Rows with distinct ids, row `k` coded with `letters[k]`: the rows
      coded `l` among the first `n` are as many as the points `l` has in the
      tally of the first `n` letters. */
  lemma {:induction false} LetterIdsCount(rows: seq<ResponseRow>, letters: string, n: nat, l: char)
    requires |rows| == |letters| && n <= |rows| && AllRiasec(letters)
    requires forall k :: 0 <= k < |rows| ==> rows[k].chosenCode == [letters[k]]
    requires forall j, k :: 0 <= j < k < |rows| ==> rows[j].responseId != rows[k].responseId
    ensures |LetterIds(rows, n, l)| == Tally(letters, n).Get(l)
  {
    if n == 0 {
      assert LetterIds(rows, n, l) == {};
      assert Tally(letters, n) == ZeroScores;
      ZeroScoresGet(l);
    } else {
      LetterIdsCount(rows, letters, n - 1, l);
      LetterIdsStep(rows, n, l);
      if letters[n - 1] == l {
        assert rows[n - 1].responseId !in LetterIds(rows, n - 1, l);
        assert Tally(letters, n).Get(l) == Tally(letters, n - 1).Get(l) + 1;
      } else {
        assert rows[n - 1].chosenCode != [l] by { assert rows[n - 1].chosenCode[0] == letters[n - 1]; }
        assert Tally(letters, n).Get(l) == Tally(letters, n - 1).Get(l);
      }
    }
  }

  /** After the replacement, the user's rows coded `l` are exactly the
      replacing rows coded `l`. */
  lemma ReplacedLetterIds(before: map<string, ResponseRow>, sid: string, rows: seq<ResponseRow>,
                          after: map<string, ResponseRow>, l: char)
    requires Replaced(before, sid, rows, after)
    requires forall k :: 0 <= k < |rows| ==> rows[k].userId == sid
    ensures CodeCount(after, sid, [l]) == |LetterIds(rows, |rows|, l)|
  {
    var stored := set k | k in after && after[k].userId == sid && after[k].chosenCode == [l];
    forall k | k in stored
      ensures k in LetterIds(rows, |rows|, l)
    {
      if k in WithoutUserResponses(before, sid) {
        assert false;
      }
      var row :| row in rows && row.responseId == k;
      var j :| 0 <= j < |rows| && rows[j] == row;
    }
    forall k | k in LetterIds(rows, |rows|, l)
      ensures k in stored
    {
      var j :| 0 <= j < |rows| && rows[j].chosenCode == [l] && rows[j].responseId == k;
      assert rows[j] in rows;
    }
    assert stored == LetterIds(rows, |rows|, l);
  }

  /** One letter of the recount after a fully answered quiz was stored:
      the user's rows coded `l` are as many as the items answered with an
      option of letter `l`. */
  lemma StoredLetterCount(before: map<string, ResponseRow>, sid: string, answers: map<string, string>,
                          times: Option<map<string, Raw<real>>>, now: nat, after: map<string, ResponseRow>, l: char)
    requires AnsweredUpTo(answers, ItemCount)
    requires Replaced(before, sid, AnswerRows(sid, answers, times, now), after)
    ensures CodeCount(after, sid, [l]) == Tally(ChosenLetters(answers), ItemCount).Get(l)
  {
    var rows := AnswerRows(sid, answers, times, now);
    var letters := ChosenLetters(answers);
    AnswerRowsLetters(sid, answers, times, now);
    AnswerIdsDistinct(sid, answers, times, now);
    ReplacedLetterIds(before, sid, rows, after, l);
    LetterIdsCount(rows, letters, ItemCount, l);
  }

  lemma LettersAreFields(sc: ScoreRecord)
    ensures sc.Get('R') == sc.R && sc.Get('I') == sc.I && sc.Get('A') == sc.A
    ensures sc.Get('S') == sc.S && sc.Get('E') == sc.E && sc.Get('C') == sc.C
  {
  }

  /** After a fully answered quiz was stored, every row of the user is a
      letter row. */
  lemma StoredAnswersAreLetters(before: map<string, ResponseRow>, sid: string, answers: map<string, string>,
                                times: Option<map<string, Raw<real>>>, now: nat, after: map<string, ResponseRow>)
    requires AnsweredUpTo(answers, ItemCount)
    requires Replaced(before, sid, AnswerRows(sid, answers, times, now), after)
    ensures CodesAreLetters(after, sid)
  {
    var rows := AnswerRows(sid, answers, times, now);
    AnswerRowsLetters(sid, answers, times, now);
    forall row | row in rows
      ensures IsLetterString(row.chosenCode)
    {
      var k :| 0 <= k < |rows| && rows[k] == row;
    }
    ReplacedCodesAreLetters(before, sid, rows, after);
  }

  /** The recount of a fully answered quiz is the tally of the chosen
      letters: each letter has as many points as items answered with it. */
  lemma StoredTallyOfAnswers(before: map<string, ResponseRow>, sid: string, answers: map<string, string>,
                             times: Option<map<string, Raw<real>>>, now: nat, after: map<string, ResponseRow>)
    requires AnsweredUpTo(answers, ItemCount)
    requires Replaced(before, sid, AnswerRows(sid, answers, times, now), after)
    ensures StoredTally(after, sid) == Tally(ChosenLetters(answers), ItemCount)
  {
    var tally := Tally(ChosenLetters(answers), ItemCount);
    StoredLetterCount(before, sid, answers, times, now, after, 'R');
    StoredLetterCount(before, sid, answers, times, now, after, 'I');
    StoredLetterCount(before, sid, answers, times, now, after, 'A');
    StoredLetterCount(before, sid, answers, times, now, after, 'S');
    StoredLetterCount(before, sid, answers, times, now, after, 'E');
    StoredLetterCount(before, sid, answers, times, now, after, 'C');
    LettersAreFields(tally);
  }

  /** Different items give different response ids. */
  lemma AnswerIdsDistinct(sid: string, answers: map<string, string>, times: Option<map<string, Raw<real>>>, now: nat)
    requires AnsweredUpTo(answers, ItemCount)
    ensures var rows := AnswerRows(sid, answers, times, now);
            forall j, k :: 0 <= j < k < ItemCount ==> rows[j].responseId != rows[k].responseId
  {
    var rows := AnswerRows(sid, answers, times, now);
    AnsweredUpToAll(answers, ItemCount);
    forall j, k | 0 <= j < k < ItemCount
      ensures rows[j].responseId != rows[k].responseId
    {
      assert rows[j].responseId == sid + "_" + RowKey(j);
      assert rows[k].responseId == sid + "_" + RowKey(k);
      ResponseIdsDiffer(sid, j, k);
    }
  }

  /** Two items of one submission get different response ids. */
  lemma ResponseIdsDiffer(sid: string, j: nat, k: nat)
    requires j != k
    ensures sid + "_" + RowKey(j) != sid + "_" + RowKey(k)
  {
    var a, b := sid + "_" + RowKey(j), sid + "_" + RowKey(k);
    if a == b {
      assert RowKey(j) == a[|sid| + 1..];
      assert RowKey(k) == b[|sid| + 1..];
      QuestionKeyInjective(j + 1, k + 1);
    }
  }

  /** With every item answered, the recount cannot fail: whatever order the
      groups come in, the scores are the tally of the chosen letters, and
      they add up to 30, so the total check never throws. */
  lemma RecountOfAnswers(before: map<string, ResponseRow>, sid: string, answers: map<string, string>,
                         times: Option<map<string, Raw<real>>>, now: nat, after: map<string, ResponseRow>,
                         sc: ScoreRecord)
    requires AnsweredUpTo(answers, ItemCount)
    requires Replaced(before, sid, AnswerRows(sid, answers, times, now), after)
    requires ScoresFromGroups(CodeGroups(after, sid), UserCodes(after, sid), sc)
    ensures sc.Total() == ItemCount
    ensures EnsureTotalThirty(sc) == Ok(Tally(ChosenLetters(answers), ItemCount))
  {
    StoredAnswersAreLetters(before, sid, answers, times, now, after);
    GroupsGiveCounts(after, sid, sc);
    StoredTallyOfAnswers(before, sid, answers, times, now, after);
    TallyTotal(ChosenLetters(answers), ItemCount);
  }

  // ---------------------------------------------------------------- the transaction

  /** `allScoredMajors.sort(...).slice(0, 10)`: the ten best-ranked majors. */
  function TopMajors(profile: string, majors: seq<Major>): (r: seq<ScoredMajor>)
    ensures |r| == Min(10, |majors|)
  {
    var ranked := RankMajors(profile, majors);
    ranked[..Min(10, |ranked|)]
  }

  /** The top list holds ten majors (all of them when there are fewer), in
      ranking order, each scored from the catalog, and no major left out
      ranks before one kept. */
  lemma TopMajorsBest(profile: string, majors: seq<Major>)
    ensures |TopMajors(profile, majors)| == Min(10, |majors|)
    ensures SortedBy(TopMajors(profile, majors), RanksBefore)
    ensures forall x :: x in TopMajors(profile, majors) ==> x in multiset(ScoreAll(profile, majors))
    ensures forall i, j :: 0 <= i < |TopMajors(profile, majors)| <= j < |majors| ==>
              !RanksBefore(RankMajors(profile, majors)[j], TopMajors(profile, majors)[i])
  {
    var ranked := RankMajors(profile, majors);
    RankMajorsSorted(profile, majors);
    assert |ranked| == |multiset(ranked)| == |multiset(ScoreAll(profile, majors))| == |majors|;
    TopPrefix(ranked, Min(10, |majors|));
    assert forall x :: x in ranked[..Min(10, |majors|)] ==> x in multiset(ranked);
  }

  /** Each row of `users` sits under its own `user_id`, as the primary key
      guarantees. */
  predicate UsersKeyed(users: map<string, UserRecord>) {
    forall k :: k in users ==> users[k].userId == k
  }

  /** `answers && typeof answers === 'object' ? answers : {}`. */
  function SafeAnswers(answers: Option<map<string, string>>): map<string, string> {
    if answers.Some? then answers.value else map[]
  }

  /** What a submission returns: the user as stored at the end and the 30
      rows created. */
  datatype SubmissionResult = SubmissionResult(user: Option<UserRecord>, responses: seq<ResponseRow>)

  /** `existingUser || createUserRecord(...)`: the stored row of the user,
      or the row created from the prepared fields when there is none; an id
      over 128 characters fails the lookup. */
  function GetOrCreateOutcome(users: map<string, UserRecord>, p: PreparedUser, isLetter: char -> bool, now: nat)
    : (r: Result<UserRecord>)
    requires IsId(p.userId) && UsersKeyed(users)
    ensures r.Ok? ==> r.value.userId == p.userId
  {
    TrimmedFixed(p.userId);
    var existing :- GetUserRecordById(users, Some(p.userId));
    if existing.Some? then Ok(existing.value)
    else CreateOutcome(users, CreatePayload(p), false, isLetter, now)
  }

  /** An id over 128 characters is refused by the lookup. */
  lemma GetOrCreateTooLong(users: map<string, UserRecord>, p: PreparedUser, isLetter: char -> bool, now: nat)
    requires IsId(p.userId) && UsersKeyed(users) && |p.userId| > 128
    ensures GetOrCreateOutcome(users, p, isLetter, now) == Err("user_id" + " must be <= " + NatToString(128) + " characters")
  {
    TrimmedFixed(p.userId);
  }

  /** A stored user is returned as stored. */
  lemma GetOrCreateExisting(users: map<string, UserRecord>, p: PreparedUser, isLetter: char -> bool, now: nat)
    requires IsId(p.userId) && UsersKeyed(users) && |p.userId| <= 128 && p.userId in users
    ensures GetOrCreateOutcome(users, p, isLetter, now) == Ok(users[p.userId])
  {
    TrimmedFixed(p.userId);
  }

  /** Anyone else is created from the prepared fields, with no scores and
      the placeholder profile. */
  lemma GetOrCreateNew(users: map<string, UserRecord>, p: PreparedUser, isLetter: char -> bool, now: nat)
    requires IsId(p.userId) && UsersKeyed(users) && |p.userId| <= 128 && p.userId !in users
    ensures GetOrCreateOutcome(users, p, isLetter, now) == CreateOutcome(users, CreatePayload(p), false, isLetter, now)
  {
    TrimmedFixed(p.userId);
  }

  /** The lookup and, for a first-time user, the insert. */
  method GetOrCreateUser(db: Database, p: PreparedUser, isLetter: char -> bool, now: nat) returns (r: Result<UserRecord>)
    requires IsId(p.userId) && UsersKeyed(db.users)
    modifies db`users
    ensures unchanged(db`responses, db`recommendations)
    ensures r == GetOrCreateOutcome(old(db.users), p, isLetter, now)
    ensures db.users == if r.Ok? && p.userId !in old(db.users) then old(db.users)[p.userId := r.value] else old(db.users)
  {
    TrimmedFixed(p.userId);
    var existing :- GetUserRecordById(db.users, Some(p.userId));
    if existing.Some? {
      r := Ok(existing.value);
    } else {
      r := CreateUserRecord(db, CreatePayload(p), false, isLetter, now);
    }
  }

  /** `computeScoresFromStoredResponses` when every row of the user is a
      letter row: whatever order the groups come in, the result is the
      total check applied to the per-letter counts. */
  method RecountLetterRows(db: Database, sid: string) returns (r: Result<ScoreRecord>)
    requires CodesAreLetters(db.responses, sid)
    ensures r == EnsureTotalThirty(StoredTally(db.responses, sid))
  {
    r := ComputeScoresFromStoredResponses(db, sid);
    ghost var sc :| ScoresFromGroups(CodeGroups(db.responses, sid), UserCodes(db.responses, sid), sc)
                    && r == EnsureTotalThirty(sc);
    GroupsGiveCounts(db.responses, sid, sc);
  }

  /** `updateUserRecord(user_id, { ...payloadForUser, riasec_profile, scores })`. */
  method RecordQuizResult(db: Database, p: PreparedUser, scores: ScoreRecord, isLetter: char -> bool)
    returns (r: Result<UserRecord>)
    modifies db`users
    ensures unchanged(db`responses, db`recommendations)
    ensures r == Users.UpdateOutcome(old(db.users), Some(p.userId), QuizUpdate(p, scores, BuildProfile(scores)), isLetter)
    ensures db.users == if r.Ok? then old(db.users)[Trim(p.userId) := r.value] else old(db.users)
    ensures r.Ok? ==> r.value.scores == scores && r.value.riasecProfile == BuildProfile(scores)
  {
    r := UpdateUserRecord(db, Some(p.userId), QuizUpdate(p, scores, BuildProfile(scores)), isLetter);
    QuizUpdateStores(old(db.users), p.userId, QuizUpdate(p, scores, BuildProfile(scores)), scores,
                     BuildProfile(scores), isLetter);
  }

  /** The delete of the user's recommendations and the insert loop. */
  method ReplaceRecommendations(db: Database, uid: string, top: seq<ScoredMajor>, now: nat)
    modifies db`recommendations
    ensures unchanged(db`users, db`responses)
    ensures db.recommendations
            == RecommendationsAfter(WithoutUserRecommendations(old(db.recommendations), uid), uid, top, now)
  {
    DeleteUserRecommendations(db, uid);
    StoreRecommendations(db, uid, top, now);
  }

  /** The user's row holds `scores` and the profile built from them. */
  predicate ScoresStored(users: map<string, UserRecord>, uid: string, scores: ScoreRecord) {
    uid in users && users[uid].scores == scores && users[uid].riasecProfile == BuildProfile(scores)
  }

  /** The users table once the user's row exists: as it was when the id is
      already there, otherwise with the newly created row added. */
  function WithUser(users: map<string, UserRecord>, p: PreparedUser, isLetter: char -> bool, now: nat)
    : (r: map<string, UserRecord>)
    requires IsId(p.userId) && UsersKeyed(users)
    ensures r.Keys <= users.Keys + {p.userId}
    ensures forall k :: k in users ==> k in r && r[k] == users[k]
  {
    var created := GetOrCreateOutcome(users, p, isLetter, now);
    if created.Ok? && p.userId !in users then users[p.userId := created.value] else users
  }

  /** The quiz update of the user's row: `after` is `users` with the user's
      row, and only that row, replaced by the row merged with the recounted
      scores and the profile built from them. */
  predicate UserRowUpdated(users: map<string, UserRecord>, after: map<string, UserRecord>, p: PreparedUser,
                           scores: ScoreRecord, isLetter: char -> bool) {
    var out := Users.UpdateOutcome(users, Some(p.userId), QuizUpdate(p, scores, BuildProfile(scores)), isLetter);
    out.Ok? && after == users[p.userId := out.value]
  }

  /** The quiz update adds no key and keeps every other row; the user's row
      keeps its id and creation time. */
  lemma UserRowUpdatedFrame(users: map<string, UserRecord>, after: map<string, UserRecord>, p: PreparedUser,
                            scores: ScoreRecord, isLetter: char -> bool)
    requires IsId(p.userId) && UserRowUpdated(users, after, p, scores, isLetter)
    ensures p.userId in users && after.Keys == users.Keys
    ensures forall k :: k in users && k != p.userId ==> after[k] == users[k]
    ensures after[p.userId].userId == users[p.userId].userId && after[p.userId].createdAt == users[p.userId].createdAt
  {
    var out := Users.UpdateOutcome(users, Some(p.userId), QuizUpdate(p, scores, BuildProfile(scores)), isLetter);
    assert p.userId in users && out.value.userId == users[p.userId].userId
           && out.value.createdAt == users[p.userId].createdAt by {
      TrimmedFixed(p.userId);
    }
    RowReplaced(users, p.userId, out.value, after);
  }

  /** Replacing the row of a present key keeps the keys and the other rows. */
  lemma RowReplaced(users: map<string, UserRecord>, uid: string, row: UserRecord, after: map<string, UserRecord>)
    requires uid in users && after == users[uid := row]
    ensures after.Keys == users.Keys && after[uid] == row
    ensures forall k :: k in users && k != uid ==> after[k] == users[k]
  {
  }

  /** After the quiz update the user's row holds the scores and the profile
      built from them. */
  lemma UserRowUpdatedStores(users: map<string, UserRecord>, after: map<string, UserRecord>, p: PreparedUser,
                             scores: ScoreRecord, isLetter: char -> bool)
    requires UserRowUpdated(users, after, p, scores, isLetter)
    ensures ScoresStored(after, p.userId, scores)
  {
    QuizUpdateStores(users, p.userId, QuizUpdate(p, scores, BuildProfile(scores)), scores, BuildProfile(scores),
                     isLetter);
  }

  /** What a completed attempt leaves behind, from the tables it started
      from (`users` being the users table once the user's row exists) to
      the tables `after`: the user's response rows replaced by the 30 answer
      rows, the user's row, and no other, merged with the tally of the
      chosen letters and its profile, and the ten best majors for that
      profile stored as the user's recommendations. */
  predicate AttemptRecorded(users: map<string, UserRecord>, responses: map<string, ResponseRow>,
                            recommendations: map<(string, nat), RecommendationRow>,
                            after: Tables, p: PreparedUser, answers: map<string, string>,
                            times: Option<map<string, Raw<real>>>, majors: seq<Major>, now: nat,
                            isLetter: char -> bool, result: SubmissionResult) {
    var uid := p.userId;
    AnsweredUpTo(answers, ItemCount)
    && result.responses == AnswerRows(uid, answers, times, now)
    && Replaced(responses, uid, result.responses, after.responses)
    && var scores := Tally(ChosenLetters(answers), ItemCount);
       ScoresStored(after.users, uid, scores) && result.user == Some(after.users[uid])
       && UserRowUpdated(users, after.users, p, scores, isLetter)
       && after.recommendations == RecommendationsAfter(recommendations, uid, TopMajors(BuildProfile(scores), majors), now)
  }

  /** The recount and the user update: the user's row gets the per-letter
      counts of the stored rows and the profile built from them. */
  method RecordRecount(db: Database, p: PreparedUser, isLetter: char -> bool, ghost responses: map<string, ResponseRow>)
    returns (r: Result<ScoreRecord>)
    requires IsId(p.userId) && db.responses == responses
    requires CodesAreLetters(responses, p.userId) && StoredTally(responses, p.userId).Total() == 30
    modifies db`users
    ensures unchanged(db`responses, db`recommendations)
    ensures r.Ok? ==> r.value == StoredTally(responses, p.userId)
                      && ScoresStored(db.users, p.userId, r.value)
                      && UserRowUpdated(old(db.users), db.users, p, r.value, isLetter)
  {
    TrimmedFixed(p.userId);
    // The total check of the recount cannot fail here.
    var recount := RecountLetterRows(db, p.userId);
    var scores := recount.value;
    var updated :- RecordQuizResult(db, p, scores, isLetter);
    r := Ok(scores);
  }

  /** The recommendations of a user without an earlier attempt: the ten
      best majors for the profile of `scores`, stored by the insert loop. */
  method RecommendFor(db: Database, majors: seq<Major>, uid: string, scores: ScoreRecord, now: nat)
    requires !HasAttempt(db.recommendations, uid)
    modifies db`recommendations
    ensures unchanged(db`users, db`responses)
    ensures db.recommendations
            == RecommendationsAfter(old(db.recommendations), uid, TopMajors(BuildProfile(scores), majors), now)
  {
    NoAttemptNothingDeleted(db.recommendations, uid);
    var profile := BuildProfile(scores);
    var top := TopMajors(profile, majors);
    ReplaceRecommendations(db, uid, top, now);
  }

  /** The final `getUserRecordById(user_id)` for an id already known to be
      trimmed and non-blank. */
  method ReadBack(db: Database, uid: string) returns (r: Result<Option<UserRecord>>)
    requires IsId(uid)
    ensures r.Ok? ==> r.value == if uid in db.users then Some(db.users[uid]) else None
  {
    TrimmedFixed(uid);
    r := GetUserRecordById(db.users, Some(uid));
  }

  /** The callback after the response rows are stored, for a user without
      an earlier attempt whose rows all carry letter codes adding up to 30:
      recount, profile, user update, recommendations, final read. */
  method FinishAttempt(db: Database, majors: seq<Major>, p: PreparedUser, isLetter: char -> bool, now: nat,
                       ghost responses: map<string, ResponseRow>)
    returns (r: Result<Option<UserRecord>>)
    requires IsId(p.userId) && !HasAttempt(db.recommendations, p.userId) && db.responses == responses
    requires CodesAreLetters(responses, p.userId) && StoredTally(responses, p.userId).Total() == 30
    modifies db`users, db`recommendations
    ensures unchanged(db`responses)
    ensures r.Ok? ==>
              var scores := StoredTally(responses, p.userId);
              var profile := BuildProfile(scores);
              ScoresStored(db.users, p.userId, scores) && r.value == Some(db.users[p.userId])
              && UserRowUpdated(old(db.users), db.users, p, scores, isLetter)
              && db.recommendations
                 == RecommendationsAfter(old(db.recommendations), p.userId, TopMajors(profile, majors), now)
  {
    var scores :- RecordRecount(db, p, isLetter, responses);
    RecommendFor(db, majors, p.userId, scores, now);
    r := ReadBack(db, p.userId);
  }

  /** The callback from the response rows on, for a user without an
      earlier attempt. */
  method CompleteAttempt(db: Database, catalog: MajorCatalog, p: PreparedUser, answers: map<string, string>,
                         times: Option<map<string, Raw<real>>>, isLetter: char -> bool, now: nat)
    returns (r: Result<SubmissionResult>)
    requires IsId(p.userId) && !HasAttempt(db.recommendations, p.userId)
    modifies db`users, db`responses, db`recommendations
    ensures r.Ok? ==> AttemptRecorded(old(db.users), old(db.responses), old(db.recommendations), db.Snapshot(), p,
                                      answers, times, catalog.majors, now, isLetter, r.value)
  {
    var uid := p.userId;
    var majors := catalog.GetAllMajors();
    ghost var before := db.responses;
    var rows :- StoreAnswers(db, uid, answers, times, now);
    ghost var stored := db.responses;
    StoredAnswersAreLetters(before, uid, answers, times, now, stored);
    StoredTallyOfAnswers(before, uid, answers, times, now, stored);
    TallyTotal(ChosenLetters(answers), ItemCount);
    var finalized :- FinishAttempt(db, majors, p, isLetter, now, stored);
    r := Ok(SubmissionResult(finalized, rows));
  }

  /** The body of the `withTransaction` callback. On failure the tables may
      be half-written; `SaveQuizSubmission` rolls them back. */
  method RunSubmission(db: Database, catalog: MajorCatalog, p: PreparedUser, answers: Option<map<string, string>>,
                       times: Option<map<string, Raw<real>>>, isLetter: char -> bool, now: nat)
    returns (r: Result<SubmissionResult>)
    requires IsId(p.userId) && UsersKeyed(db.users)
    modifies db`users, db`responses, db`recommendations
    ensures HasAttempt(old(db.recommendations), p.userId) ==> r == Err("Quiz already completed for this user.")
    ensures r.Ok? ==> AttemptRecorded(WithUser(old(db.users), p, isLetter, now), old(db.responses),
                                      old(db.recommendations), db.Snapshot(), p, SafeAnswers(answers), times,
                                      catalog.majors, now, isLetter, r.value)
  {
    var uid := p.userId;
    if HasAttempt(db.recommendations, uid) {
      return Err("Quiz already completed for this user.");
    }
    var stored :- GetOrCreateUser(db, p, isLetter, now);
    r := CompleteAttempt(db, catalog, p, SafeAnswers(answers), times, isLetter, now);
  }
}
