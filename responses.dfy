/** The item-response table (backend/src/models/responsesModel.js): one row
    per answered quiz item, validated before every write. */
module Responses {
  import opened Common
  import opened Text
  import opened Validators
  import opened Store
  import opened Sorting

  /** The fields of a response as a caller hands them in. Ids pass through
      `String(x || '')` (null arrives as ""), the options must already be a
      string (None otherwise), and the position and time are parsed numbers. */
  datatype ResponsePayload = ResponsePayload(
    responseId: string,
    userId: string,
    questionId: string,
    options: Option<string>,
    chosenCode: string,
    chosenPosition: Raw<int>,
    responseTime: Raw<real>)

  /** The normalised object `validateResponsePayload` returns. */
  datatype ResponseData = ResponseData(
    responseId: string,
    userId: string,
    questionId: string,
    options: string,
    chosenCode: string,
    chosenPosition: int,
    responseTime: nat)

  predicate DataValid(d: ResponseData) {
    ResponseFieldsValid(d.responseId, d.userId, d.questionId, d.options, d.chosenCode, d.chosenPosition, d.responseTime)
  }

  /** The row `INSERT` stores for validated data at time `now`. */
  function ToRow(d: ResponseData, now: nat): (row: ResponseRow)
    ensures ResponseRowValid(row) <==> DataValid(d)
    ensures row.responseId == d.responseId && row.userId == d.userId && row.createdAt == now
  {
    ResponseRow(d.responseId, d.userId, d.questionId, d.options, d.chosenCode, d.chosenPosition, d.responseTime, now)
  }

  /** `normalizeResponseId` / `normalizeUserId`: the trimmed id, which must not be empty. */
  function NormalizeId(value: string, field: string): (r: Result<string>)
    ensures r.Ok? <==> Trim(value) != []
    ensures r.Ok? ==> r.value == Trim(value) && IsId(r.value)
  {
    var normalized := Trim(value);
    if normalized == [] then Err(field + " is required") else Ok(normalized)
  }

  /** `validateResponsePayload`: first the chosen option (`ValidateChoice`),
      then the ids and the time (`ValidateIds`), in the source's order. */
  function ValidateResponsePayload(p: ResponsePayload): (r: Result<ResponseData>)
    ensures r.Ok? <==> ValidateChoice(p).Ok? && ValidateIds(p).Ok?
    ensures r.Ok? ==> DataValid(r.value)
    ensures r.Ok? ==> var c := ValidateChoice(p).value; var i := ValidateIds(p).value;
                      r.value == ResponseData(i.responseId, i.userId, i.questionId, c.options, c.code, c.position, i.time)
  {
    var choice :- ValidateChoice(p);
    var ids :- ValidateIds(p);
    Ok(ResponseData(ids.responseId, ids.userId, ids.questionId, choice.options, choice.code, choice.position, ids.time))
  }

  /** The chosen option of a response: its options, its 1-based position and its letter. */
  datatype Choice = Choice(options: string, position: int, code: string)

  /** The first half of `validateResponsePayload`: the options string, the
      position and the code, which must be the option letter at that position. */
  function ValidateChoice(p: ResponsePayload): (r: Result<Choice>)
    ensures r.Ok? <==>
              (p.options.Some? && OptionsShaped(ToUpper(Trim(p.options.value)))
               && p.chosenPosition.Parsed().Some? && 1 <= p.chosenPosition.Parsed().value <= 3
               && ToUpper(Trim(p.chosenCode)) == OptionAt(ToUpper(Trim(p.options.value)), p.chosenPosition.Parsed().value))
    ensures r.Ok? ==> r.value == Choice(ToUpper(Trim(p.options.value)), p.chosenPosition.Parsed().value, ToUpper(Trim(p.chosenCode)))
  {
    var options :- AssertOptionsString(p.options);
    var chosenPosition :- AssertChosenPosition(p.chosenPosition);
    var chosenCode :- CheckChosenCode(p.chosenCode, options, chosenPosition);
    Ok(Choice(options, chosenPosition, chosenCode))
  }

  /** The identifiers and the time of a response. */
  datatype Ids = Ids(responseId: string, userId: string, questionId: string, time: nat)

  /** The second half of `validateResponsePayload`: both ids non-empty once
      trimmed, a question id from Q01 to Q30, a time from 0 to 600 seconds. */
  function ValidateIds(p: ResponsePayload): (r: Result<Ids>)
    ensures r.Ok? <==>
              (Trim(p.responseId) != [] && Trim(p.userId) != [] && IsQuestionKey(ToUpper(Trim(p.questionId)))
               && p.responseTime.Parsed().Some? && 0.0 <= p.responseTime.Parsed().value <= 600.0)
    ensures r.Ok? ==> r.value == Ids(Trim(p.responseId), Trim(p.userId), ToUpper(Trim(p.questionId)),
                                     Hundredths(p.responseTime.Parsed().value))
  {
    var responseId :- NormalizeId(p.responseId, "response_id");
    var userId :- NormalizeId(p.userId, "user_id");
    var questionId :- AssertQuestionId(p.questionId);
    var responseTime :- AssertResponseTimeSec(p.responseTime);
    Ok(Ids(responseId, userId, questionId, responseTime))
  }

  /** `assertChosenCodeInOptions` followed by the check that the option at the
      chosen position is the chosen code. */
  function CheckChosenCode(chosenCode: string, options: string, position: int): (r: Result<string>)
    requires OptionsShaped(options) && 1 <= position <= 3
    ensures r.Ok? <==> ToUpper(Trim(chosenCode)) == OptionAt(options, position)
    ensures r.Ok? ==> r.value == OptionAt(options, position)
  {
    SplitShaped(options);
    ChosenCodeInShapedOptions(chosenCode, options);
    var code :- AssertChosenCodeInOptions(chosenCode, options);
    var optionsArray := Split(options, ',');
    assert optionsArray[position - 1] == OptionAt(options, position);
    if optionsArray[position - 1] != code then
      Err("chosen_position does not match chosen_code within options")
    else Ok(code)
  }

  /** The payload that re-submits a stored row unchanged. */
  function PayloadOf(row: ResponseRow): ResponsePayload {
    ResponsePayload(row.responseId, row.userId, row.questionId, Some(row.options), row.chosenCode,
                    Given(Some(row.chosenPosition)), Given(Some(row.responseTime as real / 100.0)))
  }

  /** A stored row passes validation again and yields its own fields: each
      of its text fields is already in the form the validator normalises to. */
  lemma RevalidateRow(row: ResponseRow)
    requires ResponseRowValid(row)
    ensures ValidateResponsePayload(PayloadOf(row)) ==
              Ok(ResponseData(row.responseId, row.userId, row.questionId, row.options,
                              row.chosenCode, row.chosenPosition, row.responseTime))
    ensures RowFixed(row)
  {
    RevalidateChoice(row);
    RevalidateIds(row);
  }

  /** The text fields of a row are their own normal forms. */
  predicate RowFixed(row: ResponseRow) {
    TrimFixed(row.responseId) && TrimFixed(row.userId) && NormalFixed(row.questionId)
    && NormalFixed(row.options) && NormalFixed(row.chosenCode)
  }

  lemma RevalidateChoice(row: ResponseRow)
    requires ResponseRowValid(row)
    ensures ValidateChoice(PayloadOf(row)) == Ok(Choice(row.options, row.chosenPosition, row.chosenCode))
    ensures NormalFixed(row.options) && NormalFixed(row.chosenCode)
  {
    NormalizedFixed(row.options);
    ChosenLetterFixed(row.chosenCode);
  }

  lemma RevalidateIds(row: ResponseRow)
    requires ResponseRowValid(row)
    ensures ValidateIds(PayloadOf(row)) == Ok(Ids(row.responseId, row.userId, row.questionId, row.responseTime))
    ensures TrimFixed(row.responseId) && TrimFixed(row.userId) && NormalFixed(row.questionId)
  {
    var p := PayloadOf(row);
    IdsFixed(row);
    IdsAccepted(row);
    StoredTimeRounds(row.responseTime);
    assert p.responseId == row.responseId && p.userId == row.userId && p.questionId == row.questionId;
    IdsOfNormalPayload(p, row.responseTime);
  }

  /** Ids already in normal form and a time given in hundredths validate to
      themselves. */
  lemma IdsOfNormalPayload(p: ResponsePayload, h: nat)
    requires TrimFixed(p.responseId) && TrimFixed(p.userId) && NormalFixed(p.questionId)
    requires p.responseTime == Given(Some(h as real / 100.0)) && Hundredths(h as real / 100.0) == h
    requires ValidateIds(p).Ok?
    ensures ValidateIds(p) == Ok(Ids(p.responseId, p.userId, p.questionId, h))
  {
  }

  lemma IdsAccepted(row: ResponseRow)
    requires ResponseRowValid(row)
    ensures ValidateIds(PayloadOf(row)).Ok?
  {
    IdKept(row.responseId);
    IdKept(row.userId);
    QuestionKeyKept(row.questionId);
  }

  lemma IdKept(s: string)
    requires IsId(s)
    ensures Trim(s) != []
  {
    TrimmedFixed(s);
  }

  lemma QuestionKeyKept(s: string)
    requires IsQuestionKey(s)
    ensures IsQuestionKey(ToUpper(Trim(s)))
  {
    var n :| 1 <= n <= 30 && QuestionKey(n) == s;
    QuestionKeyAccepted(n);
  }

  lemma IdsFixed(row: ResponseRow)
    requires ResponseRowValid(row)
    ensures TrimFixed(row.responseId) && TrimFixed(row.userId) && NormalFixed(row.questionId)
  {
    TrimmedFixed(row.responseId);
    TrimmedFixed(row.userId);
    var n :| 1 <= n <= 30 && QuestionKey(n) == row.questionId;
    QuestionKeyAccepted(n);
  }

  /** A stored time, read back as seconds, rounds to itself. */
  lemma StoredTimeRounds(h: nat)
    ensures Hundredths(h as real / 100.0) == h
  {
    assert (h as real / 100.0) * 100.0 == h as real;
  }

  /** A one-letter code normalises to itself. */
  lemma ChosenLetterFixed(code: string)
    requires IsLetterString(code)
    ensures NormalFixed(code) && ToUpper(Trim(code)) == code
  {
    NormalizedFixed(code);
  }

  // ---------------------------------------------------------------- create

  /** The outcome of `createResponse` against the table `responses`: the
      validated row, refused when its id is taken (the primary key). */
  function InsertResponse(responses: map<string, ResponseRow>, p: ResponsePayload, now: nat): (r: Result<ResponseRow>)
    ensures r.Ok? <==> ValidateResponsePayload(p).Ok? && Trim(p.responseId) !in responses
    ensures r.Ok? ==> ResponseRowValid(r.value) && r.value.responseId !in responses
                      && r.value == ToRow(ValidateResponsePayload(p).value, now)
  {
    InsertValidated(responses, ValidateResponsePayload(p), now)
  }

  /** The `INSERT` half of `createResponse`, given the validator's verdict:
      the validator's error, the primary-key error, or the stored row. */
  function InsertValidated(responses: map<string, ResponseRow>, v: Result<ResponseData>, now: nat): (r: Result<ResponseRow>)
    ensures r.Ok? <==> v.Ok? && v.value.responseId !in responses
    ensures r.Ok? ==> r.value == ToRow(v.value, now) && r.value.responseId !in responses
  {
    var data :- v;
    if data.responseId in responses then Err("SQLITE_CONSTRAINT: UNIQUE constraint failed: user_item_responses.response_id")
    else Ok(ToRow(data, now))
  }

  /** `createResponse`: validate, insert, and return the stored row. */
  method CreateResponse(db: Database, p: ResponsePayload, now: nat) returns (r: Result<ResponseRow>)
    modifies db`responses
    ensures r == InsertResponse(old(db.responses), p, now)
    ensures db.responses == if r.Ok? then old(db.responses)[r.value.responseId := r.value] else old(db.responses)
  {
    r := InsertResponse(db.responses, p, now);
    if r.Ok? {
      db.responses := db.responses[r.value.responseId := r.value];
    }
  }

  /** `getResponseById`: the trimmed id must not be empty; the row stored
      under it, or None. */
  function GetResponseById(responses: map<string, ResponseRow>, responseId: string): (r: Result<Option<ResponseRow>>)
    ensures r.Ok? <==> Trim(responseId) != []
    ensures r.Ok? ==> (r.value.Some? <==> Trim(responseId) in responses)
    ensures r.Ok? && r.value.Some? ==> r.value.value == responses[Trim(responseId)]
  {
    var id :- NormalizeId(responseId, "response_id");
    if id in responses then Ok(Some(responses[id])) else Ok(None)
  }

  /** The row `createResponse` inserted is what `getResponseById` reads back,
      under the caller's spelling of the id as well as the stored one. */
  lemma CreateThenGetResponse(responses: map<string, ResponseRow>, p: ResponsePayload, now: nat)
    requires InsertResponse(responses, p, now).Ok?
    ensures var row := InsertResponse(responses, p, now).value;
            var after := responses[row.responseId := row];
            GetResponseById(after, p.responseId) == Ok(Some(row))
            && GetResponseById(after, row.responseId) == Ok(Some(row))
  {
    var row := InsertResponse(responses, p, now).value;
    assert row.responseId == Trim(p.responseId);
    TrimIdempotent(p.responseId);
  }

  /** The validator's verdict on each row. Validation reads nothing but its
      row, so validating them all first and inserting afterwards meets the
      same first error as interleaving the two. */
  function ValidateAll(rows: seq<ResponsePayload>): (vs: seq<Result<ResponseData>>)
    ensures |vs| == |rows| && forall k :: 0 <= k < |rows| ==> vs[k] == ValidateResponsePayload(rows[k])
  {
    seq(|rows|, k requires 0 <= k < |rows| => ValidateResponsePayload(rows[k]))
  }

  /** The outcome of inserting validated rows one after another from
      `responses`: the created rows (or the first error) and the table
      afterwards. There is no transaction here, so after an error the earlier
      rows stay inserted. */
  function BulkInsert(responses: map<string, ResponseRow>, vs: seq<Result<ResponseData>>, now: nat)
    : (out: (Result<seq<ResponseRow>>, map<string, ResponseRow>))
    ensures responses.Keys <= out.1.Keys
    decreases |vs|
  {
    if |vs| == 0 then (Ok([]), responses)
    else
      var before := BulkInsert(responses, vs[..|vs| - 1], now);
      if before.0.Err? then before
      else match InsertValidated(before.1, vs[|vs| - 1], now)
        case Err(e) => (Err(e), before.1)
        case Ok(row) => (Ok(before.0.value + [row]), before.1[row.responseId := row])
  }

  /** `createResponsesBulk`: nothing for a non-array (None) or empty input,
      otherwise `createResponse` for each row in order. */
  method CreateResponsesBulk(db: Database, rows: Option<seq<ResponsePayload>>, now: nat)
    returns (r: Result<seq<ResponseRow>>)
    modifies db`responses
    ensures unchanged(db`users, db`recommendations)
    ensures (r, db.responses) == BulkInsert(old(db.responses), ValidateAll(if rows.Some? then rows.value else []), now)
  {
    if rows.None? || |rows.value| == 0 {
      return Ok([]);
    }
    var input := rows.value;
    ghost var vs := ValidateAll(input);
    var created: seq<ResponseRow> := [];
    var i := 0;
    while i < |input|
      invariant i <= |input|
      invariant BulkInsert(old(db.responses), vs[..i], now) == (Ok(created), db.responses)
    {
      BulkInsertSnoc(old(db.responses), vs, i, now);
      var inserted := CreateResponse(db, input[i], now);
      if inserted.Err? {
        BulkInsertStopsAtError(old(db.responses), vs, i + 1, now);
        return Err(inserted.msg);
      }
      created := created + [inserted.value];
      i := i + 1;
    }
    assert vs[..i] == vs;
    r := Ok(created);
  }

  /** One more row: the bulk insert of the first `i + 1` rows continues the
      bulk insert of the first `i` with one insert. */
  lemma BulkInsertSnoc(responses: map<string, ResponseRow>, vs: seq<Result<ResponseData>>, i: nat, now: nat)
    requires i < |vs|
    ensures var before := BulkInsert(responses, vs[..i], now);
            BulkInsert(responses, vs[..i + 1], now) ==
              if before.0.Err? then before
              else match InsertValidated(before.1, vs[i], now)
                case Err(e) => (Err(e), before.1)
                case Ok(row) => (Ok(before.0.value + [row]), before.1[row.responseId := row])
  {
    assert vs[..i + 1][..i] == vs[..i];
  }

  /** Once a prefix fails, the whole input fails the same way: the rows after
      the failing one are never attempted. */
  lemma {:induction false} BulkInsertStopsAtError(responses: map<string, ResponseRow>, vs: seq<Result<ResponseData>>,
                                                  j: nat, now: nat)
    requires j <= |vs| && BulkInsert(responses, vs[..j], now).0.Err?
    ensures BulkInsert(responses, vs, now) == BulkInsert(responses, vs[..j], now)
    decreases |vs| - j
  {
    if j < |vs| {
      BulkInsertSnoc(responses, vs, j, now);
      BulkInsertStopsAtError(responses, vs, j + 1, now);
    } else {
      assert vs[..j] == vs;
    }
  }

  /** A bulk insert never overwrites a row that was already there, whether it
      succeeds or stops at an error. */
  lemma {:induction false} BulkInsertKeepsExisting(responses: map<string, ResponseRow>, vs: seq<Result<ResponseData>>, now: nat)
    ensures var out := BulkInsert(responses, vs, now);
            forall k :: k in responses ==> k in out.1 && out.1[k] == responses[k]
    decreases |vs|
  {
    if |vs| > 0 {
      BulkInsertKeepsExisting(responses, vs[..|vs| - 1], now);
    }
  }

  /** A successful bulk insert returns one row per input, in input order,
      each the stored form of its validated input. */
  lemma {:induction false} BulkInsertOk(responses: map<string, ResponseRow>, vs: seq<Result<ResponseData>>, now: nat)
    requires BulkInsert(responses, vs, now).0.Ok?
    ensures var created := BulkInsert(responses, vs, now).0.value;
            |created| == |vs| && forall k :: 0 <= k < |vs| ==> vs[k].Ok? && created[k] == ToRow(vs[k].value, now)
    decreases |vs|
  {
    if |vs| > 0 {
      var n := |vs| - 1;
      BulkInsertOk(responses, vs[..n], now);
      var before := BulkInsert(responses, vs[..n], now);
      var created := BulkInsert(responses, vs, now).0.value;
      assert created == before.0.value + [InsertValidated(before.1, vs[n], now).value];
      forall k | 0 <= k < n
        ensures vs[k].Ok? && created[k] == ToRow(vs[k].value, now)
      {
        assert vs[k] == vs[..n][k];
      }
    }
  }

  /** A successful bulk insert stores each created row under its own id,
      and none of them replaces an old row. */
  lemma {:induction false} BulkInsertStores(responses: map<string, ResponseRow>, vs: seq<Result<ResponseData>>, now: nat)
    requires BulkInsert(responses, vs, now).0.Ok?
    ensures var out := BulkInsert(responses, vs, now);
            forall row :: row in out.0.value ==>
              row.responseId !in responses && row.responseId in out.1 && out.1[row.responseId] == row
    decreases |vs|
  {
    if |vs| > 0 {
      var n := |vs| - 1;
      BulkInsertStores(responses, vs[..n], now);
      BulkInsertKeepsExisting(responses, vs[..n], now);
      var before := BulkInsert(responses, vs[..n], now);
      var last := InsertValidated(before.1, vs[n], now).value;
      var out := BulkInsert(responses, vs, now);
      assert out.0.value == before.0.value + [last];
      assert out.1 == before.1[last.responseId := last];
    }
  }

  /** After a successful bulk insert the table holds the old keys and the
      ids of the created rows, and nothing else. */
  lemma {:induction false} BulkInsertKeys(responses: map<string, ResponseRow>, vs: seq<Result<ResponseData>>, now: nat)
    requires BulkInsert(responses, vs, now).0.Ok?
    ensures var out := BulkInsert(responses, vs, now);
            out.1.Keys == responses.Keys + set row | row in out.0.value :: row.responseId
    decreases |vs|
  {
    if |vs| > 0 {
      var n := |vs| - 1;
      BulkInsertKeys(responses, vs[..n], now);
      var before := BulkInsert(responses, vs[..n], now);
      var last := InsertValidated(before.1, vs[n], now).value;
      var out := BulkInsert(responses, vs, now);
      assert out.0.value == before.0.value + [last];
      assert out.1.Keys == before.1.Keys + {last.responseId};
      assert (set row | row in out.0.value :: row.responseId)
          == (set row | row in before.0.value :: row.responseId) + {last.responseId};
    }
  }

  // ---------------------------------------------------------------- update

  /** The fields an update may carry; None / Missing stand for null or
      undefined, which `??` replaces by the stored value. */
  datatype ResponseUpdate = ResponseUpdate(
    options: Option<string>,
    chosenCode: Option<string>,
    chosenPosition: Raw<int>,
    responseTime: Raw<real>)

  /** The payload `updateResponse` re-validates: the stored ids, and each
      other field `update ?? existing`. */
  function MergeResponse(existing: ResponseRow, u: ResponseUpdate): (m: ResponsePayload)
    ensures m.responseId == existing.responseId && m.userId == existing.userId && m.questionId == existing.questionId
    ensures m.options.Some? && m.options == (if u.options.Some? then u.options else Some(existing.options))
  {
    var base := PayloadOf(existing);
    base.(options := if u.options.Some? then u.options else base.options,
          chosenCode := if u.chosenCode.Some? then u.chosenCode.value else base.chosenCode,
          chosenPosition := if u.chosenPosition.Missing? then base.chosenPosition else u.chosenPosition,
          responseTime := if u.responseTime.Missing? then base.responseTime else u.responseTime)
  }

  /** The outcome of `updateResponse(responseId, u)`: the re-validated row,
      which keeps its creation time. */
  function UpdateOutcome(responses: map<string, ResponseRow>, responseId: string, u: ResponseUpdate): (r: Result<ResponseRow>)
    ensures r.Ok? ==> ResponseRowValid(r.value)
  {
    var id :- NormalizeId(responseId, "response_id");
    if id !in responses then Err("Response not found")
    else
      var data :- ValidateResponsePayload(MergeResponse(responses[id], u));
      Ok(ToRow(data, responses[id].createdAt))
  }

  /** `updateResponse`: read the row, merge, re-validate, write it back. */
  method UpdateResponse(db: Database, responseId: string, u: ResponseUpdate) returns (r: Result<ResponseRow>)
    modifies db`responses
    ensures r == UpdateOutcome(old(db.responses), responseId, u)
    ensures db.responses == if r.Ok? then old(db.responses)[Trim(responseId) := r.value] else old(db.responses)
  {
    r := UpdateOutcome(db.responses, responseId, u);
    if r.Ok? {
      db.responses := db.responses[Trim(responseId) := r.value];
    }
  }

  /** An update never changes the response id, the user id, the question id
      or the creation time of the row, and an unknown id is refused. */
  lemma UpdateKeepsIds(responses: map<string, ResponseRow>, responseId: string, u: ResponseUpdate)
    requires WellFormed(Tables(map[], responses, map[], map[]))
    ensures Trim(responseId) != [] && Trim(responseId) !in responses ==>
              UpdateOutcome(responses, responseId, u) == Err("Response not found")
    ensures var r := UpdateOutcome(responses, responseId, u);
            r.Ok? ==> var old_ := responses[Trim(responseId)];
                      r.value.responseId == old_.responseId == Trim(responseId)
                      && r.value.userId == old_.userId && r.value.questionId == old_.questionId
                      && r.value.createdAt == old_.createdAt
  {
    var id := Trim(responseId);
    if id != [] && id in responses {
      IdsFixed(responses[id]);
    }
  }

  /** An update that carries no field gives back the stored row unchanged. */
  lemma EmptyUpdateIsIdentity(responses: map<string, ResponseRow>, responseId: string)
    requires WellFormed(Tables(map[], responses, map[], map[]))
    requires Trim(responseId) in responses
    ensures UpdateOutcome(responses, responseId, ResponseUpdate(None, None, Missing, Missing))
            == Ok(responses[Trim(responseId)])
  {
    var row := responses[Trim(responseId)];
    assert MergeResponse(row, ResponseUpdate(None, None, Missing, Missing)) == PayloadOf(row);
    RevalidateRow(row);
  }

  // ---------------------------------------------------------------- delete and list

  /** `deleteResponse`: true exactly when a row with the trimmed id was removed. */
  method DeleteResponse(db: Database, responseId: string) returns (r: Result<bool>)
    modifies db`responses
    ensures r.Ok? <==> Trim(responseId) != []
    ensures r.Ok? ==> r.value == (Trim(responseId) in old(db.responses))
                      && db.responses == old(db.responses) - {Trim(responseId)}
    ensures r.Err? ==> db.responses == old(db.responses)
  {
    var normalized := NormalizeId(responseId, "response_id");
    if normalized.Err? {
      return Err(normalized.msg);
    }
    var id := normalized.value;
    r := Ok(id in db.responses);
    db.responses := db.responses - {id};
  }

  /** `ORDER BY created_at DESC, question_id ASC`. */
  predicate ResponseBefore(a: ResponseRow, b: ResponseRow) {
    a.createdAt > b.createdAt || (a.createdAt == b.createdAt && StrLt(a.questionId, b.questionId))
  }

  lemma ResponseBeforeStrictOrder()
    ensures StrictOrder(ResponseBefore)
  {
    forall a: ResponseRow
      ensures !ResponseBefore(a, a)
    {
      StrLtIrreflexive(a.questionId);
    }
    forall a: ResponseRow, b: ResponseRow, c: ResponseRow | ResponseBefore(a, b) && ResponseBefore(b, c)
      ensures ResponseBefore(a, c)
    {
      if a.createdAt == b.createdAt == c.createdAt {
        StrLtTransitive(a.questionId, b.questionId, c.questionId);
      }
    }
  }

  /** Rows the order does not separate share their creation time and their
      question id, so the order is a strict weak order. */
  lemma ResponseBeforeWeakOrder()
    ensures StrictWeakOrder(ResponseBefore)
  {
    ResponseBeforeStrictOrder();
    forall a: ResponseRow, b: ResponseRow, c: ResponseRow
      | Incomparable(ResponseBefore, a, b) && Incomparable(ResponseBefore, b, c)
      ensures Incomparable(ResponseBefore, a, c)
    {
      StrLtTotal(a.questionId, b.questionId);
      StrLtTotal(b.questionId, c.questionId);
      StrLtIrreflexive(a.questionId);
    }
  }

  /** The keys of the rows that belong to user `uid`. */
  function UserKeys(responses: map<string, ResponseRow>, uid: string): set<string> {
    set k | k in responses && responses[k].userId == uid
  }

  /** `listResponsesByUserId`: the rows of the (trimmed) user, one per stored
      key, newest first and by question id within one timestamp. */
  method ListResponsesByUserId(db: Database, userId: string) returns (r: Result<seq<ResponseRow>>)
    ensures r.Ok? <==> Trim(userId) != []
    ensures r.Ok? ==> SortedBy(r.value, ResponseBefore)
    ensures r.Ok? ==> forall row :: row in r.value <==>
                        exists k :: k in UserKeys(db.responses, Trim(userId)) && db.responses[k] == row
    ensures r.Ok? ==> |r.value| == |UserKeys(db.responses, Trim(userId))|
  {
    var normalized := NormalizeId(userId, "user_id");
    if normalized.Err? {
      return Err(normalized.msg);
    }
    var found := CollectUserRows(db.responses, normalized.value);
    var sorted := SortBy(found, ResponseBefore);
    ResponseBeforeStrictOrder();
    SortBySorted(found, ResponseBefore);
    forall row
      ensures row in sorted <==> row in found
    {
      assert row in multiset(sorted) <==> row in multiset(found);
    }
    r := Ok(sorted);
  }

  /** The `WHERE user_id = ?` scan: one row per key of the user, in no
      particular order. */
  method CollectUserRows(responses: map<string, ResponseRow>, uid: string) returns (found: seq<ResponseRow>)
    ensures forall row :: row in found <==> exists k :: k in UserKeys(responses, uid) && responses[k] == row
    ensures |found| == |UserKeys(responses, uid)|
  {
    var remaining := responses.Keys;
    found := [];
    ghost var keys: seq<string> := [];
    while remaining != {}
      invariant remaining <= responses.Keys
      invariant |keys| == |found|
      invariant forall j :: 0 <= j < |keys| ==>
                  keys[j] in UserKeys(responses, uid) && keys[j] !in remaining && responses[keys[j]] == found[j]
      invariant forall k :: k in UserKeys(responses, uid) && k !in remaining ==> k in keys
      invariant forall i, j :: 0 <= i < j < |keys| ==> keys[i] != keys[j]
      decreases |remaining|
    {
      var k :| k in remaining;
      if responses[k].userId == uid {
        found := found + [responses[k]];
        keys := keys + [k];
      }
      remaining := remaining - {k};
    }
    assert UserKeys(responses, uid) == set k | k in keys;
    DistinctCard(keys);
    forall row | row in found
      ensures exists k :: k in UserKeys(responses, uid) && responses[k] == row
    {
      var j :| 0 <= j < |found| && found[j] == row;
      assert keys[j] in UserKeys(responses, uid);
    }
  }

  /** A sequence without repetitions has as many elements as its set. */
  lemma {:induction false} DistinctCard<T>(s: seq<T>)
    requires forall i, j :: 0 <= i < j < |s| ==> s[i] != s[j]
    ensures |set x | x in s| == |s|
  {
    if |s| > 0 {
      var n := |s| - 1;
      DistinctCard(s[..n]);
      assert (set x | x in s) == (set x | x in s[..n]) + {s[n]};
      assert s[n] !in (set x | x in s[..n]);
    }
  }
}
