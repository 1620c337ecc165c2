/** The SQLite database the persistence layer writes to (backend/src/db.js and
    the tables the models query), as four keyed tables held by one object.

    Each table is a map from its primary key to its row: `users` by
    `user_id`, `user_item_responses` by `response_id`,
    `user_major_recommendations` by (`user_id`, `recommendation_rank`) and
    `questions` by `question_id`. `CURRENT_TIMESTAMP` is a number supplied by
    the caller. */
module Store {
  import opened Common
  import opened Text
  import opened Riasec
  import opened Validators

  /** A row of `user_item_responses`; the response time is kept in hundredths
      of a second. */
  datatype ResponseRow = ResponseRow(
    responseId: string,
    userId: string,
    questionId: string,
    options: string,
    chosenCode: string,
    chosenPosition: int,
    responseTime: nat,
    createdAt: nat)

  /** A row of `users`. */
  datatype UserRecord = UserRecord(
    userId: string,
    firstName: string,
    lastName: string,
    gender: Option<string>,
    educationLevel: Option<string>,
    favoriteSubject1: Option<string>,
    favoriteSubject2: Option<string>,
    scores: ScoreRecord,
    riasecProfile: string,
    chosenMajor: Option<string>,
    satisfactionScore: Option<int>,
    createdAt: nat)

  /** A row of `user_major_recommendations`; the score is the major's score
      times 60 (see module Majors). */
  datatype RecommendationRow = RecommendationRow(
    userId: string,
    majorName: string,
    rank: nat,
    score: nat,
    createdAt: nat)

  /** The contents of the four tables at one moment. */
  datatype Tables = Tables(
    users: map<string, UserRecord>,
    responses: map<string, ResponseRow>,
    recommendations: map<(string, nat), RecommendationRow>,
    questions: map<string, string>)

  /** A question id the validator accepts: one of Q01 … Q30. */
  predicate IsQuestionKey(s: string) {
    exists n :: 1 <= n <= 30 && QuestionKey(n) == s
  }

  /** A non-empty identifier with no white space at either end, as the
      models' id normalisers return it. */
  predicate IsId(s: string) {
    s != [] && IsTrimmed(s)
  }

  /** The letter at 1-based position `pos` of a well-shaped options string. */
  function OptionAt(options: string, pos: int): (code: string)
    requires OptionsShaped(options) && 1 <= pos <= 3
    ensures IsLetterString(code)
  {
    [options[2 * (pos - 1)]]
  }

  /** What `validateResponsePayload` guarantees of the fields it returns. */
  predicate ResponseFieldsValid(responseId: string, userId: string, questionId: string, options: string,
                                chosenCode: string, chosenPosition: int, responseTime: nat) {
    IsId(responseId) && IsId(userId) && IsQuestionKey(questionId)
    && OptionsShaped(options) && 1 <= chosenPosition <= 3
    && chosenCode == OptionAt(options, chosenPosition)
    && responseTime <= 60000
  }

  predicate ResponseRowValid(row: ResponseRow) {
    ResponseFieldsValid(row.responseId, row.userId, row.questionId, row.options,
                        row.chosenCode, row.chosenPosition, row.responseTime)
  }

  /** Every row sits under its own key, and every response row is valid. */
  predicate WellFormed(t: Tables) {
    (forall k :: k in t.users ==> t.users[k].userId == k)
    && (forall k :: k in t.responses ==> t.responses[k].responseId == k && ResponseRowValid(t.responses[k]))
    && (forall key :: key in t.recommendations ==>
          t.recommendations[key].userId == key.0 && t.recommendations[key].rank == key.1)
  }

  /** The open database connection. */
  class Database {
    var users: map<string, UserRecord>
    var responses: map<string, ResponseRow>
    var recommendations: map<(string, nat), RecommendationRow>
    var questions: map<string, string>

    /** A freshly migrated, empty database. */
    constructor ()
      ensures Snapshot() == Tables(map[], map[], map[], map[])
    {
      users := map[];
      responses := map[];
      recommendations := map[];
      questions := map[];
    }

    /** The four tables as one value. */
    function Snapshot(): Tables
      reads this
    {
      Tables(users, responses, recommendations, questions)
    }

    ghost predicate Valid()
      reads this
    {
      WellFormed(Snapshot())
    }

    /** `ROLLBACK`: every table goes back to the contents it had at `BEGIN`. */
    method Restore(t: Tables)
      modifies this
      ensures Snapshot() == t
    {
      users := t.users;
      responses := t.responses;
      recommendations := t.recommendations;
      questions := t.questions;
    }
  }
}
