/** `saveQuizSubmission` (backend/src/services/quizPersistenceService.js)
    run inside `withTransaction` (backend/src/db.js). */
module QuizTransaction {
  import opened Common
  import opened Store
  import opened Majors
  import opened Submission

  /** `withTransaction` around the callback: BEGIN, the callback, then COMMIT
      or, when the callback fails, ROLLBACK, which puts back every table. */
  method InTransaction(db: Database, catalog: MajorCatalog, p: PreparedUser, answers: Option<map<string, string>>,
                       times: Option<map<string, Raw<real>>>, isLetter: char -> bool, now: nat)
    returns (r: Result<SubmissionResult>)
    requires IsId(p.userId) && UsersKeyed(db.users)
    modifies db
    ensures r.Err? ==> db.Snapshot() == old(db.Snapshot())
    ensures HasAttempt(old(db.recommendations), p.userId) ==> r == Err("Quiz already completed for this user.")
    ensures r.Ok? ==> unchanged(db`questions)
                      && AttemptRecorded(WithUser(old(db.users), p, isLetter, now), old(db.responses),
                                         old(db.recommendations), db.Snapshot(), p, SafeAnswers(answers), times,
                                         catalog.majors, now, isLetter, r.value)
  {
    var tables := db.Snapshot();
    r := RunSubmission(db, catalog, p, answers, times, isLetter, now);
    if r.Ok? {
      return;
    }
    db.Restore(tables);
  }

  /** `saveQuizSubmission`: the checks and defaults before the transaction,
      then the transaction. A failure leaves every table as it was; a
      success records the attempt and touches no question. */
  method SaveQuizSubmission(db: Database, catalog: MajorCatalog, account: AccountUser, meta: UserMeta,
                            answers: Option<map<string, string>>, times: Option<map<string, Raw<real>>>,
                            isLetter: char -> bool, now: nat)
    returns (r: Result<SubmissionResult>)
    requires UsersKeyed(db.users)
    modifies db
    ensures r.Err? ==> db.Snapshot() == old(db.Snapshot())
    ensures PrepareUser(account, meta).Err? ==> r == Err(PrepareUser(account, meta).msg)
    ensures PrepareUser(account, meta).Ok? && HasAttempt(old(db.recommendations), PrepareUser(account, meta).value.userId)
            ==> r == Err("Quiz already completed for this user.")
    ensures r.Ok? ==> PrepareUser(account, meta).Ok? && unchanged(db`questions)
                      && AttemptRecorded(WithUser(old(db.users), PrepareUser(account, meta).value, isLetter, now),
                                         old(db.responses), old(db.recommendations), db.Snapshot(),
                                         PrepareUser(account, meta).value, SafeAnswers(answers), times,
                                         catalog.majors, now, isLetter, r.value)
  {
    var prepared := PrepareUser(account, meta);
    if prepared.Err? {
      return Err(prepared.msg);
    }
    r := InTransaction(db, catalog, prepared.value, answers, times, isLetter, now);
  }
}
