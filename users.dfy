/** The `users` table (backend/src/models/usersModel.js): one record per quiz
    taker with their profile fields, six trait scores, the trait profile, and
    the major they chose with its satisfaction rating.

    `isLetter` stands for the Unicode letter class `\p{L}` of the subject
    pattern. `now` is the `CURRENT_TIMESTAMP` of an insert. */
module Users {
  import opened Common
  import opened Text
  import opened Riasec
  import opened Validators
  import opened Store

  // ---------------------------------------------------------------- payloads

  /** Six loosely typed scores, one per letter, as `scores.R` … `scores.C`
      (or `R_score` … `C_score`) arrive; `Missing` is null or undefined. */
  datatype ScoresPayload = ScoresPayload(R: Raw<int>, I: Raw<int>, A: Raw<int>, S: Raw<int>, E: Raw<int>, C: Raw<int>)

  const NoScores: ScoresPayload := ScoresPayload(Missing, Missing, Missing, Missing, Missing, Missing)

  /** The payload `validateUserPayload` and `createUserRecord` read. A text
      field is None when it is null or undefined; `scores` is None when the
      payload carries no `scores` object. */
  datatype UserPayload = UserPayload(
    userId: Option<string>,
    firstName: Option<string>,
    lastName: Option<string>,
    gender: Option<string>,
    educationLevel: Option<string>,
    favoriteSubject1: Option<string>,
    favoriteSubject2: Option<string>,
    scores: Option<ScoresPayload>,
    riasecProfile: Option<string>,
    chosenMajor: Option<string>,
    satisfactionScore: Raw<int>)

  /** The normalised object `validateUserPayload` returns. */
  datatype UserData = UserData(
    firstName: string,
    lastName: string,
    gender: Option<string>,
    educationLevel: Option<string>,
    favoriteSubject1: Option<string>,
    favoriteSubject2: Option<string>,
    scores: ScoreRecord,
    riasecProfile: string,
    chosenMajor: Option<string>,
    satisfactionScore: Option<int>)

  // ---------------------------------------------------------------- field validation

  /** `validateScores`: each of the six scores must parse to a non-negative
      integer; the first one that does not, in R, I, A, S, E, C order, names
      the error. */
  function ValidateScores(s: ScoresPayload): (r: Result<ScoreRecord>)
    ensures r.Ok? <==> ScoreOk(s.R) && ScoreOk(s.I) && ScoreOk(s.A) && ScoreOk(s.S) && ScoreOk(s.E) && ScoreOk(s.C)
    ensures r.Ok? ==> r.value == ScoreRecord(s.R.Parsed().value, s.I.Parsed().value, s.A.Parsed().value,
                                             s.S.Parsed().value, s.E.Parsed().value, s.C.Parsed().value)
  {
    var r :- AssertScore(s.R, "R_score");
    var i :- AssertScore(s.I, "I_score");
    var a :- AssertScore(s.A, "A_score");
    var s_ :- AssertScore(s.S, "S_score");
    var e :- AssertScore(s.E, "E_score");
    var c :- AssertScore(s.C, "C_score");
    Ok(ScoreRecord(r, i, a, s_, e, c))
  }

  /** A score `assertScore` accepts. */
  predicate ScoreOk(v: Raw<int>) {
    v.Parsed().Some? && v.Parsed().value >= 0
  }

  /** `x == null || x === ''`: the field is left null. */
  predicate IsNullish(v: Option<string>) {
    v.None? || v.value == []
  }

  /** A validated value as the nullable column stores it. */
  function Present<T>(r: Result<T>): (o: Result<Option<T>>)
    ensures o.Ok? <==> r.Ok?
    ensures o.Ok? ==> o.value == Some(r.value)
  {
    var v :- r;
    Ok(Some(v))
  }

  function ValidateGender(v: Option<string>): (r: Result<Option<string>>)
    ensures IsNullish(v) ==> r == Ok(None)
    ensures !IsNullish(v) ==> r.Ok? == (ToLower(Trim(v.value)) in Genders)
    ensures r.Ok? && r.value.Some? ==> r.value.value == ToLower(Trim(v.value)) && r.value.value in Genders
  {
    if IsNullish(v) then Ok(None) else Present(AssertGender(v.value))
  }

  function ValidateEducationLevel(v: Option<string>): (r: Result<Option<string>>)
    ensures IsNullish(v) ==> r == Ok(None)
    ensures !IsNullish(v) ==> r.Ok? == (ToLower(Trim(v.value)) in EducationLevels)
    ensures r.Ok? && r.value.Some? ==> r.value.value == Trim(v.value) && EducationStored(r.value.value)
  {
    if IsNullish(v) then Ok(None) else Present(AssertEducationLevel(v.value))
  }

  /** The first favourite subject: null when nullish, otherwise required to
      match the subject pattern. */
  function ValidateSubject1(v: Option<string>, isLetter: char -> bool): (r: Result<Option<string>>)
    ensures IsNullish(v) ==> r == Ok(None)
    ensures !IsNullish(v) ==> r.Ok? == (1 <= |Trim(v.value)| <= 30 && SubjectPattern(Trim(v.value), isLetter))
    ensures r.Ok? && r.value.Some? ==> r.value.value == Trim(v.value) && SubjectStored(r.value.value, isLetter)
  {
    if IsNullish(v) then Ok(None) else AssertSubject(v.value, "favorite_subject_1", false, isLetter)
  }

  /** The second favourite subject goes straight to `assertSubject` as an
      optional field: null, undefined and blank text all give null. */
  function ValidateSubject2(v: Option<string>, isLetter: char -> bool): (r: Result<Option<string>>)
    ensures var t := if v.Some? then Trim(v.value) else [];
            (r == Ok(None) <==> t == [])
            && (r.Ok? && r.value.Some? <==> 1 <= |t| <= 30 && SubjectPattern(t, isLetter))
            && (r.Ok? && r.value.Some? ==> r.value.value == t && SubjectStored(t, isLetter))
  {
    AssertSubject(if v.Some? then v.value else "", "favorite_subject_2", true, isLetter)
  }

  /** A truthy profile is validated; a missing or empty one becomes "RIASEC". */
  function ValidateProfile(v: Option<string>): (r: Result<string>)
    ensures IsNullish(v) ==> r == Ok(Letters)
    ensures !IsNullish(v) ==> r == AssertProfile(v.value)
    ensures r.Ok? ==> IsProfile(r.value)
  {
    if IsNullish(v) then
      LettersIsProfile();
      Ok(Letters)
    else AssertProfile(v.value)
  }

  function ValidateChosenMajor(v: Option<string>): (r: Result<Option<string>>)
    ensures IsNullish(v) ==> r == Ok(None)
    ensures !IsNullish(v) ==> r.Ok? == (Trim(v.value) != [] && |Trim(v.value)| <= 150)
    ensures r.Ok? && r.value.Some? ==> r.value.value == Trim(v.value)
  {
    if IsNullish(v) then Ok(None) else Present(AssertNonEmptyString(v, "chosen_major", 150))
  }

  /** The satisfaction score: null or '' leave it null. */
  function ValidateSatisfaction(v: Raw<int>): (r: Result<Option<int>>)
    ensures v.Missing? || v.Blank? ==> r == Ok(None)
    ensures v.Given? ==> r.Ok? == (v.parsed.Some? && 1 <= v.parsed.value <= 5)
    ensures r.Ok? && r.value.Some? ==> r.value.value == v.parsed.value
  {
    if v.Missing? || v.Blank? then Ok(None) else Present(AssertSatisfactionScore(v))
  }

  /** The fixed profile "RIASEC" the source falls back to is a profile. */
  lemma LettersIsProfile()
    ensures IsProfile(Letters)
  {
  }

  // ---------------------------------------------------------------- validateUserPayload

  /** The profile half of a user's fields. */
  datatype Personal = Personal(
    firstName: string,
    lastName: string,
    gender: Option<string>,
    educationLevel: Option<string>,
    favoriteSubject1: Option<string>,
    favoriteSubject2: Option<string>)

  /** The quiz half of a user's fields. */
  datatype Quiz = Quiz(
    scores: ScoreRecord,
    riasecProfile: string,
    chosenMajor: Option<string>,
    satisfactionScore: Option<int>)

  /** Names, gender, education level and subjects, in the source's order. */
  function ValidatePersonal(p: UserPayload, isLetter: char -> bool): (r: Result<Personal>)
    ensures r.Ok? <==> AssertNonEmptyString(p.firstName, "first_name", 50).Ok?
                       && AssertNonEmptyString(p.lastName, "last_name", 50).Ok?
                       && ValidateGender(p.gender).Ok? && ValidateEducationLevel(p.educationLevel).Ok?
                       && ValidateSubject1(p.favoriteSubject1, isLetter).Ok?
                       && ValidateSubject2(p.favoriteSubject2, isLetter).Ok?
    ensures r.Ok? ==> r.value == Personal(
                        Trim(p.firstName.value), Trim(p.lastName.value),
                        ValidateGender(p.gender).value, ValidateEducationLevel(p.educationLevel).value,
                        ValidateSubject1(p.favoriteSubject1, isLetter).value,
                        ValidateSubject2(p.favoriteSubject2, isLetter).value)
    ensures r.Ok? ==> PersonalValid(r.value, isLetter)
  {
    var firstName :- AssertNonEmptyString(p.firstName, "first_name", 50);
    var lastName :- AssertNonEmptyString(p.lastName, "last_name", 50);
    var gender :- ValidateGender(p.gender);
    var educationLevel :- ValidateEducationLevel(p.educationLevel);
    var subject1 :- ValidateSubject1(p.favoriteSubject1, isLetter);
    var subject2 :- ValidateSubject2(p.favoriteSubject2, isLetter);
    Ok(Personal(firstName, lastName, gender, educationLevel, subject1, subject2))
  }

  /** Scores (all zero without a `scores` object), profile, chosen major and
      satisfaction, in the source's order. */
  function ValidateQuiz(p: UserPayload): (r: Result<Quiz>)
    ensures r.Ok? <==> (p.scores.Some? ==> ValidateScores(p.scores.value).Ok?)
                       && ValidateProfile(p.riasecProfile).Ok?
                       && ValidateChosenMajor(p.chosenMajor).Ok?
                       && ValidateSatisfaction(p.satisfactionScore).Ok?
    ensures r.Ok? ==> r.value == Quiz(
                        if p.scores.Some? then ValidateScores(p.scores.value).value else ZeroScores,
                        ValidateProfile(p.riasecProfile).value, ValidateChosenMajor(p.chosenMajor).value,
                        ValidateSatisfaction(p.satisfactionScore).value)
    ensures r.Ok? ==> QuizValid(r.value)
  {
    var scores :- if p.scores.Some? then ValidateScores(p.scores.value) else Ok(ZeroScores);
    var profile :- ValidateProfile(p.riasecProfile);
    var chosenMajor :- ValidateChosenMajor(p.chosenMajor);
    var satisfaction :- ValidateSatisfaction(p.satisfactionScore);
    Ok(Quiz(scores, profile, chosenMajor, satisfaction))
  }

  function Combine(a: Personal, b: Quiz): UserData {
    UserData(a.firstName, a.lastName, a.gender, a.educationLevel, a.favoriteSubject1, a.favoriteSubject2,
             b.scores, b.riasecProfile, b.chosenMajor, b.satisfactionScore)
  }

  /** The fields of `validateUserPayload`: the profile half, then the quiz half. */
  function ValidateFields(p: UserPayload, isLetter: char -> bool): (r: Result<UserData>)
    ensures r.Ok? <==> ValidatePersonal(p, isLetter).Ok? && ValidateQuiz(p).Ok?
    ensures r.Ok? ==> r.value == Combine(ValidatePersonal(p, isLetter).value, ValidateQuiz(p).value)
    ensures r.Ok? ==> DataValid(r.value, isLetter)
  {
    var personal :- ValidatePersonal(p, isLetter);
    var quiz :- ValidateQuiz(p);
    Ok(Combine(personal, quiz))
  }

  /** `assertFinalizedQuizData`: the six scores must add up to 30 and the
      profile must not be empty. */
  function AssertFinalizedQuizData(d: UserData): (r: Result<UserData>)
    ensures r.Ok? <==> d.scores.Total() == 30 && d.riasecProfile != []
    ensures r.Ok? ==> r.value == d
    ensures d.scores.Total() != 30 ==>
              r == Err("RIASEC score sum must equal 30, received " + NatToString(d.scores.Total()))
  {
    var sum := d.scores.Total();
    if sum != 30 then Err("RIASEC score sum must equal 30, received " + NatToString(sum))
    else if d.riasecProfile == [] then Err("riasec_profile is required when quiz is finalized")
    else Ok(d)
  }

  /** `validateUserPayload(payload, { requireFinalizedQuiz })`. Because every
      validated profile has six letters, the finalized check can only fail on
      the score sum. */
  function ValidateUserPayload(p: UserPayload, requireFinalized: bool, isLetter: char -> bool): (r: Result<UserData>)
    ensures r.Ok? <==> ValidateFields(p, isLetter).Ok?
                       && (requireFinalized ==> ValidateFields(p, isLetter).value.scores.Total() == 30)
    ensures r.Ok? ==> r.value == ValidateFields(p, isLetter).value
  {
    var data :- ValidateFields(p, isLetter);
    if requireFinalized then AssertFinalizedQuizData(data) else Ok(data)
  }

  // ---------------------------------------------------------------- stored records

  /** What the validators guarantee of a user's fields: each is a value its
      validator gives back unchanged. */
  predicate DataValid(d: UserData, isLetter: char -> bool) {
    PersonalValid(Personal(d.firstName, d.lastName, d.gender, d.educationLevel, d.favoriteSubject1, d.favoriteSubject2), isLetter)
    && QuizValid(Quiz(d.scores, d.riasecProfile, d.chosenMajor, d.satisfactionScore))
  }

  predicate PersonalValid(d: Personal, isLetter: char -> bool) {
    NameStored(d.firstName) && NameStored(d.lastName)
    && (d.gender.Some? ==> d.gender.value in Genders)
    && (d.educationLevel.Some? ==> EducationStored(d.educationLevel.value))
    && (d.favoriteSubject1.Some? ==> SubjectStored(d.favoriteSubject1.value, isLetter))
    && (d.favoriteSubject2.Some? ==> SubjectStored(d.favoriteSubject2.value, isLetter))
  }

  predicate QuizValid(d: Quiz) {
    IsProfile(d.riasecProfile)
    && (d.chosenMajor.Some? ==> IsTrimmed(d.chosenMajor.value) && 1 <= |d.chosenMajor.value| <= 150)
    && (d.satisfactionScore.Some? ==> 1 <= d.satisfactionScore.value <= 5)
  }

  /** A first or last name as `assertNonEmptyString(…, 50)` returns it. */
  predicate NameStored(s: string) {
    IsTrimmed(s) && 1 <= |s| <= 50
  }

  /** An education level as `assertEducationLevel` returns it. */
  predicate EducationStored(s: string) {
    IsTrimmed(s) && ToLower(s) in EducationLevels
  }

  /** A subject as `assertSubject` returns it. */
  predicate SubjectStored(s: string, isLetter: char -> bool) {
    IsTrimmed(s) && 1 <= |s| <= 30 && SubjectPattern(s, isLetter)
  }

  /** The row `INSERT` stores. */
  function RecordOf(userId: string, d: UserData, createdAt: nat): UserRecord {
    UserRecord(userId, d.firstName, d.lastName, d.gender, d.educationLevel, d.favoriteSubject1,
               d.favoriteSubject2, d.scores, d.riasecProfile, d.chosenMajor, d.satisfactionScore, createdAt)
  }

  function DataOf(u: UserRecord): UserData {
    UserData(u.firstName, u.lastName, u.gender, u.educationLevel, u.favoriteSubject1,
             u.favoriteSubject2, u.scores, u.riasecProfile, u.chosenMajor, u.satisfactionScore)
  }

  /** A user id as `assertNonEmptyString(…, 128)` returns it. */
  predicate UserIdValid(id: string) {
    IsId(id) && |id| <= 128
  }

  predicate RecordValid(u: UserRecord, isLetter: char -> bool) {
    UserIdValid(u.userId) && DataValid(DataOf(u), isLetter)
  }

  /** Every stored record sits under its own id and holds validated fields. */
  predicate UsersValid(users: map<string, UserRecord>, isLetter: char -> bool) {
    forall k :: k in users ==> users[k].userId == k && RecordValid(users[k], isLetter)
  }

  // ---------------------------------------------------------------- create and read

  /** `getUserRecordById`: the id is validated, then looked up. */
  function GetUserRecordById(users: map<string, UserRecord>, userId: Option<string>): (r: Result<Option<UserRecord>>)
    ensures r.Ok? <==> AssertNonEmptyString(userId, "user_id", 128).Ok?
    ensures r.Ok? ==> var id := Trim(userId.value);
                      r.value == (if id in users then Some(users[id]) else None)
  {
    var id :- AssertNonEmptyString(userId, "user_id", 128);
    Ok(if id in users then Some(users[id]) else None)
  }

  /** The outcome of `createUserRecord`: the payload is validated first, then
      the user id; an id already present violates the primary key. */
  function CreateOutcome(users: map<string, UserRecord>, p: UserPayload, requireFinalized: bool,
                         isLetter: char -> bool, now: nat): (r: Result<UserRecord>)
    ensures r.Ok? <==> ValidateUserPayload(p, requireFinalized, isLetter).Ok?
                       && AssertNonEmptyString(p.userId, "user_id", 128).Ok?
                       && Trim(p.userId.value) !in users
    ensures r.Ok? ==> r.value.userId == Trim(p.userId.value) && r.value.createdAt == now
                      && DataOf(r.value) == ValidateUserPayload(p, requireFinalized, isLetter).value
                      && RecordValid(r.value, isLetter)
  {
    var data :- ValidateUserPayload(p, requireFinalized, isLetter);
    var userId :- AssertNonEmptyString(p.userId, "user_id", 128);
    if userId in users then Err("SQLITE_CONSTRAINT: UNIQUE constraint failed: users.user_id")
    else Ok(RecordOf(userId, data, now))
  }

  /** `createUserRecord`: insert the validated row and read it back. */
  method CreateUserRecord(db: Database, p: UserPayload, requireFinalized: bool, isLetter: char -> bool, now: nat)
    returns (r: Result<UserRecord>)
    modifies db`users
    ensures unchanged(db`responses, db`recommendations)
    ensures r == CreateOutcome(old(db.users), p, requireFinalized, isLetter, now)
    ensures db.users == if r.Ok? then old(db.users)[r.value.userId := r.value] else old(db.users)
  {
    r := CreateOutcome(db.users, p, requireFinalized, isLetter, now);
    if r.Ok? {
      db.users := db.users[r.value.userId := r.value];
    }
  }

  /** After a successful create, reading the id back gives the created record,
      and the table stays valid. */
  lemma CreateThenGet(users: map<string, UserRecord>, p: UserPayload, requireFinalized: bool,
                      isLetter: char -> bool, now: nat)
    requires UsersValid(users, isLetter)
    ensures var r := CreateOutcome(users, p, requireFinalized, isLetter, now);
            r.Ok? ==> var users' := users[r.value.userId := r.value];
                      GetUserRecordById(users', p.userId) == Ok(Some(r.value))
                      && UsersValid(users', isLetter)
                      && users'.Keys == users.Keys + {r.value.userId}
  {
  }

  // ---------------------------------------------------------------- update

  /** The fields an update may carry. None / `Missing` stand for null or
      undefined, which `??` replaces by the stored value; `nested` holds
      `updates.scores.X` and `flat` holds `updates.X_score`. */
  datatype UserUpdate = UserUpdate(
    firstName: Option<string>,
    lastName: Option<string>,
    gender: Option<string>,
    educationLevel: Option<string>,
    favoriteSubject1: Option<string>,
    favoriteSubject2: Option<string>,
    nested: ScoresPayload,
    flat: ScoresPayload,
    riasecProfile: Option<string>,
    chosenMajor: Option<string>,
    satisfactionScore: Raw<int>)

  const NoUpdate: UserUpdate :=
    UserUpdate(None, None, None, None, None, None, NoScores, NoScores, None, None, Missing)

  /** A stored number as the payload presents it again. */
  function Stored(n: int): Raw<int> {
    Given(Some(n))
  }

  function StoredOrNull(v: Option<int>): Raw<int> {
    if v.Some? then Stored(v.value) else Missing
  }

  /** `a ?? b`. */
  function Coalesce<T>(a: Option<T>, b: Option<T>): (r: Option<T>)
    ensures r.None? <==> a.None? && b.None?
  {
    if a.Some? then a else b
  }

  /** `a ?? b ?? stored` for one score. */
  function MergeScore(a: Raw<int>, b: Raw<int>, stored: nat): (r: Raw<int>)
    ensures !r.Missing?
  {
    if !a.Missing? then a else if !b.Missing? then b else Stored(stored)
  }

  /** The payload `updateUserRecord` re-validates: each field `update ?? existing`. */
  function MergeUser(existing: UserRecord, u: UserUpdate): (m: UserPayload)
    ensures ShouldRequireFinalized(m)
    ensures m.firstName == Some(if u.firstName.Some? then u.firstName.value else existing.firstName)
    ensures m.riasecProfile == Some(if u.riasecProfile.Some? then u.riasecProfile.value else existing.riasecProfile)
  {
    var sc := existing.scores;
    UserPayload(
      None,
      Coalesce(u.firstName, Some(existing.firstName)),
      Coalesce(u.lastName, Some(existing.lastName)),
      Coalesce(u.gender, existing.gender),
      Coalesce(u.educationLevel, existing.educationLevel),
      Coalesce(u.favoriteSubject1, existing.favoriteSubject1),
      Coalesce(u.favoriteSubject2, existing.favoriteSubject2),
      Some(ScoresPayload(MergeScore(u.nested.R, u.flat.R, sc.R), MergeScore(u.nested.I, u.flat.I, sc.I),
                         MergeScore(u.nested.A, u.flat.A, sc.A), MergeScore(u.nested.S, u.flat.S, sc.S),
                         MergeScore(u.nested.E, u.flat.E, sc.E), MergeScore(u.nested.C, u.flat.C, sc.C))),
      Coalesce(u.riasecProfile, Some(existing.riasecProfile)),
      Coalesce(u.chosenMajor, existing.chosenMajor),
      if u.satisfactionScore.Missing? then StoredOrNull(existing.satisfactionScore) else u.satisfactionScore)
  }

  /** `shouldRequireFinalizedQuiz`: a profile, a chosen major or a
      satisfaction score is present. */
  predicate ShouldRequireFinalized(m: UserPayload) {
    m.riasecProfile.Some? || m.chosenMajor.Some? || !m.satisfactionScore.Missing?
  }

  /** The outcome of `updateUserRecord(userId, updates)`. */
  function UpdateOutcome(users: map<string, UserRecord>, userId: Option<string>, u: UserUpdate,
                         isLetter: char -> bool): (r: Result<UserRecord>)
    ensures AssertNonEmptyString(userId, "user_id", 128).Ok? && Trim(userId.value) !in users ==>
              r == Err("User record not found")
    ensures r.Ok? ==> userId.Some? && var id := Trim(userId.value);
                      id in users && r.value.userId == users[id].userId && r.value.createdAt == users[id].createdAt
                      && DataValid(DataOf(r.value), isLetter)
  {
    var found :- GetUserRecordById(users, userId);
    if found.None? then Err("User record not found")
    else
      var existing := found.value;
      var merged := MergeUser(existing, u);
      var data :- ValidateUserPayload(merged, ShouldRequireFinalized(merged), isLetter);
      Ok(RecordOf(existing.userId, data, existing.createdAt))
  }

  /** `updateUserRecord`: read, merge, re-validate, write back. */
  method UpdateUserRecord(db: Database, userId: Option<string>, u: UserUpdate, isLetter: char -> bool)
    returns (r: Result<UserRecord>)
    modifies db`users
    ensures unchanged(db`responses, db`recommendations)
    ensures r == UpdateOutcome(old(db.users), userId, u, isLetter)
    ensures db.users == if r.Ok? then old(db.users)[Trim(userId.value) := r.value] else old(db.users)
  {
    r := UpdateOutcome(db.users, userId, u, isLetter);
    if r.Ok? {
      db.users := db.users[Trim(userId.value) := r.value];
    }
  }

  // ---------------------------------------------------------------- delete and list

  /** `deleteUserRecord`: true exactly when a record with the trimmed id was removed. */
  method DeleteUserRecord(db: Database, userId: Option<string>) returns (r: Result<bool>)
    modifies db`users
    ensures r.Ok? <==> AssertNonEmptyString(userId, "user_id", 128).Ok?
    ensures r.Ok? ==> r.value == (Trim(userId.value) in old(db.users))
                      && db.users == old(db.users) - {Trim(userId.value)}
    ensures r.Err? ==> db.users == old(db.users)
  {
    var normalized := AssertNonEmptyString(userId, "user_id", 128);
    if normalized.Err? {
      return Err(normalized.msg);
    }
    var id := normalized.value;
    r := Ok(id in db.users);
    db.users := db.users - {id};
  }

  /** `countUserRecords`: `COUNT(*)` over the table. */
  function CountUserRecords(users: map<string, UserRecord>): (n: nat)
  {
    |users|
  }

  /** A successful create adds one record to the count, and deleting a
      present id takes one away. */
  lemma CountFollowsCreateAndDelete(users: map<string, UserRecord>, p: UserPayload, requireFinalized: bool,
                                    isLetter: char -> bool, now: nat, id: string)
    ensures var r := CreateOutcome(users, p, requireFinalized, isLetter, now);
            r.Ok? ==> CountUserRecords(users[r.value.userId := r.value]) == CountUserRecords(users) + 1
    ensures id in users ==> CountUserRecords(users - {id}) == CountUserRecords(users) - 1
    ensures id !in users ==> CountUserRecords(users - {id}) == CountUserRecords(users)
  {
    if id in users {
      assert (users - {id}).Keys == users.Keys - {id};
    } else {
      assert users - {id} == users;
    }
  }

  /** `safeLimit` of `listUserRecords`: the parsed limit, 100 when it is NaN
      or 0, clamped to 1 … 500. */
  function ListLimit(limit: Raw<int>): (k: int)
    ensures 1 <= k <= 500
    ensures var p := limit.Parsed();
            (p.None? || p.value == 0 ==> k == 100)
            && (p.Some? && 1 <= p.value <= 500 ==> k == p.value)
            && (p.Some? && p.value > 500 ==> k == 500)
            && (p.Some? && p.value < 0 ==> k == 1)
  {
    var p := limit.Parsed();
    var n := if p.None? || p.value == 0 then 100 else p.value;
    var capped := if n < 500 then n else 500;
    if capped > 1 then capped else 1
  }

  /** `safeOffset` of `listUserRecords`: the parsed offset, at least 0. */
  function ListOffset(offset: Raw<int>): (k: int)
    ensures k >= 0
    ensures var p := offset.Parsed();
            (p.Some? && p.value >= 0 ==> k == p.value) && (p.None? || p.value < 0 ==> k == 0)
  {
    var p := offset.Parsed();
    var n := if p.None? || p.value == 0 then 0 else p.value;
    if n > 0 then n else 0
  }

  // ---------------------------------------------------------------- stored values revalidate

  /** Text without capitals is its own lower-case form. */
  lemma LowerFixed(s: string)
    requires forall i :: 0 <= i < |s| ==> !IsAsciiUpper(s[i])
    ensures ToLower(s) == s
  {
  }

  /** A stored gender passes validation unchanged. */
  lemma GenderFixed(g: string)
    requires g in Genders
    ensures ValidateGender(Some(g)) == Ok(Some(g))
  {
    assert IsTrimmed(g) && forall i :: 0 <= i < |g| ==> !IsAsciiUpper(g[i]);
    TrimmedFixed(g);
    LowerFixed(g);
  }

  lemma EducationFixed(e: string)
    requires EducationStored(e)
    ensures ValidateEducationLevel(Some(e)) == Ok(Some(e))
  {
    if e == [] {
      NoEmptyLevel(e);
    }
    EducationLevelKeepsCase(e);
  }

  lemma SubjectFixed(s: string, isLetter: char -> bool)
    requires SubjectStored(s, isLetter)
    ensures ValidateSubject1(Some(s), isLetter) == Ok(Some(s))
    ensures ValidateSubject2(Some(s), isLetter) == Ok(Some(s))
  {
    TrimmedFixed(s);
  }

  lemma NameFixed(s: string, field: string)
    requires NameStored(s)
    ensures AssertNonEmptyString(Some(s), field, 50) == Ok(s)
  {
    TrimmedFixed(s);
  }

  lemma MajorFixed(s: string)
    requires IsTrimmed(s) && 1 <= |s| <= 150
    ensures ValidateChosenMajor(Some(s)) == Ok(Some(s))
  {
    TrimmedFixed(s);
  }

  lemma ProfileFixed(p: string)
    requires IsProfile(p)
    ensures ValidateProfile(Some(p)) == Ok(p)
  {
    ProfileAccepted(p);
  }

  // ---------------------------------------------------------------- what an update keeps

  /** The profile half of a stored record passes validation unchanged. */
  lemma PersonalRevalidates(e: UserRecord, isLetter: char -> bool)
    requires RecordValid(e, isLetter)
    ensures ValidatePersonal(MergeUser(e, NoUpdate), isLetter)
            == Ok(Personal(e.firstName, e.lastName, e.gender, e.educationLevel, e.favoriteSubject1, e.favoriteSubject2))
  {
    var m := MergeUser(e, NoUpdate);
    NamesKept(e, NoUpdate, m);
    if e.gender.Some? { GenderFixed(e.gender.value); }
    if e.educationLevel.Some? { EducationFixed(e.educationLevel.value); }
    SubjectsKept(e, NoUpdate, m, isLetter);
    PersonalOfFields(m, isLetter, Personal(e.firstName, e.lastName, e.gender, e.educationLevel, e.favoriteSubject1, e.favoriteSubject2));
  }

  /** Six accepted fields make an accepted profile half. */
  lemma PersonalOfFields(p: UserPayload, isLetter: char -> bool, d: Personal)
    requires AssertNonEmptyString(p.firstName, "first_name", 50) == Ok(d.firstName)
    requires AssertNonEmptyString(p.lastName, "last_name", 50) == Ok(d.lastName)
    requires ValidateGender(p.gender) == Ok(d.gender)
    requires ValidateEducationLevel(p.educationLevel) == Ok(d.educationLevel)
    requires ValidateSubject1(p.favoriteSubject1, isLetter) == Ok(d.favoriteSubject1)
    requires ValidateSubject2(p.favoriteSubject2, isLetter) == Ok(d.favoriteSubject2)
    ensures ValidatePersonal(p, isLetter) == Ok(d)
  {
  }

  /** The quiz half of a stored record passes validation unchanged. */
  lemma QuizRevalidates(e: UserRecord)
    requires QuizValid(Quiz(e.scores, e.riasecProfile, e.chosenMajor, e.satisfactionScore))
    ensures ValidateQuiz(MergeUser(e, NoUpdate)) == Ok(Quiz(e.scores, e.riasecProfile, e.chosenMajor, e.satisfactionScore))
  {
    var m := MergeUser(e, NoUpdate);
    var sc := e.scores;
    assert m.scores == Some(ScoresPayload(Stored(sc.R), Stored(sc.I), Stored(sc.A), Stored(sc.S), Stored(sc.E), Stored(sc.C)));
    assert m.riasecProfile == Some(e.riasecProfile) && m.chosenMajor == e.chosenMajor;
    assert m.satisfactionScore == StoredOrNull(e.satisfactionScore);
    ProfileFixed(e.riasecProfile);
    if e.chosenMajor.Some? { MajorFixed(e.chosenMajor.value); }
    QuizOfFields(m, Quiz(e.scores, e.riasecProfile, e.chosenMajor, e.satisfactionScore));
  }

  /** Four accepted fields make an accepted quiz half. */
  lemma QuizOfFields(p: UserPayload, d: Quiz)
    requires p.scores.Some? && ValidateScores(p.scores.value) == Ok(d.scores)
    requires ValidateProfile(p.riasecProfile) == Ok(d.riasecProfile)
    requires ValidateChosenMajor(p.chosenMajor) == Ok(d.chosenMajor)
    requires ValidateSatisfaction(p.satisfactionScore) == Ok(d.satisfactionScore)
    ensures ValidateQuiz(p) == Ok(d)
  {
  }

  /** Re-validating a stored record's own fields gives them back unchanged. */
  lemma StoredRevalidates(e: UserRecord, isLetter: char -> bool)
    requires RecordValid(e, isLetter)
    ensures ValidateFields(MergeUser(e, NoUpdate), isLetter) == Ok(DataOf(e))
  {
    PersonalRevalidates(e, isLetter);
    QuizRevalidates(e);
  }

  /** An update with no fields gives back the stored record when its scores
      add up to 30, and otherwise fails on the sum: the stored profile is
      never null, so every update runs the finalized check. */
  lemma EmptyUpdate(users: map<string, UserRecord>, id: string, isLetter: char -> bool)
    requires UsersValid(users, isLetter) && id in users
    ensures var total := users[id].scores.Total();
            UpdateOutcome(users, Some(id), NoUpdate, isLetter)
            == if total == 30 then Ok(users[id])
               else Err("RIASEC score sum must equal 30, received " + NatToString(total))
  {
    var e := users[id];
    TrimmedFixed(id);
    StoredRevalidates(e, isLetter);
  }

  /** Whatever it carries, a successful update leaves scores that add up to 30. */
  lemma UpdateNeedsThirty(users: map<string, UserRecord>, userId: Option<string>, u: UserUpdate, isLetter: char -> bool)
    ensures var r := UpdateOutcome(users, userId, u, isLetter);
            r.Ok? ==> r.value.scores.Total() == 30
  {
    var r := UpdateOutcome(users, userId, u, isLetter);
    if r.Ok? {
      var e := users[Trim(userId.value)];
      assert ShouldRequireFinalized(MergeUser(e, u));
    }
  }

  /** The profile fields an update leaves out keep their stored values. */
  lemma PersonalKept(e: UserRecord, u: UserUpdate, isLetter: char -> bool)
    requires RecordValid(e, isLetter)
    ensures var v := ValidatePersonal(MergeUser(e, u), isLetter);
            v.Ok? ==> (u.firstName.None? ==> v.value.firstName == e.firstName)
                      && (u.lastName.None? ==> v.value.lastName == e.lastName)
                      && (u.gender.None? ==> v.value.gender == e.gender)
                      && (u.educationLevel.None? ==> v.value.educationLevel == e.educationLevel)
                      && (u.favoriteSubject1.None? ==> v.value.favoriteSubject1 == e.favoriteSubject1)
                      && (u.favoriteSubject2.None? ==> v.value.favoriteSubject2 == e.favoriteSubject2)
  {
    var m := MergeUser(e, u);
    NamesKept(e, u, m);
    if u.gender.None? && e.gender.Some? { assert m.gender == e.gender; GenderFixed(e.gender.value); }
    if u.educationLevel.None? && e.educationLevel.Some? {
      assert m.educationLevel == e.educationLevel;
      EducationFixed(e.educationLevel.value);
    }
    SubjectsKept(e, u, m, isLetter);
  }

  lemma NamesKept(e: UserRecord, u: UserUpdate, m: UserPayload)
    requires NameStored(e.firstName) && NameStored(e.lastName) && m == MergeUser(e, u)
    ensures u.firstName.None? ==> AssertNonEmptyString(m.firstName, "first_name", 50) == Ok(e.firstName)
    ensures u.lastName.None? ==> AssertNonEmptyString(m.lastName, "last_name", 50) == Ok(e.lastName)
  {
    if u.firstName.None? { assert m.firstName == Some(e.firstName); NameFixed(e.firstName, "first_name"); }
    if u.lastName.None? { assert m.lastName == Some(e.lastName); NameFixed(e.lastName, "last_name"); }
  }

  lemma SubjectsKept(e: UserRecord, u: UserUpdate, m: UserPayload, isLetter: char -> bool)
    requires m == MergeUser(e, u)
    requires e.favoriteSubject1.Some? ==> SubjectStored(e.favoriteSubject1.value, isLetter)
    requires e.favoriteSubject2.Some? ==> SubjectStored(e.favoriteSubject2.value, isLetter)
    ensures u.favoriteSubject1.None? ==> ValidateSubject1(m.favoriteSubject1, isLetter) == Ok(e.favoriteSubject1)
    ensures u.favoriteSubject2.None? ==> ValidateSubject2(m.favoriteSubject2, isLetter) == Ok(e.favoriteSubject2)
  {
    if u.favoriteSubject1.None? && e.favoriteSubject1.Some? { SubjectFixed(e.favoriteSubject1.value, isLetter); }
    if u.favoriteSubject2.None? && e.favoriteSubject2.Some? { SubjectFixed(e.favoriteSubject2.value, isLetter); }
  }

  /** The quiz fields an update leaves out keep their stored values. */
  lemma QuizKept(e: UserRecord, u: UserUpdate)
    requires QuizValid(Quiz(e.scores, e.riasecProfile, e.chosenMajor, e.satisfactionScore))
    ensures var v := ValidateQuiz(MergeUser(e, u));
            v.Ok? ==> (u.riasecProfile.None? ==> v.value.riasecProfile == e.riasecProfile)
                      && (u.chosenMajor.None? ==> v.value.chosenMajor == e.chosenMajor)
                      && (u.satisfactionScore.Missing? ==> v.value.satisfactionScore == e.satisfactionScore)
                      && (u.nested.R.Missing? && u.flat.R.Missing? ==> v.value.scores.R == e.scores.R)
                      && (u.nested.I.Missing? && u.flat.I.Missing? ==> v.value.scores.I == e.scores.I)
                      && (u.nested.A.Missing? && u.flat.A.Missing? ==> v.value.scores.A == e.scores.A)
                      && (u.nested.S.Missing? && u.flat.S.Missing? ==> v.value.scores.S == e.scores.S)
                      && (u.nested.E.Missing? && u.flat.E.Missing? ==> v.value.scores.E == e.scores.E)
                      && (u.nested.C.Missing? && u.flat.C.Missing? ==> v.value.scores.C == e.scores.C)
  {
    var m := MergeUser(e, u);
    if u.riasecProfile.None? { assert m.riasecProfile == Some(e.riasecProfile); ProfileFixed(e.riasecProfile); }
    if u.chosenMajor.None? && e.chosenMajor.Some? {
      assert m.chosenMajor == e.chosenMajor;
      MajorFixed(e.chosenMajor.value);
    }
  }

  /** The six scores as an update object carries them. */
  function GivenScores(sc: ScoreRecord): ScoresPayload {
    ScoresPayload(Stored(sc.R), Stored(sc.I), Stored(sc.A), Stored(sc.S), Stored(sc.E), Stored(sc.C))
  }

  /** Scores and a profile the update gives replace the stored ones. */
  lemma QuizApplied(e: UserRecord, u: UserUpdate, sc: ScoreRecord)
    requires u.nested == GivenScores(sc)
    ensures var v := ValidateQuiz(MergeUser(e, u));
            v.Ok? ==> v.value.scores == sc
                      && (!IsNullish(u.riasecProfile) ==> v.value.riasecProfile == ToUpper(Trim(u.riasecProfile.value)))
  {
    var m := MergeUser(e, u);
    assert m.scores == Some(GivenScores(sc));
  }

  /** A successful update stores the scores it was given under `scores`
      (they win over `X_score` and the stored ones) and the profile it was
      given, normalised. */
  lemma UpdateAppliesGiven(users: map<string, UserRecord>, userId: Option<string>, u: UserUpdate,
                           isLetter: char -> bool, sc: ScoreRecord)
    requires u.nested == GivenScores(sc)
    ensures var r := UpdateOutcome(users, userId, u, isLetter);
            r.Ok? ==> r.value.scores == sc
                      && (!IsNullish(u.riasecProfile) ==> r.value.riasecProfile == ToUpper(Trim(u.riasecProfile.value)))
  {
    var r := UpdateOutcome(users, userId, u, isLetter);
    if r.Ok? {
      QuizApplied(users[Trim(userId.value)], u, sc);
    }
  }

  /** A field the update leaves null or undefined keeps its stored value, so
      an update can never clear a field to null by omitting it; a score is
      kept when neither `scores.X` nor `X_score` is given. */
  lemma UpdateKeepsUnmentioned(users: map<string, UserRecord>, userId: Option<string>, u: UserUpdate,
                               isLetter: char -> bool)
    requires UsersValid(users, isLetter)
    ensures var r := UpdateOutcome(users, userId, u, isLetter);
            r.Ok? ==> var e := users[Trim(userId.value)];
                      var v := DataOf(r.value);
                      (u.firstName.None? ==> v.firstName == e.firstName)
                      && (u.lastName.None? ==> v.lastName == e.lastName)
                      && (u.gender.None? ==> v.gender == e.gender)
                      && (u.educationLevel.None? ==> v.educationLevel == e.educationLevel)
                      && (u.favoriteSubject1.None? ==> v.favoriteSubject1 == e.favoriteSubject1)
                      && (u.favoriteSubject2.None? ==> v.favoriteSubject2 == e.favoriteSubject2)
                      && (u.riasecProfile.None? ==> v.riasecProfile == e.riasecProfile)
                      && (u.chosenMajor.None? ==> v.chosenMajor == e.chosenMajor)
                      && (u.satisfactionScore.Missing? ==> v.satisfactionScore == e.satisfactionScore)
                      && (u.nested.R.Missing? && u.flat.R.Missing? ==> v.scores.R == e.scores.R)
                      && (u.nested.I.Missing? && u.flat.I.Missing? ==> v.scores.I == e.scores.I)
                      && (u.nested.A.Missing? && u.flat.A.Missing? ==> v.scores.A == e.scores.A)
                      && (u.nested.S.Missing? && u.flat.S.Missing? ==> v.scores.S == e.scores.S)
                      && (u.nested.E.Missing? && u.flat.E.Missing? ==> v.scores.E == e.scores.E)
                      && (u.nested.C.Missing? && u.flat.C.Missing? ==> v.scores.C == e.scores.C)
  {
    var r := UpdateOutcome(users, userId, u, isLetter);
    if r.Ok? {
      var e := users[Trim(userId.value)];
      PersonalKept(e, u, isLetter);
      QuizKept(e, u);
    }
  }

  /** An update keeps the table valid: the record stays under its id with
      validated fields. */
  lemma UpdateKeepsValid(users: map<string, UserRecord>, userId: Option<string>, u: UserUpdate, isLetter: char -> bool)
    requires UsersValid(users, isLetter)
    ensures var r := UpdateOutcome(users, userId, u, isLetter);
            r.Ok? ==> UsersValid(users[Trim(userId.value) := r.value], isLetter)
                      && GetUserRecordById(users[Trim(userId.value) := r.value], userId) == Ok(Some(r.value))
  {
  }
}
