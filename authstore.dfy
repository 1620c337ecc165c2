/** The JSON-file credential store of backend/src/authStore.js: one credential
    and at most one pending verification per e-mail address. The store is the
    in-memory `cache`; reading and writing the JSON file is left out. */
module AuthStore {
  import opened Common

  datatype Credential = Credential(userId: string, password: string, verifiedAt: string)

  /** What a caller hands to `saveCredential`; `verifiedAt` None stands for a
      missing or null value. */
  datatype CredentialPayload = CredentialPayload(userId: string, password: string, verifiedAt: Option<string>)

  /** A pending verification. `attemptCount` is None when the entry has no count
      (an entry loaded from a file without one). */
  datatype Verification = Verification(password: string, codeHash: string, expiresAt: int,
                                       attemptCount: Option<int>, createdAt: string)

  datatype VerificationPayload = VerificationPayload(password: string, codeHash: string, expiresAt: int,
                                                     attemptCount: Option<int>, createdAt: Option<string>)

  /** `value || fallback` for an optional string: a missing or empty value gives
      the fallback. */
  function OrDefault(value: Option<string>, fallback: string): (r: string)
    ensures value.Some? && value.value != "" ==> r == value.value
    ensures value.None? || value.value == "" ==> r == fallback
  {
    if value.Some? && value.value != "" then value.value else fallback
  }

  /** The credential `saveCredential` stores, with the current time as `now`. */
  function CredentialOf(payload: CredentialPayload, now: string): (r: Credential)
    ensures r.userId == payload.userId && r.password == payload.password
    ensures r.verifiedAt == OrDefault(payload.verifiedAt, now)
    ensures now != "" ==> r.verifiedAt != ""
  {
    Credential(payload.userId, payload.password, OrDefault(payload.verifiedAt, now))
  }

  /** `attemptCount || 0`: the number of attempts so far, a missing count
      being 0. */
  function AttemptsOf(v: Verification): int {
    if v.attemptCount.Some? then v.attemptCount.value else 0
  }

  /** The verification `saveVerification` stores, with the current time as `now`. */
  function VerificationOf(payload: VerificationPayload, now: string): (r: Verification)
    ensures r.password == payload.password && r.codeHash == payload.codeHash
    ensures r.expiresAt == payload.expiresAt
    ensures r.attemptCount.Some?
    ensures AttemptsOf(r) == if payload.attemptCount.Some? then payload.attemptCount.value else 0
    ensures r.createdAt == OrDefault(payload.createdAt, now)
  {
    Verification(payload.password, payload.codeHash, payload.expiresAt,
                 Some(if payload.attemptCount.Some? then payload.attemptCount.value else 0),
                 OrDefault(payload.createdAt, now))
  }

  /** `incrementVerificationAttempt`'s update of one entry. */
  function Incremented(v: Verification): (r: Verification)
    ensures AttemptsOf(r) == AttemptsOf(v) + 1
    ensures r.password == v.password && r.codeHash == v.codeHash
    ensures r.expiresAt == v.expiresAt && r.createdAt == v.createdAt
  {
    v.(attemptCount := Some(AttemptsOf(v) + 1))
  }

  /** An entry after `n` calls of `incrementVerificationAttempt`. */
  function IncrementedTimes(v: Verification, n: nat): Verification
    decreases n
  {
    if n == 0 then v else Incremented(IncrementedTimes(v, n - 1))
  }

  /** The counter counts: `n` increments add `n` to the attempts, whatever the
      entry held before (a fresh entry saved without a count starts at 0). */
  lemma {:induction false} IncrementsCount(v: Verification, n: nat)
    ensures AttemptsOf(IncrementedTimes(v, n)) == AttemptsOf(v) + n
    ensures IncrementedTimes(v, n).codeHash == v.codeHash
    ensures IncrementedTimes(v, n).expiresAt == v.expiresAt
    decreases n
  {
    if n > 0 {
      IncrementsCount(v, n - 1);
    }
  }

  /** The module-level `cache` of backend/src/authStore.js, keyed by e-mail. */
  class AuthCache {
    var credentials: map<string, Credential>
    var verifications: map<string, Verification>

    constructor ()
      ensures credentials == map[] && verifications == map[]
    {
      credentials := map[];
      verifications := map[];
    }

    /** `getCredential`: None (null) for an unknown e-mail. */
    function GetCredential(email: string): (r: Option<Credential>)
      reads this
      ensures r.None? <==> email !in credentials
      ensures r.Some? ==> r.value == credentials[email]
    {
      if email in credentials then Some(credentials[email]) else None
    }

    /** `saveCredential`: replaces this e-mail's entry and no other. */
    method SaveCredential(email: string, payload: CredentialPayload, now: string) returns (r: Credential)
      modifies this`credentials
      ensures r == CredentialOf(payload, now)
      ensures credentials == old(credentials)[email := r]
      ensures GetCredential(email) == Some(r)
    {
      r := CredentialOf(payload, now);
      credentials := credentials[email := r];
    }

    /** `getVerification`: None (null) for an unknown e-mail. */
    function GetVerification(email: string): (r: Option<Verification>)
      reads this
      ensures r.None? <==> email !in verifications
      ensures r.Some? ==> r.value == verifications[email]
    {
      if email in verifications then Some(verifications[email]) else None
    }

    /** `saveVerification`: replaces this e-mail's entry and no other; the
        attempt count defaults to 0. */
    method SaveVerification(email: string, payload: VerificationPayload, now: string) returns (r: Verification)
      modifies this`verifications
      ensures r == VerificationOf(payload, now)
      ensures verifications == old(verifications)[email := r]
      ensures GetVerification(email) == Some(r)
    {
      r := VerificationOf(payload, now);
      verifications := verifications[email := r];
    }

    /** `incrementVerificationAttempt`: None (null) and no change for an unknown
        e-mail, else one more attempt on that entry. */
    method IncrementVerificationAttempt(email: string) returns (r: Option<Verification>)
      modifies this`verifications
      ensures email !in old(verifications) ==> r == None && verifications == old(verifications)
      ensures email in old(verifications) ==>
                r == Some(Incremented(old(verifications)[email]))
                && verifications == old(verifications)[email := r.value]
    {
      if email !in verifications {
        return None;
      }
      var current := Incremented(verifications[email]);
      verifications := verifications[email := current];
      r := Some(current);
    }

    /** `clearVerification`: removes this e-mail's entry, if any, and no other. */
    method ClearVerification(email: string)
      modifies this`verifications
      ensures verifications == old(verifications) - {email}
      ensures email !in old(verifications) ==> verifications == old(verifications)
    {
      if email in verifications {
        verifications := verifications - {email};
      }
    }
  }
}
