/** The JSON-file user store of backend/src/userStore.js: users are found or
    created by name and surname, and each keeps its quiz results newest first.
    The store is the in-memory `cache.users` list; reading and writing the JSON
    file is left out. The payload fields of a result are opaque JSON values of
    type `J`. */
module UserStore {
  import opened Common
  import opened Text

  /** A result as `recordUserResult` stores it. */
  datatype StoredResult<J> = StoredResult(id: string, profile: J, scores: J, answers: J,
                                          recommendations: J, createdAt: string)

  /** The fields of a result the caller supplies. */
  datatype ResultPayload<J> = ResultPayload(profile: J, scores: J, answers: J, recommendations: J)

  /** An entry of `cache.users`. `results` is None when the entry has no results
      array (an entry loaded from a file without one). */
  datatype User<J> = User(id: string, name: string, surname: string, createdAt: string,
                          results: Option<seq<StoredResult<J>>>)

  /** `user.results || []`. */
  function ResultsOf<J>(u: User<J>): seq<StoredResult<J>> {
    if u.results.Some? then u.results.value else []
  }

  /** `normalizeKey`: trimmed, lower-cased name and surname joined by "|". */
  function NormalizeKey(name: string, surname: string): (k: string)
    ensures |k| == |Trim(name)| + 1 + |Trim(surname)| && k[|Trim(name)|] == '|'
    ensures forall i :: 0 <= i < |k| ==> !IsAsciiUpper(k[i])
  {
    ToLower(Trim(name)) + "|" + ToLower(Trim(surname))
  }

  function KeyOf<J>(u: User<J>): string {
    NormalizeKey(u.name, u.surname)
  }

  /** A string with no white space and no upper-case letter is its own key part. */
  lemma KeyPartFixed(s: string)
    requires forall i :: 0 <= i < |s| ==> !IsSpace(s[i]) && !IsAsciiUpper(s[i])
    ensures ToLower(Trim(s)) == s
  {
    assert TrimStart(s) == s;
    assert TrimEnd(s) == s;
  }

  /** The key is ambiguous: a "|" inside a name can move to the other side of the
      separator without changing the key, so ("a|b", "c") and ("a", "b|c") find
      the same user. */
  lemma KeyCollision(a: string, b: string, c: string)
    requires forall i :: 0 <= i < |a| ==> !IsSpace(a[i]) && !IsAsciiUpper(a[i])
    requires forall i :: 0 <= i < |b| ==> !IsSpace(b[i]) && !IsAsciiUpper(b[i])
    requires forall i :: 0 <= i < |c| ==> !IsSpace(c[i]) && !IsAsciiUpper(c[i])
    ensures NormalizeKey(a + "|" + b, c) == NormalizeKey(a, b + "|" + c)
    ensures (a + "|" + b, c) != (a, b + "|" + c)
  {
    KeyPartFixed(a + "|" + b);
    KeyPartFixed(b + "|" + c);
    KeyPartFixed(a);
    KeyPartFixed(c);
    assert |a + "|" + b| > |a|;
  }

  lemma {:induction false} LowerOfUpper(s: string)
    ensures ToLower(ToUpper(s)) == ToLower(s)
  {
    forall i | 0 <= i < |s|
      ensures ToLower(ToUpper(s))[i] == ToLower(s)[i]
    {
      assert ToUpper(s)[i] == UpperChar(s[i]);
    }
  }

  lemma KeyIgnoresSpace(name: string, surname: string)
    ensures NormalizeKey(Trim(name), Trim(surname)) == NormalizeKey(name, surname)
  {
    TrimIdempotent(name);
    TrimIdempotent(surname);
  }

  /** The key ignores surrounding white space and letter case. */
  lemma KeyIgnoresCaseAndSpace(name: string, surname: string)
    ensures NormalizeKey(Trim(name), Trim(surname)) == NormalizeKey(name, surname)
    ensures NormalizeKey(ToUpper(name), ToUpper(surname)) == NormalizeKey(name, surname)
  {
    KeyIgnoresSpace(name, surname);
    TrimUpper(name);
    TrimUpper(surname);
    LowerOfUpper(Trim(name));
    LowerOfUpper(Trim(surname));
  }

  /** The position of the first occurrence of `key` in `keys`. */
  function FirstIndex(keys: seq<string>, key: string): (r: Option<nat>)
    ensures r.Some? ==> r.value < |keys| && keys[r.value] == key
    ensures r.Some? ==> forall j :: 0 <= j < r.value ==> keys[j] != key
    ensures r.None? ==> forall j :: 0 <= j < |keys| ==> keys[j] != key
    decreases |keys|
  {
    if |keys| == 0 then None
    else if keys[0] == key then Some(0)
    else
      var rest := FirstIndex(keys[1..], key);
      assert forall j :: 1 <= j < |keys| ==> keys[j] == keys[1..][j - 1];
      if rest.Some? then Some(rest.value + 1) else None
  }

  function Keys<J>(users: seq<User<J>>): (keys: seq<string>)
    ensures |keys| == |users| && forall j :: 0 <= j < |users| ==> keys[j] == KeyOf(users[j])
  {
    seq(|users|, j requires 0 <= j < |users| => KeyOf(users[j]))
  }

  /** `cache.users.find` by key: the index of the first user with that key. */
  function FindByKey<J>(users: seq<User<J>>, key: string): (r: Option<nat>)
    ensures r.Some? ==> r.value < |users| && KeyOf(users[r.value]) == key
    ensures r.Some? ==> forall j :: 0 <= j < r.value ==> KeyOf(users[j]) != key
    ensures r.None? ==> forall j :: 0 <= j < |users| ==> KeyOf(users[j]) != key
  {
    FirstIndex(Keys(users), key)
  }

  /** `getUserById`: the index of the first user with that id. */
  function FindById<J>(users: seq<User<J>>, userId: string): (r: Option<nat>)
    ensures r.Some? ==> r.value < |users| && users[r.value].id == userId
    ensures r.Some? ==> forall j :: 0 <= j < r.value ==> users[j].id != userId
    ensures r.None? ==> forall j :: 0 <= j < |users| ==> users[j].id != userId
    decreases |users|
  {
    if |users| == 0 then None
    else if users[0].id == userId then Some(0)
    else
      var rest := FindById(users[1..], userId);
      assert forall j :: 1 <= j < |users| ==> users[j] == users[1..][j - 1];
      if rest.Some? then Some(rest.value + 1) else None
  }

  /** The user `getOrCreateUser` appends when no key matches. */
  function NewUser<J>(id: string, name: string, surname: string, now: string): User<J> {
    User(id, name, surname, now, Some([]))
  }

  /** `recordUserResult`'s update of one user: the result goes in front, whether
      or not the user had a results array. */
  function Prepended<J>(u: User<J>, stored: StoredResult<J>): (r: User<J>)
    ensures ResultsOf(r) == [stored] + ResultsOf(u)
    ensures r.id == u.id && r.name == u.name && r.surname == u.surname && r.createdAt == u.createdAt
  {
    if u.results.Some? then u.(results := Some([stored] + u.results.value))
    else u.(results := Some([stored]))
  }

  lemma {:induction false} FirstIndexAppend(keys: seq<string>, key: string)
    requires FirstIndex(keys, key).None?
    ensures FirstIndex(keys + [key], key) == Some(|keys|)
    decreases |keys|
  {
    if |keys| > 0 {
      assert (keys + [key])[1..] == keys[1..] + [key];
      FirstIndexAppend(keys[1..], key);
    }
  }

  /** A user appended for a new key is what a second lookup of that key finds,
      so a second `getOrCreateUser` with the same names does not grow the list. */
  lemma CreatedIsFound<J>(users: seq<User<J>>, name: string, surname: string, id: string, now: string)
    requires FindByKey(users, NormalizeKey(name, surname)).None?
    ensures FindByKey(users + [NewUser<J>(id, name, surname, now)], NormalizeKey(name, surname))
            == Some(|users|)
  {
    var key := NormalizeKey(name, surname);
    var added := NewUser<J>(id, name, surname, now);
    assert Keys(users + [added]) == Keys(users) + [key];
    FirstIndexAppend(Keys(users), key);
  }

  /** Recording a result for a known user moves only that user's results: the
      same user is found by id, its results are the new one followed by the old
      ones, and every other entry is the same. */
  lemma {:induction false} RecordKeepsLookup<J>(users: seq<User<J>>, userId: string, stored: StoredResult<J>)
    requires FindById(users, userId).Some?
    ensures var i := FindById(users, userId).value;
            var after := users[i := Prepended(users[i], stored)];
            FindById(after, userId) == Some(i)
            && ResultsOf(after[i]) == [stored] + ResultsOf(users[i])
            && forall j :: 0 <= j < |users| && j != i ==> after[j] == users[j]
    decreases |users|
  {
    var i := FindById(users, userId).value;
    var after := users[i := Prepended(users[i], stored)];
    if i > 0 {
      assert users[0].id != userId;
      assert after[1..] == users[1..][i - 1 := Prepended(users[1..][i - 1], stored)];
      RecordKeepsLookup(users[1..], userId, stored);
    }
  }

  /** The module-level `cache` of backend/src/userStore.js. */
  class UserCache<J> {
    var users: seq<User<J>>

    constructor ()
      ensures users == []
    {
      users := [];
    }

    /** `getOrCreateUser`, with `randomUUID()` and the current time as
        parameters. The returned user is a value: later changes to the store do
        not reach it. */
    method GetOrCreateUser(rawName: string, rawSurname: string, freshId: string, now: string)
      returns (r: Result<User<J>>)
      modifies this`users
      ensures r.Err? <==> Trim(rawName) == [] || Trim(rawSurname) == []
      ensures r.Err? ==> r.msg == "Both name and surname are required" && users == old(users)
      ensures r.Ok? ==>
                var found := FindByKey(old(users), NormalizeKey(rawName, rawSurname));
                if found.Some? then
                  users == old(users) && r.value == old(users)[found.value].(results := Some(ResultsOf(old(users)[found.value])))
                else
                  users == old(users) + [r.value] && r.value == NewUser(freshId, Trim(rawName), Trim(rawSurname), now)
      ensures r.Ok? ==> KeyOf(r.value) == NormalizeKey(rawName, rawSurname) && FindById(users, r.value.id).Some?
    {
      var name := Trim(rawName);
      var surname := Trim(rawSurname);
      if name == [] || surname == [] {
        return Err("Both name and surname are required");
      }
      var key := NormalizeKey(name, surname);
      KeyIgnoresSpace(rawName, rawSurname);
      var found := FindByKey(users, key);
      var user;
      ghost var at: nat;
      if found.None? {
        user := NewUser(freshId, name, surname, now);
        users := users + [user];
        at := |users| - 1;
      } else {
        user := users[found.value];
        at := found.value;
      }
      assert at < |users| && users[at].id == user.id;
      r := Ok(user.(results := Some(ResultsOf(user))));
    }

    /** `getUserById`. */
    function GetUserById(userId: string): (r: Option<User<J>>)
      reads this
      ensures r.Some? <==> exists j :: 0 <= j < |users| && users[j].id == userId
      ensures r.Some? ==> r.value.id == userId
      ensures r.Some? ==> exists j :: 0 <= j < |users| && users[j] == r.value
                                      && forall k :: 0 <= k < j ==> users[k].id != userId
    {
      var found := FindById(users, userId);
      if found.Some? then Some(users[found.value]) else None
    }

    /** `getUserResults`. */
    function GetUserResults(userId: string): (r: Result<seq<StoredResult<J>>>)
      reads this
      ensures r.Err? <==> forall j :: 0 <= j < |users| ==> users[j].id != userId
      ensures r.Err? ==> r.msg == "User not found"
      ensures r.Ok? ==> exists j :: 0 <= j < |users| && users[j].id == userId && r.value == ResultsOf(users[j])
                                    && forall k :: 0 <= k < j ==> users[k].id != userId
    {
      var found := FindById(users, userId);
      if found.Some? then Ok(ResultsOf(users[found.value])) else Err("User not found")
    }

    /** `recordUserResult`, with `randomUUID()` and the current time as
        parameters: the new result goes in front of the user's results. */
    method RecordUserResult(userId: string, payload: ResultPayload<J>, freshId: string, now: string)
      returns (r: Result<StoredResult<J>>)
      modifies this`users
      ensures FindById(old(users), userId).None? ==> r == Err("User not found") && users == old(users)
      ensures FindById(old(users), userId).Some? ==>
                var i := FindById(old(users), userId).value;
                r == Ok(StoredResult(freshId, payload.profile, payload.scores, payload.answers,
                                     payload.recommendations, now))
                && users == old(users)[i := Prepended(old(users)[i], r.value)]
    {
      var found := FindById(users, userId);
      if found.None? {
        return Err("User not found");
      }
      var stored := StoredResult(freshId, payload.profile, payload.scores, payload.answers,
                                 payload.recommendations, now);
      users := users[found.value := Prepended(users[found.value], stored)];
      r := Ok(stored);
    }
  }
}
