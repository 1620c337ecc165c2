/** The helpers of backend/src/server.js: e-mail and password checks, e-mail
    normalisation, deriving a name from an e-mail address, the profile
    sanitising of `/api/recommend`, and the registration route that combines
    them with the user and credential stores. */
module Server {
  import opened Common
  import opened Text
  import Riasec
  import Majors
  import UserStore
  import AuthStore

  /** `regex.test` for a one-character class: some character of `s` is in it. */
  function Any(s: string, p: char -> bool): (r: bool)
    ensures r <==> exists i :: 0 <= i < |s| && p(s[i])
    decreases |s|
  {
    if |s| == 0 then false
    else if p(s[0]) then true
    else
      assert forall i :: 1 <= i < |s| ==> s[i] == s[1..][i - 1];
      Any(s[1..], p)
  }

  /** The position of the first `c` in `s`. */
  function IndexOf(s: string, c: char): (r: Option<nat>)
    ensures r.Some? ==> r.value < |s| && s[r.value] == c
    ensures r.Some? ==> forall i :: 0 <= i < r.value ==> s[i] != c
    ensures r.None? ==> forall i :: 0 <= i < |s| ==> s[i] != c
    decreases |s|
  {
    if |s| == 0 then None
    else if s[0] == c then Some(0)
    else
      var rest := IndexOf(s[1..], c);
      assert forall i :: 1 <= i < |s| ==> s[i] == s[1..][i - 1];
      if rest.Some? then Some(rest.value + 1)
      else None
  }

  predicate IsDot(c: char) { c == '.' }

  /** A character of the class `[^\s@]`. */
  predicate Plain(c: char) { !IsSpace(c) && c != '@' }

  predicate AllPlain(s: string) {
    forall i :: 0 <= i < |s| ==> Plain(s[i])
  }

  /** `isValidEmail`, i.e. the pattern `^[^\s@]+@[^\s@]+\.[^\s@]+$`: no white
      space, one "@" after a non-empty local part, and a "." in the domain that
      is neither its first nor its last character. */
  function IsValidEmail(s: string): (r: bool)
    ensures r ==> 0 < |s| && s[0] != '@' && '@' in s && forall i :: 0 <= i < |s| ==> !IsSpace(s[i])
  {
    !Any(s, IsSpace)
    && match IndexOf(s, '@')
       case None => false
       case Some(at) =>
         var domain := s[at + 1..];
         at > 0 && '@' !in domain && |domain| >= 3 && Any(domain[1..|domain| - 1], IsDot)
  }

  /** The pattern as the source writes it: a local part, "@", a domain name,
      "." and a top-level part, none of them empty and none holding white space
      or "@". */
  ghost predicate MatchesEmailPattern(s: string) {
    exists a: string, b: string, c: string {:trigger a + "@" + b + "." + c} ::
      s == a + "@" + b + "." + c && a != "" && b != "" && c != ""
      && AllPlain(a) && AllPlain(b) && AllPlain(c)
  }

  /** Every address `IsValidEmail` accepts matches the pattern. */
  lemma ValidEmailMatches(s: string)
    requires IsValidEmail(s)
    ensures MatchesEmailPattern(s)
  {
    var at := IndexOf(s, '@').value;
    var domain := s[at + 1..];
    var inner := domain[1..|domain| - 1];
    var j :| 0 <= j < |inner| && IsDot(inner[j]);
    assert inner[j] == domain[j + 1] == s[at + j + 2];
    assert s[at + j + 2] == '.';
    ValidEmailPlain(s, at);
    var a, b, c := s[..at], s[at + 1..at + j + 2], s[at + j + 3..];
    InfixPlain(s, 0, at, at);
    InfixPlain(s, at + 1, at + j + 2, at);
    InfixPlain(s, at + j + 3, |s|, at);
    Reassemble(s, at, at + j + 2);
  }

  /** An address cut at its "@" and at a later "." is put back together by
      the pattern's concatenation. */
  lemma Reassemble(s: string, p: nat, q: nat)
    requires p < q < |s| && s[p] == '@' && s[q] == '.'
    ensures s == s[..p] + "@" + s[p + 1..q] + "." + s[q + 1..]
  {
    assert s[p + 1..] == s[p + 1..q] + "." + s[q + 1..];
    assert s == s[..p] + "@" + s[p + 1..];
  }

  /** In an accepted address every character but the one "@" is plain. */
  lemma ValidEmailPlain(s: string, at: nat)
    requires IsValidEmail(s) && IndexOf(s, '@') == Some(at)
    ensures forall i :: 0 <= i < |s| && i != at ==> Plain(s[i])
  {
    var domain := s[at + 1..];
    forall i | 0 <= i < |s| && i != at ensures Plain(s[i]) {
      if i > at {
        assert s[i] == domain[i - at - 1];
      }
    }
  }

  /** A stretch of plain characters is all plain. */
  lemma InfixPlain(s: string, lo: nat, hi: nat, at: nat)
    requires lo <= hi <= |s| && (hi <= at || at < lo)
    requires forall i :: 0 <= i < |s| && i != at ==> Plain(s[i])
    ensures AllPlain(s[lo..hi])
  {
    var x := s[lo..hi];
    forall i | 0 <= i < |x| ensures Plain(x[i]) {
      assert x[i] == s[lo + i];
    }
  }

  /** The address the pattern builds from its three parts has no white space. */
  lemma PatternHasNoSpace(a: string, b: string, c: string)
    requires AllPlain(a) && AllPlain(b) && AllPlain(c)
    ensures !Any(a + "@" + b + "." + c, IsSpace)
  {
    var s := a + "@" + b + "." + c;
    forall i | 0 <= i < |s| ensures !IsSpace(s[i]) {
      if i < |a| {
        assert s[i] == a[i];
      } else if |a| < i <= |a| + |b| {
        assert s[i] == b[i - |a| - 1];
      } else if i > |a| + |b| + 1 {
        assert s[i] == c[i - |a| - |b| - 2];
      }
    }
  }

  /** The first "@" of `a@rest` is the one after `a` when `a` has none. */
  lemma FirstAt(a: string, rest: string)
    requires AllPlain(a)
    ensures IndexOf(a + ['@'] + rest, '@') == Some(|a|)
  {
    var s := a + ['@'] + rest;
    assert s[|a|] == '@';
    assert forall i :: 0 <= i < |a| ==> s[i] == a[i];
  }

  lemma DomainPlain(b: string, c: string)
    requires AllPlain(b) && AllPlain(c)
    ensures '@' !in b + "." + c
  {
    var domain := b + "." + c;
    forall i | 0 <= i < |domain| ensures domain[i] != '@' {
      if i < |b| {
        assert domain[i] == b[i];
      } else if i > |b| {
        assert domain[i] == c[i - |b| - 1];
      }
    }
  }

  /** Every address the pattern matches is accepted by `IsValidEmail`. */
  lemma PatternValid(a: string, b: string, c: string)
    requires a != "" && b != "" && c != "" && AllPlain(a) && AllPlain(b) && AllPlain(c)
    ensures IsValidEmail(a + "@" + b + "." + c)
  {
    var s := a + "@" + b + "." + c;
    var domain := b + "." + c;
    PatternHasNoSpace(a, b, c);
    assert s == a + ['@'] + domain;
    FirstAt(a, domain);
    assert IndexOf(s, '@') == Some(|a|);
    assert s[|a| + 1..] == domain;
    DomainPlain(b, c);
    var inner := domain[1..|domain| - 1];
    assert IsDot(inner[|b| - 1]);
    assert Any(inner, IsDot);
  }

  lemma MatchedEmailValid(s: string)
    requires MatchesEmailPattern(s)
    ensures IsValidEmail(s)
  {
    var a: string, b: string, c: string :| s == a + "@" + b + "." + c && a != "" && b != "" && c != ""
      && AllPlain(a) && AllPlain(b) && AllPlain(c);
    PatternValid(a, b, c);
  }

  /** `IsValidEmail` accepts exactly the strings the pattern matches. */
  lemma IsValidEmailMatchesPattern(s: string)
    ensures IsValidEmail(s) <==> MatchesEmailPattern(s)
  {
    if IsValidEmail(s) {
      ValidEmailMatches(s);
    }
    if MatchesEmailPattern(s) {
      MatchedEmailValid(s);
    }
  }

  /** `isStrongPassword`; None stands for a value that is not a string. */
  function IsStrongPassword(value: Option<string>): (r: bool)
    ensures r <==> value.Some? && |value.value| >= 8
                   && (exists i :: 0 <= i < |value.value| && IsAsciiUpper(value.value[i]))
                   && (exists i :: 0 <= i < |value.value| && IsAsciiDigit(value.value[i]))
                   && (exists i :: 0 <= i < |value.value| && !IsAsciiAlnum(value.value[i]))
  {
    value.Some? && |value.value| >= 8
    && Any(value.value, IsAsciiUpper)
    && Any(value.value, IsAsciiDigit)
    && Any(value.value, c => !IsAsciiAlnum(c))
  }

  /** `normalizeEmail`: trimmed and lower-cased. */
  function NormalizeEmail(email: string): (r: string)
    ensures |r| <= |email| && forall i :: 0 <= i < |r| ==> !IsAsciiUpper(r[i])
  {
    ToLower(Trim(email))
  }

  /** Normalising an address twice is normalising it once. */
  lemma NormalizeEmailIdempotent(email: string)
    ensures NormalizeEmail(NormalizeEmail(email)) == NormalizeEmail(email)
  {
    TrimLower(Trim(email));
    TrimIdempotent(email);
    ToLowerIdempotent(Trim(email));
  }

  // ------------------------------------------------------------ toNameParts

  /** `email.split('@')[0]`: the text before the first "@", or all of it. */
  function LocalPart(email: string): string {
    Split(email, '@')[0]
  }

  /** The local part holds no "@" and is where the address starts. */
  lemma {:induction false} LocalPartBeforeAt(email: string)
    ensures '@' !in LocalPart(email)
    ensures |LocalPart(email)| <= |email| && email[..|LocalPart(email)|] == LocalPart(email)
    ensures |LocalPart(email)| < |email| ==> email[|LocalPart(email)|] == '@'
    decreases |email|
  {
    if |email| > 0 && email[0] != '@' {
      LocalPartBeforeAt(email[1..]);
      assert LocalPart(email) == [email[0]] + LocalPart(email[1..]);
    }
  }

  /** Drops the leading run of characters that are not letters or digits. */
  function SkipNonWord(s: string): (r: string)
    ensures |r| <= |s| && r == s[|s| - |r|..]
    ensures r == [] || IsAsciiAlnum(r[0])
    ensures forall i :: 0 <= i < |s| - |r| ==> !IsAsciiAlnum(s[i])
    decreases |s|
  {
    if |s| > 0 && !IsAsciiAlnum(s[0]) then SkipNonWord(s[1..]) else s
  }

  predicate NoDoubleSpace(s: string) {
    forall i :: 0 <= i < |s| - 1 ==> !(s[i] == ' ' && s[i + 1] == ' ')
  }

  predicate WordsAndSpaces(s: string) {
    forall i :: 0 <= i < |s| ==> IsAsciiAlnum(s[i]) || s[i] == ' '
  }

  /** `replace(/[^a-zA-Z0-9]+/g, ' ')`: every run of other characters becomes
      one space. */
  function Collapse(s: string): (r: string)
    ensures WordsAndSpaces(r) && NoDoubleSpace(r)
    ensures s == [] ==> r == []
    ensures s != [] && IsAsciiAlnum(s[0]) ==> r != [] && r[0] == s[0]
    decreases |s|
  {
    if s == [] then []
    else if IsAsciiAlnum(s[0]) then [s[0]] + Collapse(s[1..])
    else " " + Collapse(SkipNonWord(s))
  }

  /** The letters and digits of `s`, in order. */
  function WordChars(s: string): string
    decreases |s|
  {
    if s == [] then [] else (if IsAsciiAlnum(s[0]) then [s[0]] else []) + WordChars(s[1..])
  }

  lemma {:induction false} WordCharsAppend(a: string, b: string)
    ensures WordChars(a + b) == WordChars(a) + WordChars(b)
    decreases |a|
  {
    if a != [] {
      assert (a + b)[1..] == a[1..] + b;
      WordCharsAppend(a[1..], b);
    } else {
      assert a + b == b;
    }
  }

  lemma {:induction false} WordCharsNone(s: string)
    requires forall i :: 0 <= i < |s| ==> !IsAsciiAlnum(s[i])
    ensures WordChars(s) == []
    decreases |s|
  {
    if s != [] {
      WordCharsNone(s[1..]);
    }
  }

  lemma SpacesHaveNoWordChars(s: string)
    requires forall i :: 0 <= i < |s| ==> IsSpace(s[i])
    ensures WordChars(s) == []
  {
    forall i | 0 <= i < |s|
      ensures !IsAsciiAlnum(s[i])
    {
      var c := s[i];
      assert IsSpace(c);
    }
    WordCharsNone(s);
  }

  /** Collapsing keeps every letter and digit, in order. */
  lemma {:induction false} CollapseKeepsWordChars(s: string)
    ensures WordChars(Collapse(s)) == WordChars(s)
    decreases |s|
  {
    if s != [] {
      if IsAsciiAlnum(s[0]) {
        CollapseKeepsWordChars(s[1..]);
        WordCharsAppend([s[0]], Collapse(s[1..]));
      } else {
        var t := SkipNonWord(s);
        CollapseKeepsWordChars(t);
        WordCharsAppend(" ", Collapse(t));
        assert s == s[..|s| - |t|] + t;
        WordCharsAppend(s[..|s| - |t|], t);
        WordCharsNone(s[..|s| - |t|]);
      }
    }
  }

  /** `localPart.replace(...).trim()`. */
  function Normalized(local: string): string {
    Trim(Collapse(local))
  }

  /** A string `split(/\s+/)` cuts into non-empty words: letters, digits and
      single inner spaces. */
  predicate WellSpaced(t: string) {
    WordsAndSpaces(t) && NoDoubleSpace(t) && (t == [] || (t[0] != ' ' && t[|t| - 1] != ' '))
  }

  /** The trimmed, collapsed local part is well spaced and keeps the letters and
      digits of the local part. */
  lemma NormalizedShape(local: string)
    ensures WellSpaced(Normalized(local))
  {
    var x := Collapse(local);
    var lo, hi := TrimInfix(x);
    InfixWellSpaced(x, lo, hi);
  }

  /** What `trim` keeps is one stretch of its input. */
  lemma TrimInfix(x: string) returns (lo: nat, hi: nat)
    ensures lo <= hi <= |x| && Trim(x) == x[lo..hi]
  {
    var u := TrimStart(x);
    TrimStartSuffix(x);
    lo := |x| - |u|;
    hi := lo + |TrimEnd(u)|;
  }

  /** Any stretch of a string of words and single spaces is one too. */
  lemma InfixWellSpaced(x: string, lo: nat, hi: nat)
    requires WordsAndSpaces(x) && NoDoubleSpace(x) && lo <= hi <= |x|
    ensures WordsAndSpaces(x[lo..hi]) && NoDoubleSpace(x[lo..hi])
  {
    var y := x[lo..hi];
    assert forall i :: 0 <= i < |y| ==> y[i] == x[lo + i];
  }

  lemma {:induction false} TrimStartKeepsWordChars(x: string)
    ensures WordChars(TrimStart(x)) == WordChars(x)
    decreases |x|
  {
    if |x| > 0 && IsSpace(x[0]) {
      TrimStartKeepsWordChars(x[1..]);
    }
  }

  lemma {:induction false} TrimEndKeepsWordChars(x: string)
    ensures WordChars(TrimEnd(x)) == WordChars(x)
    decreases |x|
  {
    if |x| > 0 && IsSpace(x[|x| - 1]) {
      var init := x[..|x| - 1];
      TrimEndKeepsWordChars(init);
      assert x == init + [x[|x| - 1]];
      WordCharsAppend(init, [x[|x| - 1]]);
    }
  }

  lemma NormalizedKeepsWordChars(local: string)
    ensures WordChars(Normalized(local)) == WordChars(local)
  {
    var x := Collapse(local);
    TrimStartKeepsWordChars(x);
    TrimEndKeepsWordChars(TrimStart(x));
    CollapseKeepsWordChars(local);
  }

  /** `filter(Boolean)`: the non-empty parts, in order. */
  function NonEmpty(parts: seq<string>): (r: seq<string>)
    ensures forall k :: 0 <= k < |r| ==> r[k] != ""
    ensures (forall k :: 0 <= k < |parts| ==> parts[k] != "") ==> r == parts
    decreases |parts|
  {
    if parts == [] then []
    else (if parts[0] != "" then [parts[0]] else []) + NonEmpty(parts[1..])
  }

  /** Splitting at single spaces: after the first part, every part is a
      non-empty word, and the first is empty only when `s` starts with a space. */
  lemma {:induction false} SplitSingleSpaces(s: string)
    requires WordsAndSpaces(s) && NoDoubleSpace(s) && (s == [] || s[|s| - 1] != ' ')
    ensures var parts := Split(s, ' ');
            (parts[0] == "" <==> s == [] || s[0] == ' ')
            && (forall k :: 1 <= k < |parts| ==> parts[k] != "")
            && (forall k, i :: 0 <= k < |parts| && 0 <= i < |parts[k]| ==> IsAsciiAlnum(parts[k][i]))
    decreases |s|
  {
    if s != [] {
      var rest := Split(s[1..], ' ');
      SplitSingleSpaces(s[1..]);
      if s[0] == ' ' {
        assert s[1..] != [] && s[1..][0] != ' ';
      }
    }
  }

  /** A string with a space splits into at least two parts. */
  lemma {:induction false} SplitAtSpace(s: string)
    requires ' ' in s
    ensures |Split(s, ' ')| >= 2
    decreases |s|
  {
    if s[0] != ' ' {
      assert ' ' in s[1..];
      SplitAtSpace(s[1..]);
    }
  }

  /** The words `toNameParts` takes from an address. */
  function Words(email: string): seq<string> {
    NonEmpty(Split(Normalized(LocalPart(email)), ' '))
  }

  datatype NameParts = NameParts(name: string, surname: string)

  /** `toNameParts`: the first word is the name ("User" when there is none),
      the other words joined by spaces are the surname ("Account" when there
      are none). */
  function ToNameParts(email: string): (r: NameParts)
    ensures r.name != "" && r.surname != ""
  {
    NamePartsOf(Words(email))
  }

  /** The name and surname read off a list of words. */
  function NamePartsOf(parts: seq<string>): (r: NameParts)
    ensures r.name != "" && r.surname != ""
  {
    var name := if |parts| > 0 && parts[0] != "" then parts[0] else "User";
    var rest := Join(if |parts| > 0 then parts[1..] else [], ' ');
    NameParts(name, if rest != "" then rest else "Account")
  }

  /** The name is one word of letters and digits; the name and surname together
      are the local part with each run of other characters turned into one
      space, or the defaults when that leaves at most one word. */
  lemma ToNamePartsMeaning(email: string)
    ensures var r := ToNameParts(email);
            var t := Normalized(LocalPart(email));
            (forall i :: 0 <= i < |r.name| ==> IsAsciiAlnum(r.name[i]))
            && (t == [] ==> r == NameParts("User", "Account"))
            && (t != [] && ' ' !in t ==> r == NameParts(t, "Account"))
            && (' ' in t ==> r.name + " " + r.surname == t)
            && WordChars(t) == WordChars(LocalPart(email))
  {
    NormalizedShape(LocalPart(email));
    NormalizedKeepsWordChars(LocalPart(email));
    WellSpacedNameParts(Normalized(LocalPart(email)));
  }

  /** The same, for the words of any well-spaced string. */
  lemma WellSpacedNameParts(t: string)
    requires WellSpaced(t)
    ensures var r := NamePartsOf(NonEmpty(Split(t, ' ')));
            (forall i :: 0 <= i < |r.name| ==> IsAsciiAlnum(r.name[i]))
            && (t == [] ==> r == NameParts("User", "Account"))
            && (t != [] && ' ' !in t ==> r == NameParts(t, "Account"))
            && (' ' in t ==> r.name + " " + r.surname == t)
  {
    var parts := Split(t, ' ');
    SplitSingleSpaces(t);
    assert NonEmpty(parts) == parts || t == [];
    if t == [] {
      assert parts == [""];
    } else if ' ' !in t {
      SplitNoSep(t, ' ');
    } else {
      SplitAtSpace(t);
      JoinSplit(t, ' ');
      JoinCons(parts[0], parts[1..], ' ');
      assert [parts[0]] + parts[1..] == parts;
      assert Join(parts[1..], ' ') != "" by {
        assert parts[1..][0] != "";
      }
    }
  }

  lemma JoinFirst(parts: seq<string>, sep: char)
    requires |parts| >= 1 && parts[0] != ""
    ensures Join(parts, sep) != "" && Join(parts, sep)[0] == parts[0][0]
  {
  }

  /** A string starting with a letter or digit survives trimming. */
  lemma WordStartNotBlank(s: string)
    requires s != [] && IsAsciiAlnum(s[0])
    ensures Trim(s) != []
  {
    assert !IsSpace(s[0]);
    assert TrimStart(s) == s;
  }

  /** Both name parts start with a letter or digit, so `getOrCreateUser` never
      refuses them. */
  lemma NamePartsNotBlank(email: string)
    ensures Trim(ToNameParts(email).name) != [] && Trim(ToNameParts(email).surname) != []
  {
    var r := ToNameParts(email);
    var t := Normalized(LocalPart(email));
    ToNamePartsMeaning(email);
    WordStartNotBlank(r.name);
    if r.surname != "Account" {
      NormalizedShape(LocalPart(email));
      SplitSingleSpaces(t);
      var parts := Split(t, ' ');
      assert Words(email) == parts;
      JoinFirst(parts[1..], ' ');
      assert IsAsciiAlnum(parts[1][0]);
    }
    WordStartNotBlank(r.surname);
  }

  // ------------------------------------------------------- /api/recommend

  /** The profile check of `/api/recommend`; None stands for a missing or
      non-string profile. */
  function RecommendProfile(profile: Option<string>): (r: Result<string>)
    ensures profile.None? || profile.value == "" ==> r == Err("profile string is required")
    ensures profile.Some? && profile.value != "" && Majors.SanitizeProfile(profile.value) == "" ==>
              r == Err("profile must contain RIASEC letters")
    ensures r.Ok? ==> profile.Some? && r.value == Majors.SanitizeProfile(profile.value)
    ensures r.Ok? ==> 1 <= |r.value| <= 6 && Riasec.AllRiasec(r.value)
    ensures r.Ok? ==> Majors.SanitizeProfile(r.value) == r.value
  {
    if profile.None? || profile.value == "" then Err("profile string is required")
    else
      var formatted := Majors.SanitizeProfile(profile.value);
      Majors.SanitizeProfileIdempotent(profile.value);
      if formatted == "" then Err("profile must contain RIASEC letters") else Ok(formatted)
  }

  // ------------------------------------------------- /api/auth/register

  datatype Registered<J> = Registered(user: UserStore.User<J>, results: seq<UserStore.StoredResult<J>>)

  const InvalidInput := "Valid email and password are required."
  const WeakPassword := "Password must be at least 8 characters and include uppercase, number, and special character."
  const AlreadyRegistered := "This email is already registered."

  /** The first guard: both fields are non-empty strings and the address is valid. */
  predicate WellFormedRequest(email: Option<string>, password: Option<string>) {
    email.Some? && email.value != "" && password.Some? && password.value != "" && IsValidEmail(email.value)
  }

  /** The guards of `/api/auth/register`, before any store is touched, each
      failing with its own message, in this order. */
  function RegisterCheck(credentials: map<string, AuthStore.Credential>, email: Option<string>,
                         password: Option<string>): (r: Result<string>)
    ensures r == Err(InvalidInput) <==> !WellFormedRequest(email, password)
    ensures r == Err(WeakPassword) <==> WellFormedRequest(email, password) && !IsStrongPassword(password)
    ensures r == Err(AlreadyRegistered) <==>
              WellFormedRequest(email, password) && IsStrongPassword(password)
              && NormalizeEmail(email.value) in credentials
    ensures r.Ok? <==>
              WellFormedRequest(email, password) && IsStrongPassword(password)
              && NormalizeEmail(email.value) !in credentials
    ensures r.Ok? ==> email.Some? && r.value == NormalizeEmail(email.value)
  {
    if email.None? || email.value == "" || password.None? || password.value == "" || !IsValidEmail(email.value) then
      Err(InvalidInput)
    else if !IsStrongPassword(password) then Err(WeakPassword)
    else
      var normalized := NormalizeEmail(email.value);
      if normalized in credentials then Err(AlreadyRegistered) else Ok(normalized)
  }

  /** The user table after enrolment: unchanged when the name key was known
      (and `user` is that entry), otherwise one new user appended. */
  ghost predicate EnrolledUsers<J>(before: seq<UserStore.User<J>>, after: seq<UserStore.User<J>>,
                                   user: UserStore.User<J>, name: string, surname: string,
                                    freshId: string, now: string)
  {
    var found := UserStore.FindByKey(before, UserStore.NormalizeKey(name, surname));
    if found.Some? then
      after == before
      && user == before[found.value].(results := Some(UserStore.ResultsOf(before[found.value])))
    else
      after == before + [user] && user == UserStore.NewUser(freshId, Trim(name), Trim(surname), now)
  }

  /** The store work of `/api/auth/register` once the guards pass: find or
      create the user named `name surname`, store a credential for `email`
      pointing at it, and read back its results. */
  method Enrol<J>(auth: AuthStore.AuthCache, users: UserStore.UserCache<J>, email: string,
                  name: string, surname: string, password: string, freshId: string, now: string)
    returns (r: Result<Registered<J>>)
    modifies auth`credentials, users`users
    ensures Trim(name) != [] && Trim(surname) != [] <==> r.Ok?
    ensures r.Err? ==> auth.credentials == old(auth.credentials) && users.users == old(users.users)
    ensures r.Ok? ==>
              auth.credentials == old(auth.credentials)[email := AuthStore.Credential(r.value.user.id, password, now)]
              && UserStore.KeyOf(r.value.user) == UserStore.NormalizeKey(name, surname)
              && UserStore.FindById(users.users, r.value.user.id).Some?
    ensures r.Ok? ==> EnrolledUsers(old(users.users), users.users, r.value.user, name, surname, freshId, now)
  {
    var user :- users.GetOrCreateUser(name, surname, freshId, now);
    var credential := auth.SaveCredential(email, AuthStore.CredentialPayload(user.id, password, None), now);
    // `getUserResults` cannot throw here: the user was just found or added.
    var results := users.GetUserResults(user.id);
    r := Ok(Registered(user, results.value));
  }

  /** `/api/auth/register`, with `randomUUID()` and the current time as
      parameters: a refused registration changes nothing; an accepted one
      stores a credential for the normalised address, pointing at the user
      found or created from the address's name parts. */
  method Register<J>(auth: AuthStore.AuthCache, users: UserStore.UserCache<J>, email: Option<string>,
                     password: Option<string>, freshId: string, now: string)
    returns (r: Result<Registered<J>>)
    modifies auth`credentials, users`users
    ensures r.Ok? <==> RegisterCheck(old(auth.credentials), email, password).Ok?
    ensures r.Err? ==>
              r == Err(RegisterCheck(old(auth.credentials), email, password).msg)
              && auth.credentials == old(auth.credentials) && users.users == old(users.users)
    ensures r.Ok? ==>
              var normalized := RegisterCheck(old(auth.credentials), email, password).value;
              var parts := ToNameParts(normalized);
              auth.credentials == old(auth.credentials)[normalized :=
                AuthStore.Credential(r.value.user.id, password.value, now)]
              && UserStore.KeyOf(r.value.user) == UserStore.NormalizeKey(parts.name, parts.surname)
              && UserStore.FindById(users.users, r.value.user.id).Some?
              && EnrolledUsers(old(users.users), users.users, r.value.user, parts.name, parts.surname, freshId, now)
  {
    var normalized :- RegisterCheck(auth.credentials, email, password);
    var parts := ToNameParts(normalized);
    NamePartsNotBlank(normalized);
    r := Enrol(auth, users, normalized, parts.name, parts.surname, password.value, freshId, now);
  }
}
