/** The pure helpers of frontend/src/components/LoginForm.tsx: the list of
    e-mail addresses remembered in the browser (most recent first), the
    suggestions drawn from it as the user types, the e-mail shape check and
    the username rule. `normalizeEmail` and the e-mail pattern are the same as
    the server's, so `Server.NormalizeEmail` and `Server.IsValidEmail` serve
    both. React state, `localStorage` and JSON text are left out: the stored
    history arrives already parsed. */
module LoginForm {
  import opened Common
  import opened Text
  import Server

  /** Most entries the history and the suggestion list hold. */
  const HistoryLimit: nat := 10

  /** `looksLikeEmail`: the trimmed value has the shape `a@b.c` with no white
      space and no other "@". */
  function LooksLikeEmail(value: string): (r: bool)
    ensures r <==> Server.MatchesEmailPattern(Trim(value))
  {
    Server.IsValidEmailMatchesPattern(Trim(value));
    Server.IsValidEmail(Trim(value))
  }

  /** One element of the stored JSON array: a string, or anything else. */
  datatype Item = Text(value: string) | NonString

  /** What one item contributes: its normalised string, unless it is not a
      string or normalises to "". */
  function Kept(item: Item): (r: seq<string>)
    ensures |r| <= 1
    ensures forall k :: 0 <= k < |r| ==> r[k] != "" && Server.NormalizeEmail(r[k]) == r[k]
  {
    match item
    case Text(s) =>
      var e := Server.NormalizeEmail(s);
      Server.NormalizeEmailIdempotent(s);
      if e == "" then [] else [e]
    case NonString => []
  }

  /** The entries kept from the parsed array, in order: strings only,
      normalised, empty ones dropped. */
  function KeepAddresses(items: seq<Item>): (r: seq<string>)
    ensures forall k :: 0 <= k < |r| ==> r[k] != "" && Server.NormalizeEmail(r[k]) == r[k]
    ensures |r| <= |items|
    decreases |items|
  {
    if |items| == 0 then [] else Kept(items[0]) + KeepAddresses(items[1..])
  }

  /** An address is kept exactly when some string item normalises to it. */
  lemma {:induction false} KeepAddressesMembers(items: seq<Item>, e: string)
    ensures e in KeepAddresses(items) <==>
              e != "" && exists k :: 0 <= k < |items| && items[k].Text? && Server.NormalizeEmail(items[k].value) == e
    decreases |items|
  {
    if |items| > 0 {
      KeepAddressesMembers(items[1..], e);
      if exists k :: 0 <= k < |items| && items[k].Text? && Server.NormalizeEmail(items[k].value) == e {
        var k :| 0 <= k < |items| && items[k].Text? && Server.NormalizeEmail(items[k].value) == e;
        if k > 0 {
          assert items[1..][k - 1] == items[k];
        }
      }
      if exists k :: 0 <= k < |items[1..]| && items[1..][k].Text? && Server.NormalizeEmail(items[1..][k].value) == e {
        var k :| 0 <= k < |items[1..]| && items[1..][k].Text? && Server.NormalizeEmail(items[1..][k].value) == e;
        assert items[k + 1] == items[1..][k];
      }
    }
  }

  /** Keeping addresses from two runs of items is keeping them from each, in
      order. */
  lemma {:induction false} KeepAddressesAppend(a: seq<Item>, b: seq<Item>)
    ensures KeepAddresses(a + b) == KeepAddresses(a) + KeepAddresses(b)
    decreases |a|
  {
    if |a| > 0 {
      assert (a + b)[0] == a[0];
      assert (a + b)[1..] == a[1..] + b;
      KeepAddressesAppend(a[1..], b);
      var h, x, y := Kept(a[0]), KeepAddresses(a[1..]), KeepAddresses(b);
      assert h + (x + y) == (h + x) + y;
    } else {
      assert a + b == b;
    }
  }

  /** `parseEmailHistory`: no stored value, unparsable text or a value that is
      not an array (`parsed` None) give the empty history. */
  function ParseEmailHistory(parsed: Option<seq<Item>>): (r: seq<string>)
    ensures parsed.None? ==> r == []
    ensures forall k :: 0 <= k < |r| ==> r[k] != "" && Server.NormalizeEmail(r[k]) == r[k]
  {
    if parsed.None? then [] else KeepAddresses(parsed.value)
  }

  /** `b` keeps the elements of `a` in their order, possibly with others
      between them. */
  predicate IsSubsequence(a: seq<string>, b: seq<string>)
    decreases |b|
  {
    |a| == 0
    || (|b| > 0 && ((a[0] == b[0] && IsSubsequence(a[1..], b[1..])) || IsSubsequence(a, b[1..])))
  }

  /** A prefix of a subsequence is a subsequence. */
  lemma {:induction false} SubsequencePrefix(a: seq<string>, b: seq<string>, n: nat)
    requires IsSubsequence(a, b) && n <= |a|
    ensures IsSubsequence(a[..n], b)
    decreases |b|
  {
    if n > 0 {
      if a[0] == b[0] && IsSubsequence(a[1..], b[1..]) {
        assert a[..n][1..] == a[1..][..n - 1];
        SubsequencePrefix(a[1..], b[1..], n - 1);
      } else {
        SubsequencePrefix(a, b[1..], n);
      }
    }
  }

  /** Elements of a subsequence come from the sequence. */
  lemma {:induction false} SubsequenceMembers(a: seq<string>, b: seq<string>, x: string)
    requires IsSubsequence(a, b) && x in a
    ensures x in b
    decreases |b|
  {
    if a[0] == b[0] && IsSubsequence(a[1..], b[1..]) {
      if x != a[0] {
        SubsequenceMembers(a[1..], b[1..], x);
      }
    } else {
      SubsequenceMembers(a, b[1..], x);
    }
  }

  predicate Distinct(s: seq<string>) {
    forall i, j :: 0 <= i < j < |s| ==> s[i] != s[j]
  }

  /** `previous.filter((entry) => entry !== normalized)`. */
  function Without(s: seq<string>, x: string): (r: seq<string>)
    ensures forall y :: y in r <==> y in s && y != x
    ensures |r| <= |s|
    decreases |s|
  {
    if |s| == 0 then []
    else if s[0] == x then Without(s[1..], x)
    else [s[0]] + Without(s[1..], x)
  }

  /** The filter keeps the others in their order, and no repeats are made. */
  lemma {:induction false} WithoutKeepsOrder(s: seq<string>, x: string)
    ensures IsSubsequence(Without(s, x), s)
    ensures Distinct(s) ==> Distinct(Without(s, x))
    decreases |s|
  {
    if |s| > 0 {
      WithoutKeepsOrder(s[1..], x);
      var rest := Without(s[1..], x);
      if s[0] != x {
        var r := [s[0]] + rest;
        assert r[1..] == rest;
        if Distinct(s) {
          assert s[0] !in s[1..];
          forall i, j | 0 <= i < j < |r| ensures r[i] != r[j] {
            if i == 0 {
              assert r[j] in rest;
            } else {
              assert r[i] == rest[i - 1] && r[j] == rest[j - 1];
            }
          }
        }
      }
    }
  }

  /** `rememberEmail`'s new list: an address that normalises to "" leaves the
      list alone; otherwise it goes to the front, any older copy is dropped
      and the list is cut to ten entries. */
  function RememberEmail(previous: seq<string>, value: string): (next: seq<string>)
    ensures Server.NormalizeEmail(value) == "" ==> next == previous
  {
    var normalized := Server.NormalizeEmail(value);
    if normalized == "" then previous
    else
      var candidates := [normalized] + Without(previous, normalized);
      if |candidates| <= HistoryLimit then candidates else candidates[..HistoryLimit]
  }

  /** After remembering an address, it is the most recent entry and the only
      copy of it; the others are older entries, in their old order; at most ten
      remain, and all the older ones stay when there is room. */
  lemma RememberEmailFront(previous: seq<string>, value: string)
    requires Server.NormalizeEmail(value) != ""
    ensures var e := Server.NormalizeEmail(value);
            var next := RememberEmail(previous, value);
            0 < |next| <= HistoryLimit && next[0] == e && e !in next[1..]
            && (forall y :: y in next[1..] ==> y in previous)
            && IsSubsequence(next[1..], previous)
            && next[1..] == Without(previous, e)[..|next| - 1]
            && |next| == if |Without(previous, e)| < HistoryLimit then |Without(previous, e)| + 1 else HistoryLimit
  {
    var e := Server.NormalizeEmail(value);
    var rest := Without(previous, e);
    var next := RememberEmail(previous, value);
    WithoutKeepsOrder(previous, e);
    var n := |next| - 1;
    assert next[1..] == rest[..n];
    SubsequencePrefix(rest, previous, n);
    forall y | y in next[1..] ensures y in previous {
      SubsequenceMembers(rest[..n], previous, y);
    }
  }

  /** The history stays a list of distinct, non-empty, normalised addresses
      of at most ten entries. */
  predicate WellFormedHistory(h: seq<string>) {
    |h| <= HistoryLimit && Distinct(h)
    && forall k :: 0 <= k < |h| ==> h[k] != "" && Server.NormalizeEmail(h[k]) == h[k]
  }

  lemma RememberEmailWellFormed(previous: seq<string>, value: string)
    requires WellFormedHistory(previous)
    ensures WellFormedHistory(RememberEmail(previous, value))
  {
    var e := Server.NormalizeEmail(value);
    if e != "" {
      Server.NormalizeEmailIdempotent(value);
      WithoutKeepsOrder(previous, e);
      var rest := Without(previous, e);
      forall y | y in rest ensures y != "" && Server.NormalizeEmail(y) == y {
        var m :| 0 <= m < |previous| && previous[m] == y;
      }
      ConsKeepsHistory(e, rest);
      var c := [e] + rest;
      if |c| > HistoryLimit {
        PrefixKeepsHistory(c, HistoryLimit);
      }
    }
  }

  /** A new normalised address in front of distinct normalised addresses
      gives distinct normalised addresses. */
  lemma ConsKeepsHistory(e: string, rest: seq<string>)
    requires e != "" && Server.NormalizeEmail(e) == e && e !in rest && Distinct(rest)
    requires forall y :: y in rest ==> y != "" && Server.NormalizeEmail(y) == y
    ensures var c := [e] + rest;
            Distinct(c) && forall k :: 0 <= k < |c| ==> c[k] != "" && Server.NormalizeEmail(c[k]) == c[k]
  {
    var c := [e] + rest;
    forall i, j | 0 <= i < j < |c| ensures c[i] != c[j] {
      if i == 0 {
        assert c[j] in rest;
      } else {
        assert c[i] == rest[i - 1] && c[j] == rest[j - 1];
      }
    }
    forall k | 0 <= k < |c| ensures c[k] != "" && Server.NormalizeEmail(c[k]) == c[k] {
      if k > 0 {
        assert c[k] in rest;
      }
    }
  }

  /** Cutting such a list to its first `n` entries keeps it so. */
  lemma PrefixKeepsHistory(c: seq<string>, n: nat)
    requires n <= |c| && Distinct(c)
    requires forall k :: 0 <= k < |c| ==> c[k] != "" && Server.NormalizeEmail(c[k]) == c[k]
    ensures Distinct(c[..n]) && forall k :: 0 <= k < n ==> c[..n][k] != "" && Server.NormalizeEmail(c[..n][k]) == c[..n][k]
  {
  }

  /** An entry is offered for the typed text when the text, normalised, is
      empty or occurs in it. */
  predicate Suggests(entry: string, query: string) {
    query == "" || Contains(entry, query)
  }

  /** `savedEmails.filter(...)`. */
  function Matching(saved: seq<string>, query: string): (r: seq<string>)
    ensures forall y :: y in r <==> y in saved && Suggests(y, query)
    ensures |r| <= |saved|
    decreases |saved|
  {
    if |saved| == 0 then []
    else if Suggests(saved[0], query) then [saved[0]] + Matching(saved[1..], query)
    else Matching(saved[1..], query)
  }

  /** The filter keeps the saved order; with an empty query it keeps all. */
  lemma {:induction false} MatchingKeepsOrder(saved: seq<string>, query: string)
    ensures IsSubsequence(Matching(saved, query), saved)
    ensures query == "" ==> Matching(saved, query) == saved
    decreases |saved|
  {
    if |saved| > 0 {
      MatchingKeepsOrder(saved[1..], query);
      var rest := Matching(saved[1..], query);
      if Suggests(saved[0], query) {
        assert ([saved[0]] + rest)[1..] == rest;
      }
    }
  }

  /** `emailSuggestions`: the first ten saved entries that contain the typed
      address, normalised. */
  function EmailSuggestions(saved: seq<string>, email: string): (r: seq<string>)
    ensures |r| <= HistoryLimit
  {
    var matching := Matching(saved, Server.NormalizeEmail(email));
    if |matching| <= HistoryLimit then matching else matching[..HistoryLimit]
  }

  /** Every suggestion is a saved entry containing the query; they come in
      the saved order; they are the first ten of the matching entries, so none
      that fits is left out while there is room; an empty query offers the
      first ten saved entries. */
  lemma EmailSuggestionsMeaning(saved: seq<string>, email: string)
    ensures var q := Server.NormalizeEmail(email);
            var r := EmailSuggestions(saved, email);
            (forall y :: y in r ==> y in saved && Suggests(y, q))
            && IsSubsequence(r, saved)
            && (|r| < HistoryLimit ==> forall y :: y in saved && Suggests(y, q) ==> y in r)
            && |r| == (if |Matching(saved, q)| <= HistoryLimit then |Matching(saved, q)| else HistoryLimit)
            && r == Matching(saved, q)[..|r|]
            && (q == "" ==> r == if |saved| <= HistoryLimit then saved else saved[..HistoryLimit])
  {
    var q := Server.NormalizeEmail(email);
    var m := Matching(saved, q);
    var r := EmailSuggestions(saved, email);
    MatchingKeepsOrder(saved, q);
    assert r == m[..|r|];
    SubsequencePrefix(m, saved, |r|);
    forall y | y in r ensures y in saved && Suggests(y, q) {
      assert y in m;
    }
  }

  /** A character `[A-Za-z0-9._]` allows in a username. */
  predicate IsUsernameChar(c: char) {
    IsAsciiAlnum(c) || c == '.' || c == '_'
  }

  /** The registration form's username rule: at least three characters, all
      letters, digits, "." or "_", after trimming. */
  function ValidUsername(username: string): (r: bool)
    ensures r ==> 3 <= |username| && '@' !in Trim(username)
  {
    var t := Trim(username);
    |t| >= 3 && forall k :: 0 <= k < |t| ==> IsUsernameChar(t[k])
  }

  /** An accepted username has no "@", so it never looks like an e-mail
      address, and it carries no white space to trim. */
  lemma ValidUsernameNotEmail(username: string)
    requires ValidUsername(username)
    ensures !LooksLikeEmail(username)
    ensures Trim(Trim(username)) == Trim(username)
  {
    var t := Trim(username);
    TrimIdempotent(username);
    assert forall k :: 0 <= k < |t| ==> t[k] != '@';
    assert Server.IndexOf(t, '@').None?;
  }
}
