/** The six RIASEC trait letters, the per-letter score record, and the sort that
    turns a score record into a 6-letter profile. The back end and the front end
    rank letters the same way except for how they break ties, so the ranking is
    defined once here, parameterised by the tie rule. */
module Riasec {

  /** R, I, A, S, E, C in the order the source lists them. */
  const Letters: string := "RIASEC"

  predicate IsRiasec(c: char) {
    c == 'R' || c == 'I' || c == 'A' || c == 'S' || c == 'E' || c == 'C'
  }

  predicate AllRiasec(s: string) {
    forall i :: 0 <= i < |s| ==> IsRiasec(s[i])
  }

  predicate Distinct(s: string) {
    forall i, j :: 0 <= i < j < |s| ==> s[i] != s[j]
  }

  /** A 6-character string holding each of the six letters exactly once. */
  predicate IsProfile(p: string) {
    |p| == 6 && AllRiasec(p) && Distinct(p)
  }

  /** One count per letter, as in `{ R: 0, I: 0, A: 0, S: 0, E: 0, C: 0 }`. */
  datatype ScoreRecord = ScoreRecord(R: nat, I: nat, A: nat, S: nat, E: nat, C: nat) {
    /** `record[letter]`; a letter outside RIASEC has no entry (0). */
    function Get(l: char): nat {
      match l
      case 'R' => R
      case 'I' => I
      case 'A' => A
      case 'S' => S
      case 'E' => E
      case 'C' => C
      case _ => 0
    }

    function Total(): nat {
      R + I + A + S + E + C
    }

    /** The record with one more point for `l`. */
    function Bump(l: char): (r: ScoreRecord)
      requires IsRiasec(l)
      ensures r.Get(l) == Get(l) + 1
      ensures forall m :: m != l ==> r.Get(m) == Get(m)
    {
      match l
      case 'R' => this.(R := R + 1)
      case 'I' => this.(I := I + 1)
      case 'A' => this.(A := A + 1)
      case 'S' => this.(S := S + 1)
      case 'E' => this.(E := E + 1)
      case 'C' => this.(C := C + 1)
    }
  }

  const ZeroScores: ScoreRecord := ScoreRecord(0, 0, 0, 0, 0, 0)

  /** Every letter of the zero record has count 0 (stated once: the literal
      record's `Get` is costly to unfold in large contexts). */
  lemma ZeroScoresGet(l: char)
    ensures ZeroScores.Get(l) == 0
  {
  }

  /** How two letters with equal counts are ordered. The back end compares the
      letters themselves (`localeCompare`, alphabetical for A..Z); the front end
      keeps the R, I, A, S, E, C order because its sort is stable. */
  datatype TieRule = Alphabetical | LetterOrder

  function TieRank(rule: TieRule, c: char): int {
    match rule
    case Alphabetical => c as int
    case LetterOrder =>
      if c == 'R' then 0 else if c == 'I' then 1 else if c == 'A' then 2
      else if c == 'S' then 3 else if c == 'E' then 4 else 5
  }

  /** `a` comes before `b` in the profile: higher count first, then the tie rule. */
  predicate Precedes(sc: ScoreRecord, rule: TieRule, a: char, b: char) {
    sc.Get(a) > sc.Get(b) || (sc.Get(a) == sc.Get(b) && TieRank(rule, a) < TieRank(rule, b))
  }

  /** On two different letters exactly one precedes the other. */
  lemma PrecedesTotal(sc: ScoreRecord, rule: TieRule, a: char, b: char)
    requires IsRiasec(a) && IsRiasec(b) && a != b
    ensures Precedes(sc, rule, a, b) != Precedes(sc, rule, b, a)
  {
  }

  predicate Sorted(sc: ScoreRecord, rule: TieRule, s: string) {
    forall i, j :: 0 <= i < j < |s| ==> Precedes(sc, rule, s[i], s[j])
  }

  /** A string in which each letter precedes the next is sorted, since
      `Precedes` is transitive. */
  lemma {:induction false} ChainSorted(sc: ScoreRecord, rule: TieRule, s: string)
    requires forall i :: 0 <= i < |s| - 1 ==> Precedes(sc, rule, s[i], s[i + 1])
    ensures Sorted(sc, rule, s)
    decreases |s|
  {
    if |s| > 1 {
      var t := s[1..];
      ChainSorted(sc, rule, t);
      forall i, j | 0 <= i < j < |s|
        ensures Precedes(sc, rule, s[i], s[j])
      {
        if i > 0 {
          assert t[i - 1] == s[i] && t[j - 1] == s[j];
        } else if j > 1 {
          assert t[0] == s[1] && t[j - 1] == s[j];
        }
      }
    }
  }

  /** Inserts `c` before the first letter it precedes. */
  function Insert(sc: ScoreRecord, rule: TieRule, c: char, s: string): (r: string)
    ensures |r| == |s| + 1
    ensures multiset(r) == multiset(s) + multiset{c}
    decreases |s|
  {
    if |s| == 0 || Precedes(sc, rule, c, s[0]) then [c] + s
    else
      assert s == [s[0]] + s[1..];
      [s[0]] + Insert(sc, rule, c, s[1..])
  }

  /** Insertion sort of `s` by `Precedes`. */
  function SortLetters(sc: ScoreRecord, rule: TieRule, s: string): (r: string)
    ensures |r| == |s|
    ensures multiset(r) == multiset(s)
    decreases |s|
  {
    if |s| == 0 then ""
    else
      assert s == [s[0]] + s[1..];
      Insert(sc, rule, s[0], SortLetters(sc, rule, s[1..]))
  }

  /** The six letters ordered by descending count, ties by `rule`. */
  function RankLetters(sc: ScoreRecord, rule: TieRule): string {
    SortLetters(sc, rule, Letters)
  }

  lemma {:induction false} InsertSorted(sc: ScoreRecord, rule: TieRule, c: char, s: string)
    requires IsRiasec(c) && AllRiasec(s) && c !in s
    requires Sorted(sc, rule, s)
    ensures Sorted(sc, rule, Insert(sc, rule, c, s))
    decreases |s|
  {
    if |s| == 0 {
    } else if Precedes(sc, rule, c, s[0]) {
      forall j | 0 <= j < |s|
        ensures Precedes(sc, rule, c, s[j])
      {
        if j > 0 {
          assert Precedes(sc, rule, s[0], s[j]);
        }
      }
      SortedCons(sc, rule, c, s);
    } else {
      PrecedesTotal(sc, rule, c, s[0]);
      InsertSorted(sc, rule, c, s[1..]);
      var t := Insert(sc, rule, c, s[1..]);
      forall j | 0 <= j < |t|
        ensures Precedes(sc, rule, s[0], t[j])
      {
        assert t[j] in multiset(t);
        if t[j] != c {
          assert t[j] in multiset(s[1..]);
          var k :| 0 <= k < |s[1..]| && s[1..][k] == t[j];
          assert s[k + 1] == t[j];
        }
      }
      SortedCons(sc, rule, s[0], t);
    }
  }

  /** A letter that precedes every letter of a sorted string can go in front. */
  lemma SortedCons(sc: ScoreRecord, rule: TieRule, x: char, t: string)
    requires Sorted(sc, rule, t)
    requires forall j :: 0 <= j < |t| ==> Precedes(sc, rule, x, t[j])
    ensures Sorted(sc, rule, [x] + t)
  {
    var u := [x] + t;
    forall i, j | 0 <= i < j < |u|
      ensures Precedes(sc, rule, u[i], u[j])
    {
      assert u[j] == t[j - 1];
      if i > 0 {
        assert u[i] == t[i - 1];
      }
    }
  }

  /** Rearranging RIASEC letters gives RIASEC letters. */
  lemma PermutationAllRiasec(a: string, b: string)
    requires multiset(a) == multiset(b) && AllRiasec(b)
    ensures AllRiasec(a)
  {
    forall i | 0 <= i < |a| ensures IsRiasec(a[i]) {
      assert a[i] in multiset(b);
    }
  }

  /** A sorted permutation of distinct letters. */
  lemma {:induction false} SortLettersSorted(sc: ScoreRecord, rule: TieRule, s: string)
    requires AllRiasec(s) && Distinct(s)
    ensures Sorted(sc, rule, SortLetters(sc, rule, s))
    decreases |s|
  {
    if |s| > 0 {
      SortLettersSorted(sc, rule, s[1..]);
      var t := SortLetters(sc, rule, s[1..]);
      PermutationAllRiasec(t, s[1..]);
      assert s[0] !in s[1..];
      assert s[0] !in multiset(t);
      InsertSorted(sc, rule, s[0], t);
    }
  }

  /** Two equal entries make a character occur at least twice. */
  lemma RepeatCounted(p: string, i: int, j: int)
    requires 0 <= i < j < |p|
    ensures p[i] == p[j] ==> multiset(p)[p[i]] >= 2
  {
    assert p == p[..i] + [p[i]] + p[i + 1..j] + [p[j]] + p[j + 1..];
  }

  /** A permutation of RIASEC is a profile. */
  lemma PermutationIsProfile(p: string)
    requires multiset(p) == multiset(Letters)
    ensures IsProfile(p)
  {
    assert |p| == |multiset(p)| == 6;
    PermutationAllRiasec(p, Letters);
    assert forall x :: multiset(Letters)[x] <= 1;
    forall i, j | 0 <= i < j < |p| ensures p[i] != p[j] {
      RepeatCounted(p, i, j);
    }
  }

  /** The result of ranking is a profile: a permutation of RIASEC, sorted. */
  lemma RankLettersIsProfile(sc: ScoreRecord, rule: TieRule)
    ensures IsProfile(RankLetters(sc, rule))
    ensures multiset(RankLetters(sc, rule)) == multiset(Letters)
    ensures Sorted(sc, rule, RankLetters(sc, rule))
  {
    SortLettersSorted(sc, rule, Letters);
    PermutationIsProfile(RankLetters(sc, rule));
  }

  /** A profile's counts never increase from left to right. */
  lemma RankLettersNonIncreasing(sc: ScoreRecord, rule: TieRule, i: int, j: int)
    requires 0 <= i < j < 6
    ensures sc.Get(RankLetters(sc, rule)[i]) >= sc.Get(RankLetters(sc, rule)[j])
  {
    RankLettersIsProfile(sc, rule);
    assert Precedes(sc, rule, RankLetters(sc, rule)[i], RankLetters(sc, rule)[j]);
  }

  /** Two sorted sequences of distinct letters with the same elements are equal:
      the ranking does not depend on how it is computed. */
  lemma {:induction false} SortedUnique(sc: ScoreRecord, rule: TieRule, a: string, b: string)
    requires AllRiasec(a) && AllRiasec(b)
    requires Sorted(sc, rule, a) && Sorted(sc, rule, b)
    requires multiset(a) == multiset(b)
    ensures a == b
    decreases |a|
  {
    assert |a| == |multiset(a)| == |multiset(b)| == |b|;
    if |a| > 0 {
      HeadsEqual(sc, rule, a, b);
      assert a == [a[0]] + a[1..] && b == [b[0]] + b[1..];
      assert multiset(a) == multiset{a[0]} + multiset(a[1..]);
      assert multiset(b) == multiset{b[0]} + multiset(b[1..]);
      assert multiset(a[1..]) == multiset(a) - multiset{a[0]};
      assert multiset(b[1..]) == multiset(b) - multiset{b[0]};
      SortedTail(sc, rule, a);
      SortedTail(sc, rule, b);
      SortedUnique(sc, rule, a[1..], b[1..]);
    }
  }

  lemma SortedTail(sc: ScoreRecord, rule: TieRule, a: string)
    requires |a| > 0 && AllRiasec(a) && Sorted(sc, rule, a)
    ensures AllRiasec(a[1..]) && Sorted(sc, rule, a[1..])
  {
    forall i, j | 0 <= i < j < |a| - 1 ensures Precedes(sc, rule, a[1..][i], a[1..][j]) {
      assert a[1..][i] == a[i + 1] && a[1..][j] == a[j + 1];
    }
  }

  /** The first letter of a sorted sequence is its top-ranked element. */
  lemma HeadsEqual(sc: ScoreRecord, rule: TieRule, a: string, b: string)
    requires |a| > 0 && |b| > 0
    requires Sorted(sc, rule, a) && Sorted(sc, rule, b)
    requires multiset(a) == multiset(b)
    ensures a[0] == b[0]
  {
    assert a[0] in multiset(b);
    var k :| 0 <= k < |b| && b[k] == a[0];
    assert b[0] in multiset(a);
    var m :| 0 <= m < |a| && a[m] == b[0];
    assert m == 0 || Precedes(sc, rule, a[0], b[0]);
    assert k == 0 || Precedes(sc, rule, b[0], a[0]);
    PrecedesAsymmetric(sc, rule, a[0], b[0]);
  }

  /** No two letters precede each other. */
  lemma PrecedesAsymmetric(sc: ScoreRecord, rule: TieRule, a: char, b: char)
    ensures !(Precedes(sc, rule, a, b) && Precedes(sc, rule, b, a))
  {
  }

  /** Any sorted permutation of RIASEC is the ranking. */
  lemma RankLettersUnique(sc: ScoreRecord, rule: TieRule, p: string)
    requires Sorted(sc, rule, p) && multiset(p) == multiset(Letters)
    ensures RankLetters(sc, rule) == p
  {
    RankLettersIsProfile(sc, rule);
    SortedPermutationsEqual(sc, rule, RankLetters(sc, rule), p);
  }

  lemma SortedPermutationsEqual(sc: ScoreRecord, rule: TieRule, r: string, p: string)
    requires Sorted(sc, rule, r) && multiset(r) == multiset(Letters)
    requires Sorted(sc, rule, p) && multiset(p) == multiset(Letters)
    ensures r == p
  {
    PermutationAllRiasec(r, Letters);
    PermutationAllRiasec(p, Letters);
    SortedUnique(sc, rule, r, p);
  }

  /** When all six counts differ, the tie rule is irrelevant. */
  lemma TieRuleIrrelevantWhenDistinct(sc: ScoreRecord)
    requires forall a, b :: IsRiasec(a) && IsRiasec(b) && a != b ==> sc.Get(a) != sc.Get(b)
    ensures RankLetters(sc, Alphabetical) == RankLetters(sc, LetterOrder)
  {
    var p := RankLetters(sc, Alphabetical);
    RankLettersIsProfile(sc, Alphabetical);
    forall i, j | 0 <= i < j < |p| ensures Precedes(sc, LetterOrder, p[i], p[j]) {
      assert Precedes(sc, Alphabetical, p[i], p[j]);
    }
    RankLettersUnique(sc, LetterOrder, p);
  }

  /** A string has as many distinct characters as its length iff no character repeats. */
  lemma {:induction false} CardOfDistinct(p: string)
    ensures Distinct(p) <==> |set x | x in p| == |p|
    decreases |p|
  {
    if |p| > 0 {
      var q := p[..|p| - 1];
      var last := p[|p| - 1];
      CardOfDistinct(q);
      assert (set x | x in p) == (set x | x in q) + {last};
      assert |set x | x in q| <= |q| by {
        CardAtMostLength(q);
      }
      if last in q {
        assert (set x | x in p) == (set x | x in q);
        var k :| 0 <= k < |q| && q[k] == last;
        assert p[k] == p[|p| - 1];
      } else {
        if Distinct(p) {
          assert Distinct(q);
        }
        if Distinct(q) {
          assert Distinct(p);
        }
      }
    }
  }

  lemma {:induction false} CardAtMostLength(p: string)
    ensures |set x | x in p| <= |p|
    decreases |p|
  {
    if |p| > 0 {
      var q := p[..|p| - 1];
      CardAtMostLength(q);
      assert (set x | x in p) == (set x | x in q) + {p[|p| - 1]};
    }
  }
}
