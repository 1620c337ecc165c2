/** The score tally of frontend/src/hooks/useRiasecScoring.ts: a record of six
    counts that `addCode` bumps one letter at a time, and the profile string
    read off it. The React `useState` holder is dropped: each operation takes
    the current record and returns the next one. */
module ScoringHook {
  import opened Common
  import opened Text
  import opened Riasec
  import Submission

  /** `normalizeLetter`: the upper-cased string when it is one of the six
      letters, else None (null). */
  function NormalizeLetter(letter: string): (r: Option<char>)
    ensures r.Some? <==> |letter| == 1 && IsRiasec(UpperChar(letter[0]))
    ensures r.Some? ==> r.value == UpperChar(letter[0])
  {
    var upper := ToUpper(letter);
    if |upper| == 1 && IsRiasec(upper[0]) then Some(upper[0]) else None
  }

  /** `reset`: whatever the current record, every count goes back to 0 (the
      `INITIAL_SCORES` record). */
  function Reset(current: ScoreRecord): (r: ScoreRecord)
    ensures r.Total() == 0
  {
    ZeroScores
  }

  /** After `reset` no letter has a point, and tallying starts over. */
  lemma ResetClears(current: ScoreRecord, l: char)
    ensures Reset(current).Get(l) == 0
    ensures Reset(current) == Tally([])
  {
    ZeroScoresGet(l);
  }

  /** `addCode`: one more point for the letter the code starts with (upper-cased),
      if it is one of the six; the record passed in is left as it was. */
  function AddCode(scores: ScoreRecord, code: string): (next: ScoreRecord)
    ensures next == scores
            || (|code| > 0 && IsRiasec(UpperChar(code[0])) && next == scores.Bump(UpperChar(code[0])))
  {
    var primary := NormalizeLetter(if |code| == 0 then code else code[..1]);
    if primary.Some? then scores.Bump(primary.value) else scores
  }

  /** The code counts for `l`: its first character upper-cases to `l`, one of
      the six letters. */
  predicate CountsFor(code: string, l: char) {
    |code| > 0 && IsRiasec(UpperChar(code[0])) && UpperChar(code[0]) == l
  }

  /** Exactly the letter given by the code's first character gains a point, and
      only when that character upper-cases to R, I, A, S, E or C. */
  lemma AddCodeCounts(scores: ScoreRecord, code: string, l: char)
    ensures AddCode(scores, code).Get(l) == scores.Get(l) + (if CountsFor(code, l) then 1 else 0)
    ensures !(|code| > 0 && IsRiasec(UpperChar(code[0]))) ==> AddCode(scores, code) == scores
  {
    if |code| > 0 {
      assert code[..1][0] == code[0];
    }
  }

  /** A code adds one point in all, or none when it does not start with a letter. */
  lemma AddCodeTotal(scores: ScoreRecord, code: string)
    ensures AddCode(scores, code).Total() == scores.Total() + (if |code| > 0 && IsRiasec(UpperChar(code[0])) then 1 else 0)
  {
    if |code| > 0 {
      assert code[..1][0] == code[0];
    }
  }

  /** Tallying a run of codes from a reset record counts, for each letter, the
      codes that start with it. */
  function Tally(codes: seq<string>): ScoreRecord
    decreases |codes|
  {
    if |codes| == 0 then ZeroScores else AddCode(Tally(codes[..|codes| - 1]), codes[|codes| - 1])
  }

  /** How many codes start with a character that upper-cases to `l`. */
  function CountStarting(codes: seq<string>, l: char): nat
    decreases |codes|
  {
    if |codes| == 0 then 0
    else
      var last := codes[|codes| - 1];
      CountStarting(codes[..|codes| - 1], l) + (if CountsFor(last, l) then 1 else 0)
  }

  lemma TallyEmpty(l: char)
    ensures Tally([]).Get(l) == 0
  {
    assert Tally([]) == ZeroScores;
    ZeroScoresGet(l);
  }

  lemma TallyStep(codes: seq<string>, l: char)
    requires |codes| > 0
    ensures Tally(codes).Get(l) == Tally(codes[..|codes| - 1]).Get(l) + (if CountsFor(codes[|codes| - 1], l) then 1 else 0)
  {
    AddCodeCounts(Tally(codes[..|codes| - 1]), codes[|codes| - 1], l);
  }

  /** Tallying a run of codes from a reset record counts, for each letter, the
      codes whose first character upper-cases to it. */
  lemma {:induction false} TallyCounts(codes: seq<string>, l: char)
    ensures Tally(codes).Get(l) == CountStarting(codes, l)
    decreases |codes|
  {
    if |codes| == 0 {
      TallyEmpty(l);
    } else {
      TallyCounts(codes[..|codes| - 1], l);
      TallyStep(codes, l);
    }
  }

  /** One `[letter, value]` pair of `sortScores`. */
  datatype Entry = Entry(letter: char, value: nat)

  /** The pairs for the letters of `order`, in that order. */
  function Entries(record: ScoreRecord, order: string): (r: seq<Entry>)
    ensures |r| == |order|
    ensures forall i :: 0 <= i < |order| ==> r[i].letter == order[i] && r[i].value == record.Get(order[i])
  {
    seq(|order|, i requires 0 <= i < |order| => Entry(order[i], record.Get(order[i])))
  }

  /** The letters of a run of pairs, joined. */
  function LettersOf(entries: seq<Entry>): (s: string)
    ensures |s| == |entries|
    ensures forall i :: 0 <= i < |entries| ==> s[i] == entries[i].letter
  {
    seq(|entries|, i requires 0 <= i < |entries| => entries[i].letter)
  }

  lemma LettersOfEntries(record: ScoreRecord, order: string)
    ensures LettersOf(Entries(record, order)) == order
  {
  }

  /** Pairs read off a sorted profile hold each letter once, with counts that
      never increase and equal counts in tie-rule order. */
  lemma {:induction false} EntriesOrdered(record: ScoreRecord, rule: TieRule, order: string)
    requires IsProfile(order) && multiset(order) == multiset(Letters) && Sorted(record, rule, order)
    ensures var r := Entries(record, order);
            |r| == 6
            && (forall l :: IsRiasec(l) ==> exists i :: 0 <= i < 6 && r[i].letter == l)
            && (forall i, j :: 0 <= i < j < 6 ==> r[i].letter != r[j].letter && r[i].value >= r[j].value)
            && (forall i, j :: 0 <= i < j < 6 && r[i].value == r[j].value ==>
                  TieRank(rule, r[i].letter) < TieRank(rule, r[j].letter))
  {
    var r := Entries(record, order);
    forall l | IsRiasec(l) ensures exists i :: 0 <= i < 6 && r[i].letter == l {
      assert l in multiset(Letters);
      assert l in multiset(order);
      var i :| 0 <= i < 6 && order[i] == l;
      assert r[i].letter == l;
    }
    forall i, j | 0 <= i < j < 6
      ensures r[i].letter != r[j].letter && r[i].value >= r[j].value
      ensures r[i].value == r[j].value ==> TieRank(rule, r[i].letter) < TieRank(rule, r[j].letter)
    {
      assert Precedes(record, rule, order[i], order[j]);
    }
  }

  /** `sortScores`: the six letters with their counts, highest count first;
      the sort is stable over R, I, A, S, E, C, so equal counts keep that order. */
  function SortScores(record: ScoreRecord): (r: seq<Entry>)
  {
    Entries(record, RankLetters(record, LetterOrder))
  }

  /** The pairs hold each letter once with its own count, counts never
      increase, and entries with equal counts keep the R, I, A, S, E, C order. */
  lemma SortScoresOrdered(record: ScoreRecord)
    ensures var r := SortScores(record);
            |r| == 6
            && (forall i :: 0 <= i < 6 ==> r[i].value == record.Get(r[i].letter))
            && (forall l :: IsRiasec(l) ==> exists i :: 0 <= i < 6 && r[i].letter == l)
            && (forall i, j :: 0 <= i < j < 6 ==> r[i].letter != r[j].letter && r[i].value >= r[j].value)
            && (forall i, j :: 0 <= i < j < 6 && r[i].value == r[j].value ==>
                  TieRank(LetterOrder, r[i].letter) < TieRank(LetterOrder, r[j].letter))
  {
    RankLettersIsProfile(record, LetterOrder);
    EntriesOrdered(record, LetterOrder, RankLetters(record, LetterOrder));
  }

  /** `getProfileString`: the letters of `sortScores`, joined. */
  function GetProfileString(record: ScoreRecord): (p: string)
    ensures IsProfile(p)
    ensures Sorted(record, LetterOrder, p)
  {
    LettersOfEntries(record, RankLetters(record, LetterOrder));
    RankLettersIsProfile(record, LetterOrder);
    LettersOf(SortScores(record))
  }

  /** The profile string is the ranking with R, I, A, S, E, C tie order: the
      only arrangement of the six letters sorted that way. */
  lemma GetProfileStringUnique(record: ScoreRecord, p: string)
    requires Sorted(record, LetterOrder, p) && multiset(p) == multiset(Letters)
    ensures GetProfileString(record) == p
  {
    LettersOfEntries(record, RankLetters(record, LetterOrder));
    RankLettersUnique(record, LetterOrder, p);
  }

  /** With all six counts equal, the front end keeps R, I, A, S, E, C while the
      back end (`buildProfileFromScores`) orders the letters alphabetically, so
      the two profiles of the same record differ. */
  lemma TieRulesDiffer(n: nat)
    ensures GetProfileString(ScoreRecord(n, n, n, n, n, n)) == "RIASEC"
    ensures Submission.BuildProfile(ScoreRecord(n, n, n, n, n, n)) == "ACEIRS"
  {
    var sc := ScoreRecord(n, n, n, n, n, n);
    FrontTie(sc, n);
    BackTie(sc, n);
  }

  lemma FrontTie(sc: ScoreRecord, n: nat)
    requires sc == ScoreRecord(n, n, n, n, n, n)
    ensures GetProfileString(sc) == "RIASEC"
  {
    var front := "RIASEC";
    assert front[0] == 'R' && front[1] == 'I' && front[2] == 'A' && front[3] == 'S' && front[4] == 'E' && front[5] == 'C';
    ChainSorted(sc, LetterOrder, front);
    GetProfileStringUnique(sc, front);
  }

  lemma BackTie(sc: ScoreRecord, n: nat)
    requires sc == ScoreRecord(n, n, n, n, n, n)
    ensures Submission.BuildProfile(sc) == "ACEIRS"
  {
    AlphabeticalTieSorted(sc, n);
    AlphabeticalTieRank(sc);
  }

  lemma AlphabeticalTieSorted(sc: ScoreRecord, n: nat)
    requires sc == ScoreRecord(n, n, n, n, n, n)
    ensures Sorted(sc, Alphabetical, "ACEIRS")
  {
    var back := "ACEIRS";
    assert back[0] == 'A' && back[1] == 'C' && back[2] == 'E' && back[3] == 'I' && back[4] == 'R' && back[5] == 'S';
    ChainSorted(sc, Alphabetical, back);
  }

  lemma AlphabeticalTieRank(sc: ScoreRecord)
    requires Sorted(sc, Alphabetical, "ACEIRS")
    ensures RankLetters(sc, Alphabetical) == "ACEIRS"
  {
    var back := "ACEIRS";
    assert multiset(back) == multiset(Letters);
    RankLettersUnique(sc, Alphabetical, back);
  }

  /** When all six counts differ, front end and back end give the same profile. */
  lemma ProfilesAgreeWithoutTies(record: ScoreRecord)
    requires forall a, b :: IsRiasec(a) && IsRiasec(b) && a != b ==> record.Get(a) != record.Get(b)
    ensures GetProfileString(record) == Submission.BuildProfile(record)
  {
    LettersOfEntries(record, RankLetters(record, LetterOrder));
    TieRuleIrrelevantWhenDistinct(record);
  }
}
