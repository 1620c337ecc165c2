/** The major catalog and the recommendation ranker (backend/src/majorService.js).
    Scores are exact: the positional weights 1, 1/2, …, 1/6 are scaled by 60
    to the integers 60, 30, 20, 15, 12, 10, so a score of 90 stands for 1.5. */
module Majors {
  import opened Common
  import opened Text
  import opened Riasec
  import opened Sorting

  /** `PROFILE_WEIGHTS`, each multiplied by 60. */
  const ProfileWeights: seq<nat> := [60, 30, 20, 15, 12, 10]

  /** A catalog entry: the major's name and its trait codes, most
      representative first, each a one-character string. */
  datatype Major = Major(name: string, codes: seq<string>)

  // ---------------------------------------------------------------- parsing

  /** `normalizeLetter`: the first character of the trimmed, upper-cased code,
      or "" when nothing is left. */
  function NormalizeLetter(code: string): (r: string)
    ensures |r| <= 1
    ensures r != [] <==> Trim(code) != []
    ensures r != [] ==> r[0] == UpperChar(Trim(code)[0])
  {
    if code == [] then []
    else
      var normalized := ToUpper(Trim(code));
      if normalized == [] then [] else [normalized[0]]
  }

  /** `codeString.split('').map(normalizeLetter).filter(Boolean)`: one code
      per non-blank character, upper-cased. */
  function CodesOf(s: string): (codes: seq<string>)
    ensures |codes| <= |s|
    ensures forall i :: 0 <= i < |codes| ==> |codes[i]| == 1 && !IsSpace(codes[i][0])
    decreases |s|
  {
    if |s| == 0 then []
    else
      var letter := NormalizeLetter([s[|s| - 1]]);
      CodesOf(s[..|s| - 1]) + (if letter == [] then [] else [letter])
  }

  /** Each non-blank character contributes its upper-cased self, in order. */
  lemma {:induction false} CodesOfAppend(a: string, b: string)
    ensures CodesOf(a + b) == CodesOf(a) + CodesOf(b)
    decreases |b|
  {
    if |b| > 0 {
      assert (a + b)[..|a + b| - 1] == a + b[..|b| - 1];
      assert (a + b)[|a + b| - 1] == b[|b| - 1];
      CodesOfAppend(a, b[..|b| - 1]);
    } else {
      assert a + b == a;
    }
  }

  /** A single character gives a code exactly when it is not white space. */
  lemma CodesOfChar(c: char)
    ensures CodesOf([c]) == if IsSpace(c) then [] else [[UpperChar(c)]]
  {
    assert [c][..0] == [];
  }

  /** The cells of one sheet row; a missing cell reads as "". */
  function Cell(row: seq<string>, i: nat): string {
    if i < |row| then row[i] else ""
  }

  /** `parseRow`: the trimmed name and the codes of the trimmed code cell. */
  function ParseRow(row: seq<string>): (m: Major)
    ensures m.name == Trim(Cell(row, 0))
    ensures |m.codes| <= |Cell(row, 1)|
  {
    Major(Trim(Cell(row, 0)), CodesOf(Trim(Cell(row, 1))))
  }

  /** The catalog keeps a parsed row only when its name is non-empty and it has codes. */
  predicate Keep(m: Major) {
    m.name != [] && |m.codes| > 0
  }

  /** The catalog read from the sheet's rows: the header row skipped, each
      data row parsed, and rows without a name or without codes dropped. */
  function CatalogFromRows(rows: seq<seq<string>>): (catalog: seq<Major>)
    ensures forall m :: m in catalog ==> Keep(m)
  {
    if |rows| <= 1 then [] else KeepMajors(ParseRows(rows[1..]))
  }

  /** Each row parsed, in order. */
  function ParseRows(rows: seq<seq<string>>): (ms: seq<Major>)
    ensures |ms| == |rows| && forall i :: 0 <= i < |rows| ==> ms[i] == ParseRow(rows[i])
  {
    seq(|rows|, i requires 0 <= i < |rows| => ParseRow(rows[i]))
  }

  /** The entries worth keeping, in their original order. */
  function KeepMajors(ms: seq<Major>): (kept: seq<Major>)
    ensures |kept| <= |ms|
    ensures forall m :: m in kept <==> m in ms && Keep(m)
    decreases |ms|
  {
    if |ms| == 0 then []
    else
      var m := ms[|ms| - 1];
      KeepMajors(ms[..|ms| - 1]) + (if Keep(m) then [m] else [])
  }

  /** Every catalog entry is the parse of some data row. */
  lemma CatalogMembersParsed(rows: seq<seq<string>>, m: Major)
    requires m in CatalogFromRows(rows)
    ensures exists i :: 1 <= i < |rows| && ParseRow(rows[i]) == m
  {
    var ms := ParseRows(rows[1..]);
    assert m in ms;
    var j :| 0 <= j < |ms| && ms[j] == m;
    assert rows[1..][j] == rows[j + 1];
    assert ParseRow(rows[j + 1]) == m;
  }

  /** Every data row whose parse has a name and codes is in the catalog. */
  lemma CatalogKeepsRow(rows: seq<seq<string>>, i: nat)
    requires 1 <= i < |rows| && Keep(ParseRow(rows[i]))
    ensures ParseRow(rows[i]) in CatalogFromRows(rows)
  {
    var ms := ParseRows(rows[1..]);
    assert rows[1..][i - 1] == rows[i];
    assert ms[i - 1] == ParseRow(rows[i]);
  }

  // ---------------------------------------------------------------- scoring

  /** `.toUpperCase().replace(/[^RIASEC]/g, '')`: the RIASEC letters of `s`, in order. */
  function KeepRiasec(s: string): (r: string)
    ensures AllRiasec(r) && |r| <= |s|
    decreases |s|
  {
    if |s| == 0 then []
    else KeepRiasec(s[..|s| - 1]) + (if IsRiasec(s[|s| - 1]) then [s[|s| - 1]] else [])
  }

  /** The profile `scoreMajor` and `/api/recommend` work with: upper-cased,
      stripped to RIASEC letters, cut to six. */
  function SanitizeProfile(s: string): (p: string)
    ensures |p| <= 6 && AllRiasec(p)
  {
    var letters := KeepRiasec(ToUpper(s));
    if |letters| <= 6 then letters else letters[..6]
  }

  /** A string of RIASEC letters passes the filter unchanged. */
  lemma {:induction false} KeepRiasecFixed(s: string)
    requires AllRiasec(s)
    ensures KeepRiasec(s) == s
    decreases |s|
  {
    if |s| > 0 {
      KeepRiasecFixed(s[..|s| - 1]);
    }
  }

  /** Every profile is its own sanitised form. */
  lemma SanitizeProfileFixed(p: string)
    requires IsProfile(p)
    ensures SanitizeProfile(p) == p
  {
    assert ToUpper(p) == p;
    KeepRiasecFixed(p);
  }

  /** Sanitising twice is sanitising once. */
  lemma SanitizeProfileIdempotent(s: string)
    ensures SanitizeProfile(SanitizeProfile(s)) == SanitizeProfile(s)
  {
    var p := SanitizeProfile(s);
    assert ToUpper(p) == p;
    KeepRiasecFixed(p);
  }

  /** The weight `weightMap` holds for `l` after the profile loop: that of the
      last position of `l` in the profile (a repeat overwrites the earlier,
      larger weight), or 0 when `l` does not occur. */
  function LastWeight(profile: string, l: char): (w: nat)
    requires |profile| <= 6
    ensures w <= 60
    ensures w > 0 <==> l in profile
  {
    if |profile| == 0 then 0
    else if profile[|profile| - 1] == l then ProfileWeights[|profile| - 1]
    else LastWeight(profile[..|profile| - 1], l)
  }

  /** What one major code adds to the score. */
  function CodeWeight(profile: string, code: string): nat
    requires |profile| <= 6
  {
    var letter := NormalizeLetter(code);
    if letter == [] then 0 else LastWeight(profile, letter[0])
  }

  /** The sum of the weights of the codes, each occurrence counted. */
  function SumWeights(profile: string, codes: seq<string>): (total: nat)
    requires |profile| <= 6
    ensures total <= 60 * |codes|
    decreases |codes|
  {
    if |codes| == 0 then 0
    else SumWeights(profile, codes[..|codes| - 1]) + CodeWeight(profile, codes[|codes| - 1])
  }

  /** The value `scoreMajor(profileString, codes)` computes, times 60. */
  function MajorScore(profileString: string, codes: seq<string>): (r: nat)
    ensures profileString == [] ==> r == 0
    ensures r <= 60 * |codes|
  {
    if profileString == [] then 0
    else
      var profile := SanitizeProfile(profileString);
      if |profile| == 0 then 0 else SumWeights(profile, codes)
  }

  /** `scoreMajor`: builds the letter-to-weight map, then adds up the weight of
      each of the major's codes. */
  method ScoreMajor(profileString: string, codes: seq<string>) returns (total: nat)
    ensures total == MajorScore(profileString, codes)
  {
    if profileString == [] {
      return 0;
    }
    var profile := SanitizeProfile(profileString);
    if |profile| == 0 {
      return 0;
    }
    var weightMap := BuildWeightMap(profile);
    total := 0;
    var i := 0;
    while i < |codes|
      invariant i <= |codes|
      invariant total == SumWeights(profile, codes[..i])
    {
      var letter := NormalizeLetter(codes[i]);
      if letter != [] && letter[0] in weightMap {
        total := total + weightMap[letter[0]];
      }
      assert codes[..i + 1][..i] == codes[..i];
      i := i + 1;
    }
    assert codes[..i] == codes;
  }

  /** The `profile.forEach` loop: each letter mapped to the weight of its
      position, later positions overwriting earlier ones. */
  method BuildWeightMap(profile: string) returns (weightMap: map<char, nat>)
    requires |profile| <= 6
    ensures forall l :: l in weightMap <==> l in profile
    ensures forall l :: l in weightMap ==> weightMap[l] == LastWeight(profile, l)
  {
    weightMap := map[];
    var idx := 0;
    while idx < |profile|
      invariant idx <= |profile|
      invariant forall l :: l in weightMap <==> l in profile[..idx]
      invariant forall l :: l in weightMap ==> weightMap[l] == LastWeight(profile[..idx], l)
    {
      var weight := ProfileWeights[idx];
      if weight > 0 {
        weightMap := weightMap[profile[idx] := weight];
      }
      assert profile[..idx + 1][..idx] == profile[..idx];
      idx := idx + 1;
    }
    assert profile[..idx] == profile;
  }

  /** No RIASEC letter in the profile string means a score of 0. */
  lemma NoLettersScoreZero(profileString: string, codes: seq<string>)
    requires KeepRiasec(ToUpper(profileString)) == []
    ensures MajorScore(profileString, codes) == 0
  {
  }

  /** The score is additive over the codes: a repeated code counts again. */
  lemma {:induction false} SumWeightsAppend(profile: string, a: seq<string>, b: seq<string>)
    requires |profile| <= 6
    ensures SumWeights(profile, a + b) == SumWeights(profile, a) + SumWeights(profile, b)
    decreases |b|
  {
    if |b| > 0 {
      assert (a + b)[..|a + b| - 1] == a + b[..|b| - 1];
      assert (a + b)[|a + b| - 1] == b[|b| - 1];
      SumWeightsAppend(profile, a, b[..|b| - 1]);
    } else {
      assert a + b == a;
    }
  }

  lemma MajorScoreAppend(profileString: string, a: seq<string>, b: seq<string>)
    ensures MajorScore(profileString, a + b) == MajorScore(profileString, a) + MajorScore(profileString, b)
  {
    if profileString != [] && |SanitizeProfile(profileString)| > 0 {
      SumWeightsAppend(SanitizeProfile(profileString), a, b);
    }
  }

  /** In a profile (each letter once) the letter at position i weighs 1/(i+1). */
  lemma {:induction false} ProfileLetterWeight(p: string, i: nat)
    requires |p| <= 6 && Distinct(p) && i < |p|
    ensures LastWeight(p, p[i]) == ProfileWeights[i]
    decreases |p|
  {
    if i < |p| - 1 {
      assert p[..|p| - 1][i] == p[i];
      ProfileLetterWeight(p[..|p| - 1], i);
    }
  }

  /** The worked example: against profile "RIASEC", codes R, I score
      1 + 1/2 and code C scores 1/6. */
  lemma ExampleScores()
    ensures MajorScore("RIASEC", ["R", "I"]) == 90
    ensures MajorScore("RIASEC", ["C"]) == 10
  {
    SanitizeProfileFixed("RIASEC");
    ExampleSums("RIASEC");
  }

  lemma ExampleSums(p: string)
    requires p == "RIASEC"
    ensures SumWeights(p, ["R", "I"]) == 90
    ensures SumWeights(p, ["C"]) == 10
  {
    ExampleSumRI(p);
    ExampleSumC(p);
  }

  lemma ExampleSumRI(p: string)
    requires p == "RIASEC"
    ensures SumWeights(p, ["R", "I"]) == 90
  {
    assert Distinct(p);
    assert p[0] == 'R' && p[1] == 'I';
    ProfileLetterWeight(p, 0);
    ProfileLetterWeight(p, 1);
    CodeWeightOfLetter(p, 'R');
    CodeWeightOfLetter(p, 'I');
    var codes := ["R", "I"];
    assert codes[..1] == ["R"] && codes[..1][..0] == [];
    assert SumWeights(p, codes[..1]) == SumWeights(p, codes[..1][..0]) + CodeWeight(p, "R");
    assert SumWeights(p, codes) == SumWeights(p, codes[..1]) + CodeWeight(p, "I");
  }

  lemma ExampleSumC(p: string)
    requires p == "RIASEC"
    ensures SumWeights(p, ["C"]) == 10
  {
    assert Distinct(p);
    assert p[5] == 'C';
    ProfileLetterWeight(p, 5);
    CodeWeightOfLetter(p, 'C');
    assert ["C"][..0] == [];
    assert SumWeights(p, ["C"]) == SumWeights(p, ["C"][..0]) + CodeWeight(p, "C");
  }

  /** A code that is already a RIASEC letter weighs what its letter weighs. */
  lemma CodeWeightOfLetter(p: string, c: char)
    requires |p| <= 6 && IsRiasec(c)
    ensures CodeWeight(p, [c]) == LastWeight(p, c)
  {
    NormalizeUpperLetter(c);
  }

  /** An upper-case letter normalises to itself. */
  lemma NormalizeUpperLetter(c: char)
    requires IsAsciiUpper(c)
    ensures NormalizeLetter([c]) == [c]
  {
    assert !IsSpace(c);
    assert TrimStart([c]) == [c];
    assert TrimEnd([c]) == [c];
    assert UpperChar(c) == c;
  }

  /** A repeated profile letter keeps its later, smaller weight: with "RR"
      the code R is worth 1/2, not 1. */
  lemma RepeatedLetterOverwrites()
    ensures MajorScore("RR", ["R"]) == 30
  {
    RepeatedSanitized("RR");
    RepeatedSum("RR");
  }

  lemma RepeatedSanitized(s: string)
    requires s == "RR"
    ensures SanitizeProfile(s) == s
  {
    assert ToUpper(s) == s;
    assert AllRiasec(s);
    KeepRiasecFixed(s);
  }

  lemma RepeatedSum(p: string)
    requires p == "RR"
    ensures SumWeights(p, ["R"]) == 30
  {
    assert p[1] == 'R';
    assert LastWeight(p, 'R') == ProfileWeights[1];
    CodeWeightOfLetter(p, 'R');
    assert ["R"][..0] == [];
    assert SumWeights(p, ["R"]) == SumWeights(p, ["R"][..0]) + CodeWeight(p, "R");
  }

  // ---------------------------------------------------------------- ranking

  datatype ScoredMajor = ScoredMajor(major: string, codes: seq<string>, score: nat)

  /** The comparator `b.score - a.score || a.major.localeCompare(b.major)`:
      higher score first, then name in ascending order. */
  predicate RanksBefore(a: ScoredMajor, b: ScoredMajor) {
    a.score > b.score || (a.score == b.score && StrLt(a.major, b.major))
  }

  lemma RanksBeforeStrictOrder()
    ensures StrictOrder(RanksBefore)
  {
    forall a: ScoredMajor
      ensures !RanksBefore(a, a)
    {
      StrLtIrreflexive(a.major);
    }
    forall a: ScoredMajor, b: ScoredMajor, c: ScoredMajor | RanksBefore(a, b) && RanksBefore(b, c)
      ensures RanksBefore(a, c)
    {
      if a.score == b.score == c.score {
        StrLtTransitive(a.major, b.major, c.major);
      }
    }
  }

  /** Entries the ranking does not separate have the same score and the
      same name, so the ranking is a strict weak order. */
  lemma RanksBeforeWeakOrder()
    ensures StrictWeakOrder(RanksBefore)
  {
    RanksBeforeStrictOrder();
    forall a: ScoredMajor, b: ScoredMajor, c: ScoredMajor
      | Incomparable(RanksBefore, a, b) && Incomparable(RanksBefore, b, c)
      ensures Incomparable(RanksBefore, a, c)
    {
      StrLtTotal(a.major, b.major);
      StrLtTotal(b.major, c.major);
      StrLtIrreflexive(a.major);
    }
  }

  /** Every catalog entry with its score against `profile`. */
  function ScoreAll(profile: string, majors: seq<Major>): (scored: seq<ScoredMajor>)
    ensures |scored| == |majors|
    ensures forall i :: 0 <= i < |majors| ==>
              scored[i] == ScoredMajor(majors[i].name, majors[i].codes, MajorScore(profile, majors[i].codes))
  {
    seq(|majors|, i requires 0 <= i < |majors| =>
      ScoredMajor(majors[i].name, majors[i].codes, MajorScore(profile, majors[i].codes)))
  }

  /** The scored catalog in ranking order. */
  function RankMajors(profile: string, majors: seq<Major>): (r: seq<ScoredMajor>)
    ensures |r| == |majors|
  {
    SortBy(ScoreAll(profile, majors), RanksBefore)
  }

  /** The ranking is a reordering of the scored catalog in which no entry
      ranks before an earlier one. */
  lemma RankMajorsSorted(profile: string, majors: seq<Major>)
    ensures multiset(RankMajors(profile, majors)) == multiset(ScoreAll(profile, majors))
    ensures SortedBy(RankMajors(profile, majors), RanksBefore)
  {
    RanksBeforeStrictOrder();
    SortBySorted(ScoreAll(profile, majors), RanksBefore);
  }

  /** Like `Array.prototype.sort`, the ranking is stable: entries with the
      same score and name as `x` keep their catalog order. */
  lemma RankMajorsStable(profile: string, majors: seq<Major>, x: ScoredMajor)
    ensures Ties(RankMajors(profile, majors), x, RanksBefore) == Ties(ScoreAll(profile, majors), x, RanksBefore)
  {
    RanksBeforeWeakOrder();
    SortByStable(ScoreAll(profile, majors), x, RanksBefore);
  }

  /** `safeLimit`: `min(floor(limit), n)` for a positive finite number, else
      `min(15, n)`. `limit` is None when it is not a finite number. */
  function SafeLimit(limit: Option<real>, n: nat): (k: nat)
    ensures k <= n
    ensures limit.Some? && limit.value >= 1.0 && n > 0 ==> k >= 1
    ensures limit.Some? && limit.value > 0.0 ==>
              k <= limit.value.Floor && (k == limit.value.Floor || k == n)
    ensures !(limit.Some? && limit.value > 0.0) ==> k <= 15 && (k == 15 || k == n)
  {
    if limit.Some? && limit.value > 0.0 then
      var f := limit.value.Floor;
      if f < n then f else n
    else if 15 < n then 15 else n
  }

  /** The top `k` of a ranking: nothing left out ranks before anything kept. */
  lemma TopPrefix(ranked: seq<ScoredMajor>, k: nat)
    requires SortedBy(ranked, RanksBefore) && k <= |ranked|
    ensures forall i, j :: 0 <= i < k <= j < |ranked| ==> !RanksBefore(ranked[j], ranked[i])
  {
  }

  /** The loaded catalog, `cachedMajors`. */
  class MajorCatalog {
    var majors: seq<Major>

    constructor ()
      ensures majors == []
    {
      majors := [];
    }

    /** `loadMajorsFromWorkbook` once the sheet has been read into rows. */
    method Load(rows: seq<seq<string>>)
      modifies this
      ensures majors == CatalogFromRows(rows)
    {
      majors := CatalogFromRows(rows);
    }

    /** `getAllMajors`: the catalog entries. Entries are values here, so a
        caller can never change the cached catalog through them. */
    function GetAllMajors(): (r: seq<Major>)
      reads this
      ensures r == majors
    {
      majors
    }

    /** `getRecommendations`: the first `SafeLimit` entries of the ranking. */
    function GetRecommendations(profile: string, limit: Option<real>): (r: seq<ScoredMajor>)
      reads this
      ensures |r| == SafeLimit(limit, |majors|)
      ensures SortedBy(r, RanksBefore)
      ensures r == RankMajors(profile, majors)[..|r|]
      ensures multiset(r) <= multiset(ScoreAll(profile, majors))
      ensures forall i, j :: 0 <= i < |r| <= j < |majors| ==>
                !RanksBefore(RankMajors(profile, majors)[j], r[i])
    {
      var ranked := RankMajors(profile, majors);
      RankMajorsSorted(profile, majors);
      var k := SafeLimit(limit, |majors|);
      assert ranked == ranked[..k] + ranked[k..];
      ranked[..k]
    }
  }
}
