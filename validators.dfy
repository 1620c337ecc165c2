/** The field validators of the persistence layer (backend/src/models/validators.js).
    Each one either normalises its input or fails with the source's message.

    A JavaScript value that a validator passes through `String(value || '')`
    appears here as that string (null and undefined as ""); a value that must
    already be a string is an `Option<string>` (None for any other type); a
    value that is parsed as a number is a `Raw`, which records what
    `parseInt`/`parseFloat` make of it. */
module Validators {
  import opened Common
  import opened Text
  import opened Riasec

  const Genders: set<string> := {"male", "female", "other", "prefer_not"}

  const EducationLevels: set<string> := {
    "middle_school", "high_school", "associate", "bachelor", "master", "doctorate",
    "other", "unknown",
    "ibtidai t\U{259}hsil", "orta t\U{259}hsil", "tam orta t\U{259}hsil",
    "subbakalavr", "bakalavr", "magistr"
  }

  /** The refusal of `assertEducationLevel`: the levels in their listed order, joined by ", ". */
  const EducationLevelMessage: string :=
    "education_level must be one of: middle_school, high_school, associate, bachelor, master, doctorate, "
    + "other, unknown, ibtidai t\U{259}hsil, orta t\U{259}hsil, tam orta t\U{259}hsil, "
    + "subbakalavr, bakalavr, magistr"

  /** Membership in `LETTERS`: one of the one-letter strings "R", "I", "A", "S", "E", "C". */
  predicate IsLetterString(s: string) {
    |s| == 1 && IsRiasec(s[0])
  }

  /** Text with no white space at either end, as `trim` leaves it. */
  predicate IsTrimmed(s: string) {
    s == [] || (!IsSpace(s[0]) && !IsSpace(s[|s| - 1]))
  }

  /** Text that trimming leaves as it is, at each of its two steps. Stating
      all three equalities (not only the last) keeps the solver from unfolding
      the trims of such a string again and again. */
  predicate TrimFixed(s: string) {
    TrimStart(s) == s && TrimEnd(s) == s && Trim(s) == s
  }

  /** Text that trimming and upper-casing leave as it is. */
  predicate NormalFixed(s: string) {
    TrimFixed(s) && ToUpper(s) == s
  }

  lemma TrimmedFixed(s: string)
    requires IsTrimmed(s)
    ensures TrimFixed(s)
  {
  }

  // ---------------------------------------------------------------- strings

  /** `assertNonEmptyString`: the trimmed string, which must be non-empty and,
      when `maxLength` is non-zero (truthy), at most that long. */
  function AssertNonEmptyString(value: Option<string>, field: string, maxLength: nat): (r: Result<string>)
    ensures r.Ok? <==> value.Some? && Trim(value.value) != []
                       && (maxLength == 0 || |Trim(value.value)| <= maxLength)
    ensures r.Ok? ==> r.value == Trim(value.value) && IsTrimmed(r.value)
    ensures r.Ok? && maxLength > 0 ==> 1 <= |r.value| <= maxLength
  {
    var normalized := if value.Some? then Trim(value.value) else "";
    if normalized == [] then Err(field + " is required")
    else if maxLength != 0 && |normalized| > maxLength then
      Err(field + " must be <= " + NatToString(maxLength) + " characters")
    else Ok(normalized)
  }

  /** A string the validator accepted is accepted again unchanged. */
  lemma NonEmptyStringIdempotent(value: Option<string>, field: string, maxLength: nat)
    requires AssertNonEmptyString(value, field, maxLength).Ok?
    ensures var s := AssertNonEmptyString(value, field, maxLength).value;
            AssertNonEmptyString(Some(s), field, maxLength) == Ok(s)
  {
    TrimIdempotent(value.value);
  }

  // ---------------------------------------------------------------- profile

  /** `assertProfile`: the trimmed, upper-cased text must hold exactly six
      letters from RIASEC (checked one by one), and its set of letters must
      have six elements. */
  function AssertProfile(value: string): (r: Result<string>)
    ensures r.Ok? <==> IsProfile(ToUpper(Trim(value)))
    ensures r.Ok? ==> r.value == ToUpper(Trim(value))
  {
    var profile := ToUpper(Trim(value));
    CardOfDistinct(profile);
    if |profile| != 6 then Err("riasec_profile must contain exactly 6 letters")
    else if !AllRiasec(profile) then Err("riasec_profile may only contain R, I, A, S, E, C")
    else if |set x | x in profile| != 6 then
      Err("riasec_profile must include each of R, I, A, S, E, C exactly once")
    else Ok(profile)
  }

  /** Every profile is accepted as it is. */
  lemma ProfileAccepted(p: string)
    requires IsProfile(p)
    ensures ToUpper(Trim(p)) == p
    ensures AssertProfile(p) == Ok(p)
  {
    NormalizedFixed(p);
  }

  // ---------------------------------------------------------------- options

  /** The stored form of a question's options: three distinct letters joined by
      commas, such as "R,I,A". */
  predicate OptionsShaped(s: string) {
    |s| == 5 && s[1] == ',' && s[3] == ','
    && IsRiasec(s[0]) && IsRiasec(s[2]) && IsRiasec(s[4])
    && s[0] != s[2] && s[0] != s[4] && s[2] != s[4]
  }

  /** `assertOptionsString`: at most 10 characters once trimmed, then
      upper-cased and checked by `CheckOptionParts`. */
  function AssertOptionsString(value: Option<string>): (r: Result<string>)
    ensures r.Ok? <==> value.Some? && OptionsShaped(ToUpper(Trim(value.value)))
    ensures r.Ok? ==> r.value == ToUpper(Trim(value.value))
  {
    var trimmed :- AssertNonEmptyString(value, "options", 10);
    CheckOptionParts(ToUpper(trimmed))
  }

  /** The part of `assertOptionsString` after normalising: split on commas
      into exactly three one-letter parts, all different, and join back. */
  function CheckOptionParts(normalized: string): (r: Result<string>)
    ensures r.Ok? <==> OptionsShaped(normalized)
    ensures r.Ok? ==> r.value == normalized
  {
    var parts := Split(normalized, ',');
    JoinSplit(normalized, ',');
    SplitShaped(normalized);
    if |parts| != 3 then Err("options must have exactly 3 comma-separated letters")
    else if !(IsLetterString(parts[0]) && IsLetterString(parts[1]) && IsLetterString(parts[2])) then
      Err("options may only contain R, I, A, S, E, C letters")
    else
      JoinThree(parts);
      ThreeDistinct(parts);
      if |set p | p in parts| != 3 then Err("options must contain 3 distinct letters")
      else Ok(Join(parts, ','))
  }

  lemma JoinThree(parts: seq<string>)
    requires |parts| == 3
    ensures Join(parts, ',') == parts[0] + [','] + parts[1] + [','] + parts[2]
  {
    JoinCons(parts[0], parts[1..], ',');
    JoinCons(parts[1], parts[2..], ',');
    assert [parts[0]] + parts[1..] == parts;
    assert [parts[1]] + parts[2..] == parts[1..];
  }

  /** Three one-letter strings form a three-element set exactly when their letters differ. */
  lemma ThreeDistinct(parts: seq<string>)
    requires |parts| == 3
    requires IsLetterString(parts[0]) && IsLetterString(parts[1]) && IsLetterString(parts[2])
    ensures |set p | p in parts| == 3 <==>
              parts[0][0] != parts[1][0] && parts[0][0] != parts[2][0] && parts[1][0] != parts[2][0]
  {
    var a, b, c := parts[0], parts[1], parts[2];
    assert parts == [a, b, c];
    assert (set p | p in parts) == {a, b, c};
    assert a == b <==> a[0] == b[0];
    assert a == c <==> a[0] == c[0];
    assert b == c <==> b[0] == c[0];
  }

  /** The three parts of a well-shaped options string are its three letters. */
  lemma SplitShaped(s: string)
    ensures OptionsShaped(s) ==> Split(s, ',') == [[s[0]], [s[2]], [s[4]]]
  {
    if OptionsShaped(s) {
      var parts := [[s[0]], [s[2]], [s[4]]];
      JoinThree(parts);
      assert Join(parts, ',') == s;
      SplitJoin(parts, ',');
    }
  }

  /** A well-shaped options string is accepted as it is. */
  lemma OptionsAccepted(s: string)
    requires OptionsShaped(s)
    ensures AssertOptionsString(Some(s)) == Ok(s)
  {
    NormalizedFixed(s);
  }

  /** Trimmed text without lower-case letters is its own normal form. */
  lemma NormalizedFixed(s: string)
    requires IsTrimmed(s)
    requires forall i :: 0 <= i < |s| ==> !IsAsciiLower(s[i])
    ensures NormalFixed(s) && ToUpper(Trim(s)) == s
  {
    TrimmedFixed(s);
    UpperFixed(s);
  }

  /** Upper-casing leaves text without lower-case letters unchanged. */
  lemma UpperFixed(s: string)
    requires forall i :: 0 <= i < |s| ==> !IsAsciiLower(s[i])
    ensures ToUpper(s) == s
  {
  }

  // ---------------------------------------------------------------- question ids

  /** `Q${String(n).padStart(2, '0')}`: "Q01" … "Q30". */
  function QuestionKey(n: nat): (key: string)
    ensures n < 100 ==> |key| == 3
    ensures |key| >= 1 && key[0] == 'Q'
  {
    "Q" + Pad2(n)
  }

  /** Different question numbers have different keys. */
  lemma QuestionKeyInjective(m: nat, n: nat)
    requires QuestionKey(m) == QuestionKey(n)
    ensures m == n
  {
    assert Pad2(m) == QuestionKey(m)[1..];
    Pad2Value(m);
    Pad2Value(n);
  }

  /** Two digits read as a number and padded back give the same two digits. */
  lemma Pad2OfDigits(d: string)
    requires |d| == 2 && IsAsciiDigit(d[0]) && IsAsciiDigit(d[1])
    ensures Pad2(DigitsValue(d)) == d
  {
    assert d[..1] == [d[0]];
    assert [d[0]][..0] == [];
    assert DigitsValue([d[0]]) == DigitValue(d[0]);
    var v := DigitsValue(d);
    assert v == 10 * DigitValue(d[0]) + DigitValue(d[1]);
    if DigitValue(d[0]) != 0 {
      assert NatToString(v) == NatToString(v / 10) + [Digit(v % 10)];
    }
  }

  /** `assertQuestionId`: the trimmed, upper-cased text, checked by `CheckQuestionKey`. */
  function AssertQuestionId(value: string): (r: Result<string>)
    ensures r.Ok? <==> exists n :: 1 <= n <= 30 && QuestionKey(n) == ToUpper(Trim(value))
    ensures r.Ok? ==> r.value == ToUpper(Trim(value))
  {
    CheckQuestionKey(ToUpper(Trim(value)))
  }

  /** `^Q\d{2}$` and an ordinal from 1 to 30: exactly the keys Q01 … Q30. */
  function CheckQuestionKey(normalized: string): (r: Result<string>)
    ensures r.Ok? <==> exists n :: 1 <= n <= 30 && QuestionKey(n) == normalized
    ensures r.Ok? ==> r.value == normalized
  {
    if !(|normalized| == 3 && normalized[0] == 'Q' && IsAsciiDigit(normalized[1]) && IsAsciiDigit(normalized[2])) then
      QuestionKeyShape(normalized);
      Err("question_id must match Q01..Q30 format")
    else
      var ordinal := DigitsValue(normalized[1..]);
      Pad2OfDigits(normalized[1..]);
      assert QuestionKey(ordinal) == normalized;
      if ordinal < 1 || ordinal > 30 then
        QuestionKeyOrdinal(normalized, ordinal);
        Err("question_id must be between Q01 and Q30")
      else Ok(normalized)
  }

  /** A key of a number below 100 matches `^Q\d{2}$`. */
  lemma QuestionKeyShape(s: string)
    ensures (exists n :: 1 <= n <= 30 && QuestionKey(n) == s) ==>
              |s| == 3 && s[0] == 'Q' && IsAsciiDigit(s[1]) && IsAsciiDigit(s[2])
  {
  }

  /** The number a key reads back as is the number it was made from. */
  lemma QuestionKeyOrdinal(s: string, ordinal: nat)
    requires |s| == 3 && IsAsciiDigit(s[1]) && IsAsciiDigit(s[2])
    requires ordinal == DigitsValue(s[1..])
    ensures forall n :: QuestionKey(n) == s ==> n == ordinal
  {
    forall n | QuestionKey(n) == s
      ensures n == ordinal
    {
      assert Pad2(n) == s[1..];
      Pad2Value(n);
    }
  }

  /** Every key from Q01 to Q30 is accepted as it is. */
  lemma QuestionKeyAccepted(n: nat)
    requires 1 <= n <= 30
    ensures AssertQuestionId(QuestionKey(n)) == Ok(QuestionKey(n))
    ensures NormalFixed(QuestionKey(n))
  {
    var key := QuestionKey(n);
    NormalizedFixed(key);
  }

  // ---------------------------------------------------------------- numbers

  /** `assertChosenPosition`: an integer from 1 to 3. */
  function AssertChosenPosition(value: Raw<int>): (r: Result<int>)
    ensures r.Ok? <==> value.Parsed().Some? && 1 <= value.Parsed().value <= 3
    ensures r.Ok? ==> r.value == value.Parsed().value
  {
    var position := value.Parsed();
    if position.None? || position.value < 1 || position.value > 3 then
      Err("chosen_position must be an integer between 1 and 3")
    else Ok(position.value)
  }

  /** `Number(x.toFixed(2))` for a non-negative `x`, in hundredths: `x` rounded
      to the nearest hundredth, halves rounded up. */
  function Hundredths(x: real): (h: nat)
    requires x >= 0.0
    ensures (h as real) - 0.5 <= x * 100.0 < (h as real) + 0.5
  {
    (x * 100.0 + 0.5).Floor
  }

  /** Rounding is monotone, so a bound on the seconds bounds the hundredths. */
  lemma HundredthsAtMost(x: real, bound: nat)
    requires 0.0 <= x <= bound as real
    ensures Hundredths(x) <= 100 * bound
  {
  }

  /** `assertResponseTimeSec`: a finite number of seconds from 0 to 600,
      kept to two decimals (here: in hundredths of a second). */
  function AssertResponseTimeSec(value: Raw<real>): (r: Result<nat>)
    ensures r.Ok? <==> value.Parsed().Some? && 0.0 <= value.Parsed().value <= 600.0
    ensures r.Ok? ==> r.value <= 60000
                      && (r.value as real) - 0.5 <= value.Parsed().value * 100.0 < (r.value as real) + 0.5
  {
    var num := value.Parsed();
    if num.None? || num.value < 0.0 || num.value > 600.0 then
      Err("response_time_sec must be a number between 0 and 600")
    else
      HundredthsAtMost(num.value, 600);
      Ok(Hundredths(num.value))
  }

  /** A stored time (hundredths up to 60000) passes validation unchanged. */
  lemma ResponseTimeStable(h: nat)
    requires h <= 60000
    ensures AssertResponseTimeSec(Given(Some(h as real / 100.0))) == Ok(h)
  {
    assert (h as real / 100.0) * 100.0 == h as real;
  }

  /** `assertScore`: a non-negative integer. */
  function AssertScore(value: Raw<int>, field: string): (r: Result<nat>)
    ensures r.Ok? <==> value.Parsed().Some? && value.Parsed().value >= 0
    ensures r.Ok? ==> r.value == value.Parsed().value
  {
    var parsed := value.Parsed();
    if parsed.None? || parsed.value < 0 then Err(field + " must be a non-negative integer")
    else Ok(parsed.value)
  }

  /** `assertSatisfactionScore`: an integer from 1 to 5. */
  function AssertSatisfactionScore(value: Raw<int>): (r: Result<int>)
    ensures r.Ok? <==> value.Parsed().Some? && 1 <= value.Parsed().value <= 5
    ensures r.Ok? ==> r.value == value.Parsed().value
  {
    var score := value.Parsed();
    if score.None? || score.value < 1 || score.value > 5 then
      Err("satisfaction_score must be an integer between 1 and 5")
    else Ok(score.value)
  }

  // ---------------------------------------------------------------- chosen code

  /** `assertChosenCodeInOptions`: the trimmed, upper-cased code must be one
      of the six letters and one of the comma-separated parts of `options`. */
  function AssertChosenCodeInOptions(chosenCode: string, options: string): (r: Result<string>)
    ensures r.Ok? ==> r.value == ToUpper(Trim(chosenCode)) && IsLetterString(r.value)
  {
    var code := ToUpper(Trim(chosenCode));
    if !IsLetterString(code) then Err("chosen_code must be one of R, I, A, S, E, C")
    else if code !in Split(options, ',') then Err("chosen_code must be one of the options")
    else Ok(code)
  }

  /** Against a stored options string, a code is accepted exactly when it
      names one of the three letters. */
  lemma ChosenCodeInShapedOptions(chosenCode: string, options: string)
    requires OptionsShaped(options)
    ensures AssertChosenCodeInOptions(chosenCode, options).Ok? <==>
              var code := ToUpper(Trim(chosenCode));
              code == [options[0]] || code == [options[2]] || code == [options[4]]
  {
    SplitShaped(options);
    assert Split(options, ',') == [[options[0]], [options[2]], [options[4]]];
  }

  // ---------------------------------------------------------------- profile fields

  /** `assertGender`: the trimmed, lower-cased text must be a known gender. */
  function AssertGender(value: string): (r: Result<string>)
    ensures r.Ok? <==> ToLower(Trim(value)) in Genders
    ensures r.Ok? ==> r.value == ToLower(Trim(value))
  {
    var normalized := ToLower(Trim(value));
    if normalized !in Genders then
      Err("gender must be one of: male, female, other, prefer_not")
    else Ok(normalized)
  }

  /** A normalised gender is accepted again unchanged. */
  lemma GenderIdempotent(value: string)
    requires AssertGender(value).Ok?
    ensures AssertGender(AssertGender(value).value) == AssertGender(value)
  {
    TrimLower(Trim(value));
    TrimIdempotent(value);
    ToLowerIdempotent(Trim(value));
  }

  /** `assertEducationLevel`: the trimmed text, whose lower-case form must be a
      known level; the text itself is returned with its case as given. */
  function AssertEducationLevel(value: string): (r: Result<string>)
    ensures r.Ok? <==> ToLower(Trim(value)) in EducationLevels
    ensures r.Ok? ==> r.value == Trim(value)
    ensures r.Err? ==> r.msg == EducationLevelMessage
  {
    var raw := Trim(value);
    if raw == [] then
      NoEmptyLevel(raw);
      Err(EducationLevelMessage)
    else if ToLower(raw) !in EducationLevels then
      Err(EducationLevelMessage)
    else Ok(raw)
  }

  lemma NoEmptyLevel(raw: string)
    requires raw == []
    ensures ToLower(raw) !in EducationLevels
  {
    assert ToLower(raw) == [];
  }

  /** A level is stored as typed: any trimmed spelling whose lower-case form
      is known is accepted unchanged, capitals included. */
  lemma EducationLevelKeepsCase(raw: string)
    requires IsTrimmed(raw) && ToLower(raw) in EducationLevels
    ensures AssertEducationLevel(raw) == Ok(raw)
  {
    TrimmedFixed(raw);
  }

  /** For instance "Bachelor" is accepted and stays capitalised. */
  lemma BachelorKeepsCase()
    ensures AssertEducationLevel("Bachelor") == Ok("Bachelor")
  {
    BachelorLower();
    EducationLevelKeepsCase("Bachelor");
  }

  lemma BachelorLower()
    ensures ToLower("Bachelor") == "bachelor"
  {
    var b := "Bachelor";
    forall i | 0 <= i < |b|
      ensures ToLower(b)[i] == "bachelor"[i]
    {
    }
  }

  // ---------------------------------------------------------------- subjects

  /** `^\p{L}[\p{L}\s-]*$`: a letter, then letters, white space or hyphens.
      `isLetter` stands for the Unicode `\p{L}` class. */
  predicate SubjectPattern(s: string, isLetter: char -> bool) {
    |s| >= 1 && isLetter(s[0])
    && forall i :: 1 <= i < |s| ==> isLetter(s[i]) || IsSpace(s[i]) || s[i] == '-'
  }

  /** `assertSubject`: the trimmed text, at most 30 characters, matching the
      subject pattern; an empty text is None when the field is optional. */
  function AssertSubject(value: string, field: string, optional: bool, isLetter: char -> bool): (r: Result<Option<string>>)
    ensures r == Ok(None) <==> optional && Trim(value) == []
    ensures (r.Ok? && r.value.Some?) <==>
              1 <= |Trim(value)| <= 30 && SubjectPattern(Trim(value), isLetter)
    ensures r.Ok? && r.value.Some? ==> r.value.value == Trim(value)
  {
    var normalized := Trim(value);
    if normalized == [] then
      if optional then Ok(None) else Err(field + " is required")
    else if |normalized| > 30 then Err(field + " must be <= 30 characters")
    else if !SubjectPattern(normalized, isLetter) then
      Err(field + " must contain only letters, spaces, or hyphen")
    else Ok(Some(normalized))
  }

  /** An accepted subject is accepted again unchanged. */
  lemma SubjectIdempotent(value: string, field: string, optional: bool, isLetter: char -> bool)
    requires AssertSubject(value, field, optional, isLetter).Ok?
    ensures var r := AssertSubject(value, field, optional, isLetter);
            r.value.Some? ==> AssertSubject(r.value.value, field, optional, isLetter) == r
  {
    TrimIdempotent(value);
  }
}
