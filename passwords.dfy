/** The day-15 password checks: the three "nice" checks with the first
    failing one reported, and the nine game rules with the lowest-numbered
    failing rule reported and mapped to an HTTP status. */
module Passwords {
  import opened Wrappers
  import opened Ints
  import opened Text
  import Decimal

  // ------------------------------------------------------------ nice

  predicate IsVowel(c: char) {
    c == 'a' || c == 'e' || c == 'i' || c == 'o' || c == 'u'
  }

  /** `contains_three_vowels`: at least three of the characters are lowercase
      vowels. */
  predicate ContainsThreeVowels(s: string) {
    CountChars(s, IsVowel) >= 3
  }

  /** The vowel check counts positions, not distinct vowels. */
  lemma ThreeVowelsPositions(s: string)
    ensures ContainsThreeVowels(s) <==> |Positions(s, IsVowel)| >= 3
  {
    CountCharsPositions(s, IsVowel);
  }

  /** Some letter is immediately followed by the same letter. */
  predicate HasDoubleLetter(s: string) {
    exists i :: 0 <= i < |s| - 1 && IsAlphabetic(s[i]) && s[i] == s[i + 1]
  }

  /** `one_letter_twice`: walks the characters with a one-character
      look-ahead, recomputing the verdict at every character that has a
      successor and stopping at the first pair of equal letters. */
  method OneLetterTwice(s: string) returns (valid: bool)
    ensures valid == HasDoubleLetter(s)
  {
    valid := false;
    var i := 0;
    while i < |s|
      invariant 0 <= i <= |s|
      invariant !valid
      invariant forall j :: 0 <= j < i && j < |s| - 1 ==> !(IsAlphabetic(s[j]) && s[j] == s[j + 1])
    {
      var curr := s[i];
      i := i + 1;
      if i < |s| {
        var next := s[i];
        valid := IsAlphabetic(curr) && curr == next;
        if valid {
          return;
        }
      }
    }
  }

  /** `contains_substrings`: one of "ab", "cd", "pq" or "xy" occurs. */
  predicate ContainsSubstrings(s: string) {
    ContainsPair(s, 'a', 'b') || ContainsPair(s, 'c', 'd')
      || ContainsPair(s, 'p', 'q') || ContainsPair(s, 'x', 'y')
  }

  /** The forbidden-pair check holds exactly when one of the four pairs is a
      substring of the text. */
  lemma ContainsSubstringsIff(s: string)
    ensures ContainsSubstrings(s) <==>
      (exists u, v :: s == u + "ab" + v) || (exists u, v :: s == u + "cd" + v)
      || (exists u, v :: s == u + "pq" + v) || (exists u, v :: s == u + "xy" + v)
  {
    ContainsPairSubstring(s, 'a', 'b');
    ContainsPairSubstring(s, 'c', 'd');
    ContainsPairSubstring(s, 'p', 'q');
    ContainsPairSubstring(s, 'x', 'y');
  }

  datatype NiceFailure = NoThreeVowels | NoDoubleLetter | ForbiddenPair

  datatype NiceResult = Nice | Naughty(failure: NiceFailure)

  /** The error text `is_nice` attaches to each failure. */
  function FailureText(f: NiceFailure): string {
    match f
    case NoThreeVowels => "Three vowels"
    case NoDoubleLetter => "One letter twice"
    case ForbiddenPair => "Substring"
  }

  /** `is_nice`: the three checks in order, the first failing one reported. */
  function IsNice(s: string): (r: NiceResult)
  {
    if !ContainsThreeVowels(s) then Naughty(NoThreeVowels)
    else if !HasDoubleLetter(s) then Naughty(NoDoubleLetter)
    else if ContainsSubstrings(s) then Naughty(ForbiddenPair)
    else Nice
  }

  /** Whether check `f` passes on `s`. */
  predicate NicePasses(f: NiceFailure, s: string) {
    match f
    case NoThreeVowels => ContainsThreeVowels(s)
    case NoDoubleLetter => HasDoubleLetter(s)
    case ForbiddenPair => !ContainsSubstrings(s)
  }

  function NiceIndex(f: NiceFailure): nat {
    match f
    case NoThreeVowels => 0
    case NoDoubleLetter => 1
    case ForbiddenPair => 2
  }

  /** A text is nice exactly when all three checks pass, and a naughty text
      is reported with a failing check before which every check passes. */
  lemma IsNiceFirstFailure(s: string)
    ensures IsNice(s) == Nice <==>
      NicePasses(NoThreeVowels, s) && NicePasses(NoDoubleLetter, s) && NicePasses(ForbiddenPair, s)
    ensures IsNice(s).Naughty? ==>
      !NicePasses(IsNice(s).failure, s)
      && forall g: NiceFailure :: NiceIndex(g) < NiceIndex(IsNice(s).failure) ==> NicePasses(g, s)
  {
  }

  /** The `nice` endpoint: 200 with "nice", or 400 with "naughty". */
  function NiceResponse(s: string): (r: (int, string))
    ensures r.0 == 200 <==> IsNice(s) == Nice
    ensures r.1 == (if r.0 == 200 then "nice" else "naughty")
  {
    match IsNice(s)
    case Nice => (200, "nice")
    case Naughty(_) => (400, "naughty")
  }

  // ------------------------------------------------------------ game

  /** Rule 1: at least eight bytes of UTF-8. */
  predicate Rule1(s: string) {
    Utf8Len(s) >= 8
  }

  /** Rule 1 counts bytes: eight characters always pass, two never do, and
      for ASCII text it is exactly "at least eight characters". */
  lemma Rule1Bytes(s: string)
    ensures |s| >= 8 ==> Rule1(s)
    ensures |s| < 2 ==> !Rule1(s)
    ensures IsAscii(s) ==> (Rule1(s) <==> |s| >= 8)
  {
    Utf8LenBounds(s);
  }

  /** Rule 2: a lowercase ASCII letter, an uppercase ASCII letter and an ASCII
      digit each occur. */
  predicate Rule2(s: string) {
    (exists i :: 0 <= i < |s| && IsAsciiLower(s[i]))
    && (exists i :: 0 <= i < |s| && IsAsciiUpper(s[i]))
    && (exists i :: 0 <= i < |s| && IsAsciiDigit(s[i]))
  }

  /** Rule 2 as counts: each of the three classes is present at least once. */
  lemma Rule2Counts(s: string)
    ensures Rule2(s) <==>
      CountChars(s, IsAsciiLower) > 0 && CountChars(s, IsAsciiUpper) > 0
      && CountChars(s, IsAsciiDigit) > 0
  {
    AnyCharCount(s, IsAsciiLower);
    AnyCharCount(s, IsAsciiUpper);
    AnyCharCount(s, IsAsciiDigit);
  }

  /** Rule 3: at least five numeric characters. */
  predicate Rule3(s: string) {
    CountChars(s, IsNumeric) >= 5
  }

  lemma Rule3Positions(s: string)
    ensures Rule3(s) <==> |Positions(s, IsNumeric)| >= 5
  {
    CountCharsPositions(s, IsNumeric);
  }

  /** The state of the rule-4 scan: the completed digit runs parsed so far and
      the run being collected. */
  datatype Scan = Scan(ints: seq<i32>, current: string) | ScanPanic

  /** The rule-4 scan of `s`, one character at a time: a digit extends the
      current run; a non-digit ends a non-empty run, whose text is parsed as
      an `i32` and `unwrap`ped (see `Decimal.ParseDigits`: it fails exactly
      when the value exceeds `i32::MAX`). The last run is still open at the
      end. */
  function ScanRuns(s: string): (r: Scan)
    ensures r.Scan? ==> Decimal.AllDigits(r.current) && |r.current| <= |s|
    ensures r.Scan? ==> (r.current == "" <==> s == [] || !IsNumeric(s[|s| - 1]))
  {
    if s == [] then Scan([], "")
    else
      var c := s[|s| - 1];
      match ScanRuns(s[..|s| - 1])
      case ScanPanic => ScanPanic
      case Scan(ints, current) =>
        if IsNumeric(c) then Scan(ints, current + [c])
        else if |current| > 0 then
          var v := Decimal.DigitsValue(current);
          if v <= I32_MAX then Scan(ints + [v], "") else ScanPanic
        else Scan(ints, current)
  }

  function Sum(xs: seq<int>): int {
    if xs == [] then 0 else Sum(xs[..|xs| - 1]) + xs[|xs| - 1]
  }

  /** Rule 4: the completed digit runs, summed as `i32` (wrapping), make 2023.
      A run too large for `i32` makes the `unwrap` panic. */
  function Rule4(s: string): Outcome<bool> {
    match ScanRuns(s)
    case ScanPanic => Panic
    case Scan(ints, _) => Done(Wrap32(Sum(ints)) == 2023)
  }

  /** `check_rule_4`, with its loop over the characters. */
  method CheckRule4(s: string) returns (r: Outcome<bool>)
    ensures r == Rule4(s)
  {
    var ints: seq<i32> := [];
    var current := "";
    var i := 0;
    while i < |s|
      invariant 0 <= i <= |s|
      invariant ScanRuns(s[..i]) == Scan(ints, current)
    {
      var c := s[i];
      ScanOne(s, i);
      if IsNumeric(c) {
        current := current + [c];
      } else if |current| > 0 {
        var parsed := Decimal.ParseI32(current);
        Decimal.ParseDigits(current, true, I32_MIN, I32_MAX);
        if parsed.None? {
          ScanPanicStays(s, i + 1);
          return Panic;
        }
        ints := ints + [parsed.value];
        current := "";
      }
      i := i + 1;
    }
    assert s[..i] == s;
    return Done(Wrap32(Sum(ints)) == 2023);
  }

  /** One step of the scan, on the prefixes of `s`. */
  lemma ScanOne(s: string, i: nat)
    requires i < |s|
    ensures ScanRuns(s[..i + 1]) ==
      match ScanRuns(s[..i])
      case ScanPanic => ScanPanic
      case Scan(ints, current) =>
        if IsNumeric(s[i]) then Scan(ints, current + [s[i]])
        else if |current| > 0 then
          if Decimal.DigitsValue(current) <= I32_MAX then Scan(ints + [Decimal.DigitsValue(current)], "")
          else ScanPanic
        else Scan(ints, current)
  {
    assert s[..i + 1][..i] == s[..i];
  }

  /** Once the scan has panicked, it stays panicked. */
  lemma {:induction false} ScanPanicStays(s: string, k: nat)
    requires k <= |s| && ScanRuns(s[..k]) == ScanPanic
    ensures ScanRuns(s) == ScanPanic
    decreases |s| - k
  {
    if k < |s| {
      assert s[..k + 1][..k] == s[..k];
      ScanPanicStays(s, k + 1);
    } else {
      assert s[..k] == s;
    }
  }

  /** Digits extend the open run and nothing else: appending digits never
      changes the completed runs, so a run at the end of the text is never
      counted. */
  lemma {:induction false} AppendDigits(s: string, d: string)
    requires Decimal.AllDigits(d)
    ensures ScanRuns(s + d).ScanPanic? == ScanRuns(s).ScanPanic?
    ensures ScanRuns(s).Scan? ==>
      ScanRuns(s + d) == Scan(ScanRuns(s).ints, ScanRuns(s).current + d)
  {
    if d != [] {
      var d' := d[..|d| - 1];
      var c := d[|d| - 1];
      AppendDigits(s, d');
      assert s + d == (s + d') + [c];
      DigitStep(s + d', c);
      if ScanRuns(s).Scan? {
        assert ScanRuns(s).current + d' + [c] == ScanRuns(s).current + d;
      }
    } else {
      assert s + d == s;
    }
  }

  /** A digit extends the open run. */
  lemma DigitStep(s: string, c: char)
    requires IsNumeric(c)
    ensures ScanRuns(s + [c]) == match ScanRuns(s)
      case ScanPanic => ScanPanic
      case Scan(ints, current) => Scan(ints, current + [c])
  {
    assert (s + [c])[..|s|] == s;
  }

  /** A non-digit after a digit run closes it: the run's value is appended
      to the completed runs when it fits in `i32`, and the scan panics
      otherwise. A non-digit after a non-digit changes nothing. */
  lemma CloseRun(s: string, c: char)
    requires !IsNumeric(c)
    ensures ScanRuns(s).ScanPanic? ==> ScanRuns(s + [c]).ScanPanic?
    ensures ScanRuns(s).Scan? && ScanRuns(s).current == "" ==> ScanRuns(s + [c]) == ScanRuns(s)
    ensures ScanRuns(s).Scan? && ScanRuns(s).current != "" ==>
      var run := Decimal.DigitsValue(ScanRuns(s).current);
      ScanRuns(s + [c]) == if run <= I32_MAX then Scan(ScanRuns(s).ints + [run], "") else ScanPanic
  {
    assert (s + [c])[..|s|] == s;
  }

  /** Rule 5: keeping only the letters j, o and y leaves exactly "joy". */
  predicate IsJoyLetter(c: char) {
    c == 'j' || c == 'o' || c == 'y'
  }

  predicate Rule5(s: string) {
    FilterChars(s, IsJoyLetter) == "joy"
  }

  /** A passing text has exactly three of the letters j, o and y. */
  lemma Rule5Count(s: string)
    requires Rule5(s)
    ensures CountChars(s, IsJoyLetter) == 3
    ensures |Positions(s, IsJoyLetter)| == 3
  {
    CountCharsPositions(s, IsJoyLetter);
  }

  /** Text with no j, o or y around one 'j', one 'o' and one 'y', in that order,
      passes rule 5. */
  lemma Rule5Shape(u: string, v: string, w: string, x: string)
    requires forall i :: 0 <= i < |u| ==> !IsJoyLetter(u[i])
    requires forall i :: 0 <= i < |v| ==> !IsJoyLetter(v[i])
    requires forall i :: 0 <= i < |w| ==> !IsJoyLetter(w[i])
    requires forall i :: 0 <= i < |x| ==> !IsJoyLetter(x[i])
    ensures Rule5(u + "j" + v + "o" + w + "y" + x)
  {
    var p := IsJoyLetter;
    FilterCharsNone(u, p);
    var t1 := u + "j";
    AppendLetter(u, 'j', "");
    var t2 := t1 + v;
    AppendPlain(t1, v, "j");
    var t3 := t2 + "o";
    AppendLetter(t2, 'o', "j");
    var t4 := t3 + w;
    AppendPlain(t3, w, "jo");
    var t5 := t4 + "y";
    AppendLetter(t4, 'y', "jo");
    AppendPlain(t5, x, "joy");
  }

  lemma AppendLetter(t: string, c: char, f: string)
    requires FilterChars(t, IsJoyLetter) == f && IsJoyLetter(c)
    ensures FilterChars(t + [c], IsJoyLetter) == f + [c]
  {
    assert (t + [c])[..|t|] == t;
  }

  lemma AppendPlain(t: string, v: string, f: string)
    requires FilterChars(t, IsJoyLetter) == f
    requires forall i :: 0 <= i < |v| ==> !IsJoyLetter(v[i])
    ensures FilterChars(t + v, IsJoyLetter) == f
  {
    FilterCharsNone(v, IsJoyLetter);
    FilterCharsAppend(t, v, IsJoyLetter);
  }

  /** Rules 6 to 9 rest on a regular-expression engine, an emoji table and
      SHA-256; their verdicts are inputs to this model. */
  datatype ForeignRules = ForeignRules(sandwich: bool, outranged: bool, emoji: bool, coffee: bool)

  /** The outcome of rule `n` (1 to 9) on `s`. */
  function Check(n: nat, s: string, f: ForeignRules): Outcome<bool>
    requires 1 <= n <= 9
  {
    if n == 1 then Done(Rule1(s))
    else if n == 2 then Done(Rule2(s))
    else if n == 3 then Done(Rule3(s))
    else if n == 4 then Rule4(s)
    else if n == 5 then Done(Rule5(s))
    else if n == 6 then Done(f.sandwich)
    else if n == 7 then Done(f.outranged)
    else if n == 8 then Done(f.emoji)
    else Done(f.coffee)
  }

  datatype Validity = Valid | Invalid(rule: nat, reason: string)

  /** The reason `is_valid` gives for rule `n`. */
  function RuleReason(n: nat): string {
    if n == 1 then "8 chars"
    else if n == 2 then "more types of chars"
    else if n == 3 then "55555"
    else if n == 4 then "math is hard"
    else if n == 5 then "not joyful enough"
    else if n == 6 then "illegal: no sandwich"
    else if n == 7 then "outranged"
    else if n == 8 then "\U{1F633}"
    else "not a coffee brewer"
  }

  /** `is_valid`: the rules in order, the first failing one reported; a panic
      in rule 4 ends the request. */
  function IsValid(s: string, f: ForeignRules): Outcome<Validity> {
    if !Rule1(s) then Done(Invalid(1, RuleReason(1)))
    else if !Rule2(s) then Done(Invalid(2, RuleReason(2)))
    else if !Rule3(s) then Done(Invalid(3, RuleReason(3)))
    else match Rule4(s)
      case Panic => Panic
      case Done(ok4) =>
        if !ok4 then Done(Invalid(4, RuleReason(4)))
        else if !Rule5(s) then Done(Invalid(5, RuleReason(5)))
        else if !f.sandwich then Done(Invalid(6, RuleReason(6)))
        else if !f.outranged then Done(Invalid(7, RuleReason(7)))
        else if !f.emoji then Done(Invalid(8, RuleReason(8)))
        else if !f.coffee then Done(Invalid(9, RuleReason(9)))
        else Done(Valid)
  }

  /** Validity is all nine rules passing. */
  lemma ValidWhenAllPass(s: string, f: ForeignRules)
    ensures IsValid(s, f) == Done(Valid) <==> forall m :: 1 <= m <= 9 ==> Check(m, s, f) == Done(true)
  {
    if forall m :: 1 <= m <= 9 ==> Check(m, s, f) == Done(true) {
      assert Check(1, s, f) == Done(true) && Check(2, s, f) == Done(true);
      assert Check(3, s, f) == Done(true) && Check(4, s, f) == Done(true);
      assert Check(5, s, f) == Done(true) && Check(6, s, f) == Done(true);
      assert Check(7, s, f) == Done(true) && Check(8, s, f) == Done(true);
      assert Check(9, s, f) == Done(true);
    }
  }

  /** The rule reported is the lowest-numbered failing rule: it fails, and
      every rule before it passes. The request panics exactly when rules 1
      to 3 pass and rule 4 panics. */
  lemma FailureIsFirst(s: string, f: ForeignRules)
    ensures IsValid(s, f).Done? && IsValid(s, f).value.Invalid? ==>
      var n := IsValid(s, f).value.rule;
      1 <= n <= 9 && Check(n, s, f) == Done(false)
      && IsValid(s, f).value.reason == RuleReason(n)
      && forall m :: 1 <= m < n ==> Check(m, s, f) == Done(true)
    ensures IsValid(s, f) == Panic <==>
      Check(1, s, f) == Check(2, s, f) == Check(3, s, f) == Done(true) && Check(4, s, f) == Panic
  {
  }

  /** The status code `game` answers for a rejected rule; a rule number outside
      1 to 9 falls to the catch-all branch. */
  function RuleStatus(n: nat): int {
    if 1 <= n <= 4 then 400
    else if n == 5 then 406
    else if n == 6 then 451
    else if n == 7 then 416
    else if n == 8 then 426
    else if n == 9 then 418
    else 400
  }

  datatype GameResponse = GameResponse(status: int, result: string, reason: string)

  /** The `game` endpoint. */
  function Game(s: string, f: ForeignRules): (r: Outcome<GameResponse>)
    ensures r.Panic? <==> IsValid(s, f).Panic?
    ensures r.Done? ==> (r.value.status == 200 <==> IsValid(s, f) == Done(Valid))
    ensures r.Done? ==> r.value.result == (if r.value.status == 200 then "nice" else "naughty")
  {
    match IsValid(s, f)
    case Panic => Panic
    case Done(Valid) => Done(GameResponse(200, "nice", "that's a nice password"))
    case Done(Invalid(n, reason)) =>
      if 1 <= n <= 9 then Done(GameResponse(RuleStatus(n), "naughty", reason))
      else Done(GameResponse(400, "naughty", "uncaught error"))
  }

  /** Every rejection carries the status of its rule and the rule's reason;
      the "uncaught error" branch is never taken. */
  lemma GameStatusOfRule(s: string, f: ForeignRules)
    requires IsValid(s, f).Done? && IsValid(s, f).value.Invalid?
    ensures var n := IsValid(s, f).value.rule;
      Game(s, f) == Done(GameResponse(RuleStatus(n), "naughty", RuleReason(n)))
    ensures Game(s, f).value.status in {400, 406, 451, 416, 426, 418}
    ensures Game(s, f).value.status == 400 <==> IsValid(s, f).value.rule <= 4
  {
    ValidWhenAllPass(s, f);
    FailureIsFirst(s, f);
  }
}
