/** The day-22 puzzles: the alternating sum behind the gift count, and the
    star map with its portals and the depth-first search for routes from
    star 0 to the last star. */
module Rocket {
  import opened Wrappers
  import opened Ints
  import opened Text
  import Decimal
  import Sorting

  // ------------------------------------------------------------ integers

  /** `lines().flat_map(|n| n.parse::<u64>())`: the values of the lines that
      parse, in order; the other lines are dropped. */
  function ParsedLines(ls: seq<string>): (r: seq<int>)
    ensures |r| <= |ls|
    ensures forall k :: 0 <= k < |r| ==> 0 <= r[k] < TWO_64
  {
    if ls == [] then []
    else ParsedLines(ls[..|ls| - 1]) + Kept(ls[|ls| - 1])
  }

  /** What one line contributes: its value, if it parses. */
  function Kept(line: string): (r: seq<int>)
    ensures |r| <= 1
    ensures forall k :: 0 <= k < |r| ==> 0 <= r[k] < TWO_64
  {
    match Decimal.ParseU64(line)
    case Some(v) => [v]
    case None => []
  }

  /** The parsed values of two blocks of lines are those of each block. */
  lemma {:induction false} ParsedLinesAppend(a: seq<string>, b: seq<string>)
    ensures ParsedLines(a + b) == ParsedLines(a) + ParsedLines(b)
  {
    if b == [] {
      assert a + b == a;
    } else {
      var init, last := b[..|b| - 1], b[|b| - 1];
      calc {
        ParsedLines(a + b);
        { assert (a + b)[..|a + b| - 1] == a + init; }
        ParsedLines(a + init) + Kept(last);
        { ParsedLinesAppend(a, init); }
        ParsedLines(a) + ParsedLines(init) + Kept(last);
        ParsedLines(a) + (ParsedLines(init) + Kept(last));
      }
    }
  }

  /** A value is kept exactly when some line parses to it. */
  lemma {:induction false} ParsedLinesMember(ls: seq<string>, v: int)
    ensures v in ParsedLines(ls) <==> exists k :: 0 <= k < |ls| && Decimal.ParseU64(ls[k]) == Some(v)
  {
    if ls != [] {
      var init := ls[..|ls| - 1];
      ParsedLinesMember(init, v);
      assert v in ParsedLines(ls) <==> v in ParsedLines(init) || v in Kept(ls[|ls| - 1]);
      assert v in Kept(ls[|ls| - 1]) <==> Decimal.ParseU64(ls[|ls| - 1]) == Some(v);
      if exists k :: 0 <= k < |ls| && Decimal.ParseU64(ls[k]) == Some(v) {
        var k :| 0 <= k < |ls| && Decimal.ParseU64(ls[k]) == Some(v);
        if k < |ls| - 1 { assert init[k] == ls[k]; }
      }
      if v in ParsedLines(init) {
        var k :| 0 <= k < |init| && Decimal.ParseU64(init[k]) == Some(v);
        assert ls[k] == init[k];
      }
    }
  }

  /** The exact alternating sum: `+` at even positions, `-` at odd ones. */
  function AltSum(xs: seq<int>): int {
    if xs == [] then 0
    else
      var k := |xs| - 1;
      AltSum(xs[..k]) + (if k % 2 == 1 then -xs[k] else xs[k])
  }

  /** The sum as the source computes it: each `u64` cast to `i64`, negated at
      odd positions, and added up, every operation wrapping. */
  function WrappingAltSum(xs: seq<int>): i64 {
    if xs == [] then 0
    else
      var k := |xs| - 1;
      var n := Wrap64(xs[k]);
      Wrap64(WrappingAltSum(xs[..k]) + (if k % 2 == 1 then Wrap64(0 - n as int) else n))
  }

  /** The wrapping computation agrees with the exact sum modulo 2^64. */
  lemma {:induction false} WrappingAltSumExact(xs: seq<int>)
    ensures WrappingAltSum(xs) == Wrap64(AltSum(xs))
  {
    if xs != [] {
      var k := |xs| - 1;
      var term, exact := AltSumsUnfold(xs);
      WrappingAltSumExact(xs[..k]);
      TermCongruent(xs[k], k % 2 == 1);
      StepCongruent(WrappingAltSum(xs[..k]), AltSum(xs[..k]), term, exact, WrappingAltSum(xs), AltSum(xs));
    }
  }

  /** The last term of both sums. */
  lemma AltSumsUnfold(xs: seq<int>) returns (term: int, exact: int)
    requires xs != []
    ensures var k := |xs| - 1;
      && term == (if k % 2 == 1 then Wrap64(0 - Wrap64(xs[k]) as int) else Wrap64(xs[k]))
      && exact == (if k % 2 == 1 then -xs[k] else xs[k])
      && WrappingAltSum(xs) == Wrap64(WrappingAltSum(xs[..k]) + term)
      && AltSum(xs) == AltSum(xs[..k]) + exact
  {
    var k := |xs| - 1;
    term := if k % 2 == 1 then Wrap64(0 - Wrap64(xs[k]) as int) else Wrap64(xs[k]);
    exact := if k % 2 == 1 then -xs[k] else xs[k];
  }

  /** One term of the sum, wrapped, agrees with the exact term modulo 2^64. */
  lemma TermCongruent(x: int, negate: bool)
    ensures var n := Wrap64(x);
      ((if negate then Wrap64(0 - n as int) else n) - (if negate then -x else x)) % TWO_64 == 0
  {
    var n := Wrap64(x);
    MultipleSum64(n - x, 0);
    if negate {
      MultipleSum64(Wrap64(0 - n as int) - (0 - n), 0 - (n - x));
      assert Wrap64(0 - n as int) - (-x) == (Wrap64(0 - n as int) - (0 - n)) + (0 - (n - x));
    }
  }

  lemma StepCongruent(prev: int, exactPrev: int, term: int, exact: int, whole: int, exactWhole: int)
    requires Wrap64(exactPrev) == prev
    requires (term - exact) % TWO_64 == 0
    requires whole == Wrap64(prev + term) && exactWhole == exactPrev + exact
    ensures whole == Wrap64(exactWhole)
  {
    MultipleSum64(prev - exactPrev, term - exact);
    assert (prev + term) - (exactPrev + exact) == (prev - exactPrev) + (term - exact);
    Wrap64Congruent(prev + term, exactPrev + exact);
  }

  /** On ascending values the alternating sum is bounded by the first and
      last values: for an odd count it lies between them, for an even count
      between their difference and zero. */
  lemma {:induction false} AltSumSorted(xs: seq<int>)
    requires Sorting.Sorted(xs)
    ensures |xs| % 2 == 1 ==> xs[0] <= AltSum(xs) <= xs[|xs| - 1]
    ensures |xs| % 2 == 0 && xs != [] ==> xs[0] - xs[|xs| - 1] <= AltSum(xs) <= 0
  {
    if |xs| > 1 {
      var k := |xs| - 1;
      var init := xs[..k];
      assert Sorting.Sorted(init);
      AltSumSorted(init);
      assert init[0] == xs[0] && init[k - 1] == xs[k - 1];
      assert xs[k - 1] <= xs[k];
    }
  }

  const GIFT: string := "\U{1F381}"

  /** `s.repeat(k)`. */
  function Repeat(s: string, k: nat): string
  {
    if k == 0 then [] else Repeat(s, k - 1) + s
  }

  lemma {:induction false} RepeatBytes(s: string, k: nat)
    ensures Utf8Len(Repeat(s, k)) == k * Utf8Len(s)
  {
    if k > 0 {
      var prev := Repeat(s, k - 1);
      RepeatBytes(s, k - 1);
      Utf8LenAppend(prev, s);
      assert Repeat(s, k) == prev + s;
      assert k * Utf8Len(s) == (k - 1) * Utf8Len(s) + Utf8Len(s);
    }
  }

  /** The ascending values of the lines that parse. */
  function Numbers(input: string): (r: seq<int>)
    ensures Sorting.Sorted(r)
    ensures multiset(r) == multiset(ParsedLines(Lines(input)))
    ensures |r| == |ParsedLines(Lines(input))|
    ensures forall k :: 0 <= k < |r| ==> 0 <= r[k] < TWO_64
  {
    var p := ParsedLines(Lines(input));
    var r := Sorting.Sort(p);
    assert forall k :: 0 <= k < |r| ==> r[k] in multiset(p);
    r
  }

  /** The largest allocation `Vec::with_capacity` accepts: `isize::MAX`
      bytes on a 64-bit target. */
  const ISIZE_MAX: int := I64_MAX

  /** The response for a sum `v`: `v as usize` gifts; `repeat` panics with
      "capacity overflow" when the byte length of the result, four bytes per
      gift, exceeds `isize::MAX` (a length past `usize::MAX` fails even
      earlier, in `checked_mul`). */
  function Gifts(v: i64): Outcome<string> {
    var count := WrapU64(v);
    if count * 4 > ISIZE_MAX then Panic else Done(Repeat(GIFT, count))
  }

  /** `integers`. */
  function Integers(input: string): Outcome<string> {
    Gifts(WrappingAltSum(Numbers(input)))
  }

  lemma GiftBytes()
    ensures Utf8Len(GIFT) == 4
  {
  }

  /** The gifts for the wrapped sum are the exact sum modulo 2^64. */
  lemma GiftsExact(xs: seq<int>)
    ensures var k := AltSum(xs) % TWO_64;
      Gifts(WrappingAltSum(xs)) == if 4 * k > ISIZE_MAX then Panic else Done(Repeat(GIFT, k))
  {
    WrappingAltSumExact(xs);
    SameResidue(WrappingAltSum(xs), AltSum(xs));
  }

  lemma SameResidue(v: int, a: int)
    requires v == Wrap64(a)
    ensures WrapU64(v) == a % TWO_64
  {
    var k := (v - a) / TWO_64;
    MultipleSum64(v - a, 0);
    assert v == a + TWO_64 * k;
    ShiftMod64(a, k);
  }

  /** The number of gifts is the exact alternating sum of the ascending
      values, taken modulo 2^64. */
  lemma IntegersCount(input: string)
    ensures var k := AltSum(Numbers(input)) % TWO_64;
      Integers(input) == if 4 * k > ISIZE_MAX then Panic else Done(Repeat(GIFT, k))
  {
    GiftsExact(Numbers(input));
  }

  /** An odd number of values gives between the smallest and the largest
      value in gifts, short of the capacity overflow. */
  lemma IntegersOdd(input: string)
    requires |ParsedLines(Lines(input))| % 2 == 1
    ensures var nums := Numbers(input);
      var n := AltSum(nums);
      0 <= nums[0] <= n <= nums[|nums| - 1] < TWO_64
      && Integers(input) == if 4 * n > ISIZE_MAX then Panic else Done(Repeat(GIFT, n))
  {
    SortedGiftsOdd(Numbers(input));
  }

  lemma SortedGiftsOdd(xs: seq<int>)
    requires Sorting.Sorted(xs) && |xs| % 2 == 1
    requires forall k :: 0 <= k < |xs| ==> 0 <= xs[k] < TWO_64
    ensures var n := AltSum(xs);
      0 <= xs[0] <= n <= xs[|xs| - 1] < TWO_64
      && Gifts(WrappingAltSum(xs)) == if 4 * n > ISIZE_MAX then Panic else Done(Repeat(GIFT, n))
  {
    AltSumSorted(xs);
    GiftsExact(xs);
    SmallResidue(AltSum(xs));
  }

  lemma SmallResidue(n: int)
    requires 0 <= n < TWO_64
    ensures n % TWO_64 == n
  {
  }

  /** An even number of values has a sum of at most zero; a negative sum
      becomes a count of 2^64 plus the sum. */
  lemma IntegersEven(input: string)
    requires |ParsedLines(Lines(input))| % 2 == 0
    ensures var n := AltSum(Numbers(input));
      -TWO_64 < n <= 0
      && Integers(input) == if n == 0 then Done("")
         else if 4 * (TWO_64 + n) > ISIZE_MAX then Panic else Done(Repeat(GIFT, TWO_64 + n))
  {
    SortedGiftsEven(Numbers(input));
  }

  lemma SortedGiftsEven(xs: seq<int>)
    requires Sorting.Sorted(xs) && |xs| % 2 == 0
    requires forall k :: 0 <= k < |xs| ==> 0 <= xs[k] < TWO_64
    ensures var n := AltSum(xs);
      -TWO_64 < n <= 0
      && Gifts(WrappingAltSum(xs)) == if n == 0 then Done("")
         else if 4 * (TWO_64 + n) > ISIZE_MAX then Panic else Done(Repeat(GIFT, TWO_64 + n))
  {
    AltSumSorted(xs);
    GiftsExact(xs);
    var n := AltSum(xs);
    if xs == [] {
      assert n == 0;
    } else {
      assert xs[0] - xs[|xs| - 1] <= n <= 0;
    }
    if n == 0 {
      SmallResidue(0);
      assert Repeat(GIFT, 0) == "";
    } else {
      NegativeResidue(n);
    }
  }

  /** The capacity limit bites at a quarter of `isize::MAX`: 2^61 gifts
      need 2^63 bytes and panic, one gift fewer does not. */
  lemma GiftsCapacity()
    ensures Gifts(0x2000_0000_0000_0000) == Panic
    ensures Gifts(0x1FFF_FFFF_FFFF_FFFF).Done?
  {
  }

  /** A negative sum need not panic: the values 0 and `u64::MAX` sum to
      -(2^64 - 1), which wraps to a single gift. */
  lemma NegativeSumOneGift()
    ensures AltSum([0, TWO_64 - 1]) < 0
    ensures Gifts(WrappingAltSum([0, TWO_64 - 1])) == Done(GIFT)
  {
    var xs := [0, TWO_64 - 1];
    assert xs[..1] == [0] && [0][..0] == [];
    assert AltSum(xs) == 1 - TWO_64;
    assert Sorting.Sorted(xs);
    SortedGiftsEven(xs);
    assert TWO_64 + AltSum(xs) == 1;
    assert Repeat(GIFT, 0) == [];
    assert Repeat(GIFT, 1) == [] + GIFT == GIFT;
  }

  lemma NegativeResidue(n: int)
    requires -TWO_64 < n < 0
    ensures n % TWO_64 == TWO_64 + n
  {
  }

  // ------------------------------------------------------------ star map

  datatype Star = Star(x: i32, y: i32, z: i32)

  datatype Portal = Portal(source: usize, destination: usize)

  function ParseUsize(s: string): Option<int> { Decimal.ParseU64(s) }

  /** `Star::from`: the first three space-separated fields as `i32`; a missing
      or malformed field panics. Fields after the third are ignored. */
  function ParseStar(line: string): (r: Option<Star>)
  {
    var f := Split(line, ' ');
    if |f| < 3 then None
    else match (Decimal.ParseI32(f[0]), Decimal.ParseI32(f[1]), Decimal.ParseI32(f[2]))
      case (Some(x), Some(y), Some(z)) => Some(Star(x, y, z))
      case _ => None
  }

  /** `Portal::from`: the first two space-separated fields as `usize`. */
  function ParsePortal(line: string): (r: Option<Portal>)
  {
    var f := Split(line, ' ');
    if |f| < 2 then None
    else match (ParseUsize(f[0]), ParseUsize(f[1]))
      case (Some(s), Some(d)) => Some(Portal(s, d))
      case _ => None
  }

  function FormatStar(s: Star): string {
    Join([Decimal.IntToString(s.x), Decimal.IntToString(s.y), Decimal.IntToString(s.z)], ' ')
  }

  function FormatPortal(p: Portal): string {
    Join([Decimal.NatToString(p.source), Decimal.NatToString(p.destination)], ' ')
  }

  lemma NoSpaceInNumber(i: int)
    ensures ' ' !in Decimal.IntToString(i)
    ensures i >= 0 ==> ' ' !in Decimal.NatToString(i)
  {
    var s := Decimal.IntToString(i);
    if i < 0 {
      var t := Decimal.NatToString(-i);
      assert s == "-" + t;
      assert forall k :: 0 <= k < |t| ==> Decimal.IsDigit(t[k]);
      assert forall k :: 1 <= k < |s| ==> s[k] == t[k - 1];
    } else {
      assert forall k :: 0 <= k < |s| ==> Decimal.IsDigit(s[k]);
    }
  }

  /** A star written as three decimal coordinates reads back as that star. */
  lemma ParseFormatStar(s: Star)
    ensures ParseStar(FormatStar(s)) == Some(s)
  {
    var fs := [Decimal.IntToString(s.x), Decimal.IntToString(s.y), Decimal.IntToString(s.z)];
    NoSpaceInNumber(s.x);
    NoSpaceInNumber(s.y);
    NoSpaceInNumber(s.z);
    SplitJoin(fs, ' ');
    Decimal.ParseIntToString(s.x, I32_MIN, I32_MAX);
    Decimal.ParseIntToString(s.y, I32_MIN, I32_MAX);
    Decimal.ParseIntToString(s.z, I32_MIN, I32_MAX);
  }

  /** A portal written as two decimal ids reads back as that portal. */
  lemma ParseFormatPortal(p: Portal)
    ensures ParsePortal(FormatPortal(p)) == Some(p)
  {
    var fs := [Decimal.NatToString(p.source), Decimal.NatToString(p.destination)];
    NoSpaceInNumber(p.source);
    NoSpaceInNumber(p.destination);
    SplitJoin(fs, ' ');
    Decimal.ParseNatToString(p.source, TWO_64 - 1);
    Decimal.ParseNatToString(p.destination, TWO_64 - 1);
  }

  /** Parses every line with `parse`; `None` when any line fails. */
  function ParseEach<T>(ls: seq<string>, parse: string -> Option<T>): (r: Option<seq<T>>)
    ensures r.Some? ==> |r.value| == |ls| && forall k :: 0 <= k < |ls| ==> parse(ls[k]) == Some(r.value[k])
    ensures r.None? <==> exists k :: 0 <= k < |ls| && parse(ls[k]).None?
  {
    if ls == [] then Some([])
    else
      var k := |ls| - 1;
      var init := ParseEach(ls[..k], parse);
      var v := parse(ls[k]);
      if init.Some? && v.Some? then
        assert forall j :: 0 <= j < k ==> ls[..k][j] == ls[j];
        Some(init.value + [v.value])
      else
        assert exists j :: 0 <= j < |ls| && parse(ls[j]).None? by {
          if init.None? {
            var j :| 0 <= j < k && parse(ls[..k][j]).None?;
            assert ls[..k][j] == ls[j];
          }
        }
        None
  }

  /** Lines that all parse give their values. */
  lemma {:induction false} ParseEachAll<T>(ls: seq<string>, parse: string -> Option<T>, vs: seq<T>)
    requires |vs| == |ls| && forall k :: 0 <= k < |ls| ==> parse(ls[k]) == Some(vs[k])
    ensures ParseEach(ls, parse) == Some(vs)
  {
    if ls != [] {
      var k := |ls| - 1;
      ParseEachAll(ls[..k], parse, vs[..k]);
      assert vs[..k] + [vs[k]] == vs;
    }
  }

  lemma ParseEachSnoc<T>(ls: seq<string>, i: nat, parse: string -> Option<T>, done: seq<T>, v: T)
    requires i < |ls| && ParseEach(ls[..i], parse) == Some(done) && parse(ls[i]) == Some(v)
    ensures ParseEach(ls[..i + 1], parse) == Some(done + [v])
  {
    assert ls[..i + 1][..i] == ls[..i];
  }

  datatype StarMap = StarMap(stars: seq<Star>, portals: seq<Portal>)

  /** `StarMap::from` on the lines of the input: a star count N, N star
      lines, a portal count M and M portal lines; lines after those are
      ignored. A missing line or a malformed one panics. */
  function ReadStarMap(ls: seq<string>): Option<StarMap> {
    if |ls| == 0 then None
    else match ParseUsize(ls[0])
      case None => None
      case Some(n) => ReadStars(ls[1..], n)
  }

  /** The lines after the star count: `n` star lines, then the portals. */
  function ReadStars(rest: seq<string>, n: nat): Option<StarMap> {
    if |rest| < n then None
    else match ParseEach(rest[..n], ParseStar)
      case None => None
      case Some(stars) =>
        match ReadPortals(rest[n..])
        case None => None
        case Some(portals) => Some(StarMap(stars, portals))
  }

  /** The lines after the stars: a portal count M, then M portal lines. */
  function ReadPortals(rest: seq<string>): Option<seq<Portal>> {
    if |rest| == 0 then None
    else match ParseUsize(rest[0])
      case None => None
      case Some(m) => if |rest| < 1 + m then None else ParseEach(rest[1..1 + m], ParsePortal)
  }

  /** A star map read from lines has the layout described above: its counts
      and its stars and portals are the values of the lines in order. */
  lemma ReadStarMapSound(ls: seq<string>)
    ensures var r := ReadStarMap(ls);
      r.Some? ==>
      var n := |r.value.stars|;
      var m := |r.value.portals|;
      2 + n + m <= |ls|
      && ParseUsize(ls[0]) == Some(n)
      && (forall k :: 0 <= k < n ==> ParseStar(ls[1 + k]) == Some(r.value.stars[k]))
      && ParseUsize(ls[1 + n]) == Some(m)
      && (forall k :: 0 <= k < m ==> ParsePortal(ls[2 + n + k]) == Some(r.value.portals[k]))
  {
    if ReadStarMap(ls).Some? {
      var n := ParseUsize(ls[0]).value;
      var rest := ls[1..];
      assert ReadStarMap(ls) == ReadStars(rest, n);
      var sm := ReadStars(rest, n).value;
      var m := |sm.portals|;
      ReadStarsSound(rest, n);
      forall k | 0 <= k < n ensures ParseStar(ls[1 + k]) == Some(sm.stars[k]) {
        assert rest[k] == ls[1 + k];
      }
      assert rest[n] == ls[1 + n];
      forall k | 0 <= k < m ensures ParsePortal(ls[2 + n + k]) == Some(sm.portals[k]) {
        assert rest[n + 1 + k] == ls[2 + n + k];
      }
    }
  }

  /** The layout of the lines after the star count. */
  lemma ReadStarsSound(rest: seq<string>, n: nat)
    requires ReadStars(rest, n).Some?
    ensures var sm := ReadStars(rest, n).value;
      var m := |sm.portals|;
      && |sm.stars| == n && n + 1 + m <= |rest|
      && (forall k :: 0 <= k < n ==> ParseStar(rest[k]) == Some(sm.stars[k]))
      && ParseUsize(rest[n]) == Some(m)
      && (forall k :: 0 <= k < m ==> ParsePortal(rest[n + 1 + k]) == Some(sm.portals[k]))
  {
    var sm := ReadStars(rest, n).value;
    var m := |sm.portals|;
    var after := rest[n..];
    ReadPortalsSound(after);
    forall k | 0 <= k < n ensures ParseStar(rest[k]) == Some(sm.stars[k]) {
      assert rest[..n][k] == rest[k];
    }
    forall k | 0 <= k < m ensures ParsePortal(rest[n + 1 + k]) == Some(sm.portals[k]) {
      assert after[1 + k] == rest[n + 1 + k];
    }
  }

  /** The layout of the lines after the stars. */
  lemma ReadPortalsSound(rest: seq<string>)
    requires ReadPortals(rest).Some?
    ensures var ps := ReadPortals(rest).value;
      && 1 + |ps| <= |rest| && ParseUsize(rest[0]) == Some(|ps|)
      && forall k :: 0 <= k < |ps| ==> ParsePortal(rest[1 + k]) == Some(ps[k])
  {
    var ps := ReadPortals(rest).value;
    forall k | 0 <= k < |ps| ensures ParsePortal(rest[1 + k]) == Some(ps[k]) {
      assert rest[1..1 + |ps|][k] == rest[1 + k];
    }
  }

  /** Conversely, lines laid out as a star map read back as that map. */
  lemma ReadStarMapComplete(ls: seq<string>, sm: StarMap)
    requires 2 + |sm.stars| + |sm.portals| <= |ls|
    requires ParseUsize(ls[0]) == Some(|sm.stars|)
    requires forall k :: 0 <= k < |sm.stars| ==> ParseStar(ls[1 + k]) == Some(sm.stars[k])
    requires ParseUsize(ls[1 + |sm.stars|]) == Some(|sm.portals|)
    requires forall k :: 0 <= k < |sm.portals| ==> ParsePortal(ls[2 + |sm.stars| + k]) == Some(sm.portals[k])
    ensures ReadStarMap(ls) == Some(sm)
  {
    var n := |sm.stars|;
    var rest := ls[1..];
    forall k | 0 <= k < n ensures ParseStar(rest[k]) == Some(sm.stars[k]) {
      assert rest[k] == ls[1 + k];
    }
    assert rest[n] == ls[1 + n];
    forall k | 0 <= k < |sm.portals| ensures ParsePortal(rest[n + 1 + k]) == Some(sm.portals[k]) {
      assert rest[n + 1 + k] == ls[2 + n + k];
    }
    ReadStarsComplete(rest, sm);
  }

  lemma ReadStarsComplete(rest: seq<string>, sm: StarMap)
    requires |sm.stars| + 1 + |sm.portals| <= |rest|
    requires forall k :: 0 <= k < |sm.stars| ==> ParseStar(rest[k]) == Some(sm.stars[k])
    requires ParseUsize(rest[|sm.stars|]) == Some(|sm.portals|)
    requires forall k :: 0 <= k < |sm.portals| ==> ParsePortal(rest[|sm.stars| + 1 + k]) == Some(sm.portals[k])
    ensures ReadStars(rest, |sm.stars|) == Some(sm)
  {
    var n := |sm.stars|;
    var a := rest[..n];
    forall k | 0 <= k < n ensures ParseStar(a[k]) == Some(sm.stars[k]) {
      assert a[k] == rest[k];
    }
    ParseEachAll(a, ParseStar, sm.stars);
    var after := rest[n..];
    forall k | 0 <= k < |sm.portals| ensures ParsePortal(after[1 + k]) == Some(sm.portals[k]) {
      assert after[1 + k] == rest[n + 1 + k];
    }
    ReadPortalsComplete(after, sm.portals);
  }

  lemma ReadPortalsComplete(rest: seq<string>, ps: seq<Portal>)
    requires 1 + |ps| <= |rest| && ParseUsize(rest[0]) == Some(|ps|)
    requires forall k :: 0 <= k < |ps| ==> ParsePortal(rest[1 + k]) == Some(ps[k])
    ensures ReadPortals(rest) == Some(ps)
  {
    var b := rest[1..1 + |ps|];
    forall k | 0 <= k < |ps| ensures ParsePortal(b[k]) == Some(ps[k]) {
      assert b[k] == rest[1 + k];
    }
    ParseEachAll(b, ParsePortal, ps);
  }

  /** `StarMap::from`, with its two push loops over the input's lines. */
  method StarMapFrom(input: string) returns (r: Option<StarMap>)
    ensures r == ReadStarMap(Lines(input))
  {
    r := StarMapFromLines(Lines(input));
  }

  method StarMapFromLines(ls: seq<string>) returns (r: Option<StarMap>)
    ensures r == ReadStarMap(ls)
  {
    if |ls| == 0 {
      return None;
    }
    var starCount := ParseUsize(ls[0]);
    if starCount.None? {
      return None;
    }
    var n := starCount.value;
    var rest := ls[1..];
    var stars := ReadStarLines(rest, n);
    if stars.None? {
      return None;
    }
    var portals := ReadPortalLines(rest[n..]);
    if portals.None? {
      return None;
    }
    return Some(StarMap(stars.value, portals.value));
  }

  /** The first loop of `StarMap::from`: `n` star lines. */
  method ReadStarLines(rest: seq<string>, n: nat) returns (r: Option<seq<Star>>)
    ensures |rest| < n ==> r == None
    ensures |rest| >= n ==> r == ParseEach(rest[..n], ParseStar)
  {
    var stars: seq<Star> := [];
    var i := 0;
    while i < n
      invariant 0 <= i <= n && i <= |rest|
      invariant ParseEach(rest[..i], ParseStar) == Some(stars)
    {
      if i >= |rest| {
        return None;
      }
      var star := ParseStar(rest[i]);
      if star.None? {
        if n <= |rest| {
          MissingLine(rest, 0, n, i, ParseStar);
          assert rest[0..n] == rest[..n];
        }
        return None;
      }
      ParseEachSnoc(rest, i, ParseStar, stars, star.value);
      stars := stars + [star.value];
      i := i + 1;
    }
    return Some(stars);
  }

  /** The second loop of `StarMap::from`. */
  method ReadPortalLines(rest: seq<string>) returns (r: Option<seq<Portal>>)
    ensures r == ReadPortals(rest)
  {
    if |rest| == 0 {
      return None;
    }
    var portalCount := ParseUsize(rest[0]);
    if portalCount.None? {
      return None;
    }
    var m := portalCount.value;
    r := ReadPortalBlock(rest[1..], m);
    if |rest| >= 1 + m {
      assert rest[1..][..m] == rest[1..1 + m];
    }
  }

  /** The loop of `StarMap::from` over the `m` portal lines. */
  method ReadPortalBlock(lines: seq<string>, m: nat) returns (r: Option<seq<Portal>>)
    ensures |lines| < m ==> r == None
    ensures |lines| >= m ==> r == ParseEach(lines[..m], ParsePortal)
  {
    var portals: seq<Portal> := [];
    var j := 0;
    while j < m
      invariant 0 <= j <= m && j <= |lines|
      invariant ParseEach(lines[..j], ParsePortal) == Some(portals)
    {
      if j >= |lines| {
        return None;
      }
      var portal := ParsePortal(lines[j]);
      if portal.None? {
        if m <= |lines| {
          MissingLine(lines, 0, m, j, ParsePortal);
          assert lines[0..m] == lines[..m];
        }
        return None;
      }
      ParseEachSnoc(lines, j, ParsePortal, portals, portal.value);
      portals := portals + [portal.value];
      j := j + 1;
    }
    return Some(portals);
  }

  /** A malformed line inside a block makes the whole block fail. */
  lemma MissingLine<T>(ls: seq<string>, from: nat, count: nat, i: nat, parse: string -> Option<T>)
    requires i < count && from + i < |ls| && parse(ls[from + i]).None?
    ensures from + count <= |ls| ==> ParseEach(ls[from..from + count], parse).None?
  {
    if from + count <= |ls| {
      assert ls[from..from + count][i] == ls[from + i];
    }
  }

  /** `last_star_id`: `stars.len() - 1`, which wraps to `usize::MAX` when
      there are no stars. */
  function LastStarId(sm: StarMap): (id: usize)
    ensures 0 < |sm.stars| <= TWO_64 ==> id == |sm.stars| - 1
    ensures |sm.stars| == 0 ==> id == TWO_64 - 1
  {
    WrapU64(|sm.stars| - 1)
  }

  /** `get_star`: the star at `id`, if there is one. */
  function GetStar(sm: StarMap, id: usize): (r: Option<Star>)
    ensures r.None? <==> id >= |sm.stars|
    ensures r.Some? ==> r.value == sm.stars[id]
  {
    if id < |sm.stars| then Some(sm.stars[id]) else None
  }

  /** The last star exists exactly when there is a star at all. */
  lemma LastStarExists(sm: StarMap)
    ensures GetStar(sm, LastStarId(sm)).Some? <==> |sm.stars| > 0
  {
  }

  /** `portals_from_source`: the portals leaving `source`, in map order. */
  function PortalsFromSource(portals: seq<Portal>, source: usize): (r: seq<Portal>)
    ensures |r| <= |portals|
  {
    if portals == [] then []
    else
      var k := |portals| - 1;
      PortalsFromSource(portals[..k], source)
        + (if portals[k].source == source then [portals[k]] else [])
  }

  /** The portals kept are exactly those of the map that leave `source`. */
  lemma {:induction false} PortalsFromSourceMembers(portals: seq<Portal>, source: usize)
    ensures forall k :: 0 <= k < |PortalsFromSource(portals, source)| ==>
      PortalsFromSource(portals, source)[k].source == source && PortalsFromSource(portals, source)[k] in portals
    ensures forall p :: p in portals && p.source == source ==> p in PortalsFromSource(portals, source)
  {
    if portals != [] {
      var k := |portals| - 1;
      var init := portals[..k];
      var r0 := PortalsFromSource(init, source);
      var r := PortalsFromSource(portals, source);
      PortalsFromSourceMembers(init, source);
      assert portals == init + [portals[k]];
      assert r == r0 + (if portals[k].source == source then [portals[k]] else []);
      forall j | 0 <= j < |r| ensures r[j].source == source && r[j] in portals {
        if j < |r0| {
          assert r[j] == r0[j] && r0[j] in init;
        } else {
          assert r[j] == portals[k];
        }
      }
      forall p | p in portals && p.source == source ensures p in r {
        if p in init {
          assert p in r0;
        } else {
          assert p == portals[k];
        }
      }
    }
  }

  /** Filtering two blocks of portals is filtering each block. */
  lemma {:induction false} PortalsFromSourceAppend(a: seq<Portal>, b: seq<Portal>, source: usize)
    ensures PortalsFromSource(a + b, source) == PortalsFromSource(a, source) + PortalsFromSource(b, source)
  {
    if b == [] {
      assert a + b == a;
    } else {
      var k := |b| - 1;
      var ab := a + b;
      var tail := if b[k].source == source then [b[k]] else [];
      PortalsFromSourceAppend(a, b[..k], source);
      assert ab[..|ab| - 1] == a + b[..k];
      assert ab[|ab| - 1] == b[k];
      assert PortalsFromSource(ab, source) == PortalsFromSource(a + b[..k], source) + tail;
      assert PortalsFromSource(b, source) == PortalsFromSource(b[..k], source) + tail;
    }
  }

  // ------------------------------------------------------------ search

  /** Where `find_path` pops the path after a portal: the source pops after
      every portal, also after one it skipped; the corrected search pops only
      what it pushed. */
  datatype PopRule = PopAlways | PopAfterPush

  /** The two vectors `find_path` mutates: the routes found and the current
      path. */
  datatype SearchState = SearchState(paths: seq<seq<usize>>, path: seq<usize>)

  /** `Vec::pop`, whose value is discarded; on an empty vector it does
      nothing. */
  function Pop(path: seq<usize>): (r: seq<usize>)
    ensures path == [] ==> r == []
    ensures path != [] ==> r + [path[|path| - 1]] == path
  {
    if path == [] then [] else path[..|path| - 1]
  }

  /** `find_path(start)`, with the recursion depth bounded by `fuel`; `None`
      when the bound is reached (the source can recurse without end and
      overflow the stack). Reaching the last star records the current path;
      otherwise each portal leaving `start` is tried in order. */
  function Search(sm: StarMap, st: SearchState, start: usize, fuel: nat, rule: PopRule): (r: Option<SearchState>)
    decreases fuel, 0, 0
  {
    if start == LastStarId(sm) then Some(SearchState(st.paths + [st.path], st.path))
    else if fuel == 0 then None
    else Follow(sm, st, PortalsFromSource(sm.portals, start), fuel - 1, rule)
  }

  /** The `for` loop of `find_path` over the remaining portals `ps`: a portal
      whose destination is not on the path is pushed and searched from; then
      the path is popped. */
  function Follow(sm: StarMap, st: SearchState, ps: seq<Portal>, fuel: nat, rule: PopRule): (r: Option<SearchState>)
    decreases fuel, 1, |ps|
  {
    if ps == [] then Some(st)
    else
      var d := ps[0].destination;
      var pushed := d !in st.path;
      var after :=
        if pushed then Search(sm, SearchState(st.paths, st.path + [d]), d, fuel, rule) else Some(st);
      match after
      case None => None
      case Some(s1) =>
        var s2 := if pushed || rule == PopAlways then SearchState(s1.paths, Pop(s1.path)) else s1;
        Follow(sm, s2, ps[1..], fuel, rule)
  }

  /** One turn of `find_path`'s loop over the portals `ps` from index `i`,
      popping after every portal: a portal back onto the path is skipped,
      and the path popped. */
  lemma FollowSkipped(sm: StarMap, paths: seq<seq<usize>>, path: seq<usize>, ps: seq<Portal>, i: nat,
                      fuel: nat, goal: Option<SearchState>)
    requires i < |ps| && ps[i].destination in path
    requires goal == Follow(sm, SearchState(paths, path), ps[i..], fuel, PopAlways)
    ensures goal == Follow(sm, SearchState(paths, Pop(path)), ps[i + 1..], fuel, PopAlways)
  {
    assert ps[i..][1..] == ps[i + 1..];
  }

  /** A portal to a new star is searched from; the loop goes on with what
      that search recorded, its path popped. */
  lemma FollowPushed(sm: StarMap, paths: seq<seq<usize>>, path: seq<usize>, ps: seq<Portal>, i: nat,
                     fuel: nat, after: SearchState, goal: Option<SearchState>)
    requires i < |ps| && ps[i].destination !in path
    requires Search(sm, SearchState(paths, path + [ps[i].destination]), ps[i].destination, fuel, PopAlways)
          == Some(after)
    requires goal == Follow(sm, SearchState(paths, path), ps[i..], fuel, PopAlways)
    ensures goal == Follow(sm, SearchState(after.paths, Pop(after.path)), ps[i + 1..], fuel, PopAlways)
  {
    assert ps[i..][1..] == ps[i + 1..];
  }

  /** A search that runs out of fuel ends the loop. */
  lemma FollowFails(sm: StarMap, paths: seq<seq<usize>>, path: seq<usize>, ps: seq<Portal>, i: nat,
                    fuel: nat, goal: Option<SearchState>)
    requires i < |ps| && ps[i].destination !in path
    requires Search(sm, SearchState(paths, path + [ps[i].destination]), ps[i].destination, fuel, PopAlways)
          == None
    requires goal == Follow(sm, SearchState(paths, path), ps[i..], fuel, PopAlways)
    ensures goal == None
  {
  }

  /** `find_all_paths`: one search per portal leaving star 0, each from the
      fresh path `[0, destination]`, all recording into one list. */
  function AllPaths(sm: StarMap, fuel: nat, rule: PopRule): Option<seq<seq<usize>>> {
    StartEach(sm, PortalsFromSource(sm.portals, 0), [], fuel, rule)
  }

  function StartEach(sm: StarMap, ps: seq<Portal>, paths: seq<seq<usize>>, fuel: nat, rule: PopRule)
    : Option<seq<seq<usize>>>
    decreases |ps|
  {
    if ps == [] then Some(paths)
    else
      var p := ps[0];
      match Search(sm, SearchState(paths, [p.source, p.destination]), p.destination, fuel, rule)
      case None => None
      case Some(r) => StartEach(sm, ps[1..], r.paths, fuel, rule)
  }

  /** `find_path` as written, recursing and looping over the portals while it
      pushes and pops the path and appends to the routes found. */
  method FindPath(sm: StarMap, paths: seq<seq<usize>>, start: usize, path: seq<usize>, fuel: nat)
    returns (r: Option<SearchState>)
    ensures r == Search(sm, SearchState(paths, path), start, fuel, PopAlways)
    decreases fuel, 0
  {
    if start == LastStarId(sm) {
      return Some(SearchState(paths + [path], path));
    }
    if fuel == 0 {
      return None;
    }
    var ps := PortalsFromSource(sm.portals, start);
    r := FollowPortals(sm, paths, path, ps, fuel - 1);
  }

  /** The `for` loop of `find_path` over the portals leaving the star, as
      written: every portal is followed by a pop. */
  method FollowPortals(sm: StarMap, paths: seq<seq<usize>>, path: seq<usize>, ps: seq<Portal>, fuel: nat)
    returns (r: Option<SearchState>)
    ensures r == Follow(sm, SearchState(paths, path), ps, fuel, PopAlways)
    decreases fuel, 1
  {
    ghost var goal := Follow(sm, SearchState(paths, path), ps, fuel, PopAlways);
    var found := paths;
    var current := path;
    var i := 0;
    assert ps[i..] == ps;
    while i < |ps|
      invariant 0 <= i <= |ps|
      invariant goal == Follow(sm, SearchState(found, current), ps[i..], fuel, PopAlways)
    {
      var d := ps[i].destination;
      if d !in current {
        var sub := FindPath(sm, found, d, current + [d], fuel);
        if sub.None? {
          FollowFails(sm, found, current, ps, i, fuel, goal);
          return None;
        }
        FollowPushed(sm, found, current, ps, i, fuel, sub.value, goal);
        found, current := sub.value.paths, sub.value.path;
      } else {
        FollowSkipped(sm, found, current, ps, i, fuel, goal);
      }
      current := Pop(current);
      i := i + 1;
    }
    assert ps[i..] == [];
    return Some(SearchState(found, current));
  }

  /** `find_all_paths` as written. */
  method FindAllPaths(sm: StarMap, fuel: nat) returns (r: Option<seq<seq<usize>>>)
    ensures r == AllPaths(sm, fuel, PopAlways)
  {
    var ps := PortalsFromSource(sm.portals, 0);
    var result: seq<seq<usize>> := [];
    var i := 0;
    while i < |ps|
      invariant 0 <= i <= |ps|
      invariant AllPaths(sm, fuel, PopAlways) == StartEach(sm, ps[i..], result, fuel, PopAlways)
    {
      var p := ps[i];
      var sub := FindPath(sm, result, p.destination, [p.source, p.destination], fuel);
      if sub.None? {
        return None;
      }
      result := sub.value.paths;
      assert ps[i..][1..] == ps[i + 1..];
      i := i + 1;
    }
    return Some(result);
  }

  predicate EndsAtLast(sm: StarMap, paths: seq<seq<usize>>) {
    forall k :: 0 <= k < |paths| ==> |paths[k]| > 0 && paths[k][|paths[k]| - 1] == LastStarId(sm)
  }

  /** Either way of popping, a route is recorded only on reaching the last
      star: every recorded path ends with the last star's id, and the routes
      found before are kept in front. */
  lemma {:induction false} SearchEndsAtLast(sm: StarMap, st: SearchState, start: usize, fuel: nat, rule: PopRule)
    requires |st.path| > 0 && st.path[|st.path| - 1] == start
    requires EndsAtLast(sm, st.paths)
    ensures var r := Search(sm, st, start, fuel, rule);
      r.Some? ==> EndsAtLast(sm, r.value.paths) && st.paths <= r.value.paths
    decreases fuel, 0, 0
  {
    if start != LastStarId(sm) && fuel > 0 {
      FollowEndsAtLast(sm, st, PortalsFromSource(sm.portals, start), fuel - 1, rule);
    }
  }

  lemma {:induction false} FollowEndsAtLast(sm: StarMap, st: SearchState, ps: seq<Portal>, fuel: nat, rule: PopRule)
    requires EndsAtLast(sm, st.paths)
    ensures var r := Follow(sm, st, ps, fuel, rule);
      r.Some? ==> EndsAtLast(sm, r.value.paths) && st.paths <= r.value.paths
    decreases fuel, 1, |ps|
  {
    if ps != [] {
      var d := ps[0].destination;
      if d !in st.path {
        var pushed := SearchState(st.paths, st.path + [d]);
        SearchEndsAtLast(sm, pushed, d, fuel, rule);
        var after := Search(sm, pushed, d, fuel, rule);
        if after.Some? {
          var s1 := after.value;
          FollowEndsAtLast(sm, SearchState(s1.paths, Pop(s1.path)), ps[1..], fuel, rule);
        }
      } else {
        var s2 := if rule == PopAlways then SearchState(st.paths, Pop(st.path)) else st;
        FollowEndsAtLast(sm, s2, ps[1..], fuel, rule);
      }
    }
  }

  /** A route: starts at star 0, and every step follows a portal of the map. */
  predicate IsRoute(sm: StarMap, path: seq<usize>) {
    |path| > 0 && path[0] == 0
    && forall k :: 0 <= k < |path| - 1 ==> Portal(path[k], path[k + 1]) in sm.portals
  }

  predicate AllRoutes(sm: StarMap, paths: seq<seq<usize>>) {
    forall k :: 0 <= k < |paths| ==> IsRoute(sm, paths[k])
  }

  lemma RouteExtend(sm: StarMap, path: seq<usize>, p: Portal)
    requires IsRoute(sm, path) && p in sm.portals && p.source == path[|path| - 1]
    ensures IsRoute(sm, path + [p.destination])
  {
    var q := path + [p.destination];
    forall k | 0 <= k < |q| - 1 ensures Portal(q[k], q[k + 1]) in sm.portals {
      if k < |path| - 1 {
        assert q[k] == path[k] && q[k + 1] == path[k + 1];
      } else {
        assert q[k] == p.source && q[k + 1] == p.destination;
      }
    }
  }

  /** The corrected search leaves the path as it found it and records only
      routes of the map. */
  lemma {:induction false} CorrectedSearchSound(sm: StarMap, st: SearchState, start: usize, fuel: nat)
    requires IsRoute(sm, st.path) && st.path[|st.path| - 1] == start
    requires AllRoutes(sm, st.paths)
    ensures var r := Search(sm, st, start, fuel, PopAfterPush);
      r.Some? ==> r.value.path == st.path && AllRoutes(sm, r.value.paths)
    decreases fuel, 0, 0
  {
    if start != LastStarId(sm) && fuel > 0 {
      PortalsFromSourceMembers(sm.portals, start);
      CorrectedFollowSound(sm, st, start, PortalsFromSource(sm.portals, start), fuel - 1);
    }
  }

  lemma {:induction false} CorrectedFollowSound(sm: StarMap, st: SearchState, start: usize, ps: seq<Portal>, fuel: nat)
    requires IsRoute(sm, st.path) && st.path[|st.path| - 1] == start
    requires AllRoutes(sm, st.paths)
    requires forall k :: 0 <= k < |ps| ==> ps[k] in sm.portals && ps[k].source == start
    ensures var r := Follow(sm, st, ps, fuel, PopAfterPush);
      r.Some? ==> r.value.path == st.path && AllRoutes(sm, r.value.paths)
    decreases fuel, 1, |ps|
  {
    if ps != [] {
      var d := ps[0].destination;
      if d !in st.path {
        var pushed := SearchState(st.paths, st.path + [d]);
        RouteExtend(sm, st.path, ps[0]);
        CorrectedSearchSound(sm, pushed, d, fuel);
        var after := Search(sm, pushed, d, fuel, PopAfterPush);
        if after.Some? {
          var s1 := after.value;
          assert Pop(s1.path) == st.path;
          CorrectedFollowSound(sm, SearchState(s1.paths, st.path), start, ps[1..], fuel);
        }
      } else {
        CorrectedFollowSound(sm, st, start, ps[1..], fuel);
      }
    }
  }

  lemma {:induction false} CorrectedStartEachSound(sm: StarMap, ps: seq<Portal>, paths: seq<seq<usize>>, fuel: nat)
    requires AllRoutes(sm, paths)
    requires forall k :: 0 <= k < |ps| ==> ps[k] in sm.portals && ps[k].source == 0
    ensures var r := StartEach(sm, ps, paths, fuel, PopAfterPush);
      r.Some? ==> AllRoutes(sm, r.value)
    decreases |ps|
  {
    if ps != [] {
      var p := ps[0];
      var path := [p.source, p.destination];
      assert IsRoute(sm, path);
      CorrectedSearchSound(sm, SearchState(paths, path), p.destination, fuel);
      var r := Search(sm, SearchState(paths, path), p.destination, fuel, PopAfterPush);
      if r.Some? {
        CorrectedStartEachSound(sm, ps[1..], r.value.paths, fuel);
      }
    }
  }

  /** Every path the corrected `find_all_paths` reports is a route of the map
      from star 0, and ends at the last star. */
  lemma CorrectedAllPathsSound(sm: StarMap, fuel: nat)
    ensures var r := AllPaths(sm, fuel, PopAfterPush);
      r.Some? ==> AllRoutes(sm, r.value) && EndsAtLast(sm, r.value)
  {
    PortalsFromSourceMembers(sm.portals, 0);
    CorrectedStartEachSound(sm, PortalsFromSource(sm.portals, 0), [], fuel);
    AllPathsEndAtLast(sm, PortalsFromSource(sm.portals, 0), [], fuel, PopAfterPush);
  }

  lemma {:induction false} AllPathsEndAtLast(sm: StarMap, ps: seq<Portal>, paths: seq<seq<usize>>, fuel: nat, rule: PopRule)
    requires EndsAtLast(sm, paths)
    ensures var r := StartEach(sm, ps, paths, fuel, rule);
      r.Some? ==> EndsAtLast(sm, r.value)
    decreases |ps|
  {
    if ps != [] {
      var p := ps[0];
      var st := SearchState(paths, [p.source, p.destination]);
      SearchEndsAtLast(sm, st, p.destination, fuel, rule);
      var r := Search(sm, st, p.destination, fuel, rule);
      if r.Some? {
        AllPathsEndAtLast(sm, ps[1..], r.value.paths, fuel, rule);
      }
    }
  }

  /** Three stars, portals 0 -> 1, 1 -> 0 and 1 -> 2. */
  const Witness: StarMap :=
    StarMap([Star(0, 0, 0), Star(0, 0, 1), Star(0, 0, 2)], [Portal(0, 1), Portal(1, 0), Portal(1, 2)])

  /** As written, the skipped portal 1 -> 0 pops star 1 off the path, so the
      search records [0, 2], which is no route: there is no portal 0 -> 2. */
  lemma PopAfterSkipRecordsNonRoute()
    ensures AllPaths(Witness, 1, PopAlways) == Some([[0, 2]])
    ensures !IsRoute(Witness, [0, 2])
  {
    var sm := Witness;
    WitnessPortals();
    assert |sm.stars| == 3;
    assert LastStarId(sm) == 2;
    var ps := [Portal(1, 0), Portal(1, 2)];
    var st := SearchState([], [0, 2]);
    assert st.paths + [st.path] == [[0, 2]];
    assert Search(sm, st, 2, 0, PopAlways) == Some(SearchState([[0, 2]], [0, 2]));
    assert Pop([0, 2]) == [0];
    assert Follow(sm, SearchState([[0, 2]], [0]), [], 0, PopAlways) == Some(SearchState([[0, 2]], [0]));
    assert ps[1..][1..] == [];
    assert Follow(sm, SearchState([], [0]), ps[1..], 0, PopAlways) == Some(SearchState([[0, 2]], [0]));
    assert Pop([0, 1]) == [0];
    assert Follow(sm, SearchState([], [0, 1]), ps, 0, PopAlways) == Some(SearchState([[0, 2]], [0]));
    assert Search(sm, SearchState([], [0, 1]), 1, 1, PopAlways) == Some(SearchState([[0, 2]], [0]));
    var starts := [Portal(0, 1)];
    assert starts[1..] == [];
    assert StartEach(sm, starts, [], 1, PopAlways) == Some([[0, 2]]);
    assert Portal(0, 2) !in sm.portals;
  }

  /** The corrected search records the one route of the same map, [0, 1, 2]. */
  lemma PopAfterPushRecordsRoute()
    ensures AllPaths(Witness, 1, PopAfterPush) == Some([[0, 1, 2]])
    ensures IsRoute(Witness, [0, 1, 2])
  {
    var sm := Witness;
    WitnessPortals();
    assert |sm.stars| == 3;
    assert LastStarId(sm) == 2;
    var ps := [Portal(1, 0), Portal(1, 2)];
    var st := SearchState([], [0, 1, 2]);
    assert st.paths + [st.path] == [[0, 1, 2]];
    assert Search(sm, st, 2, 0, PopAfterPush) == Some(SearchState([[0, 1, 2]], [0, 1, 2]));
    assert Pop([0, 1, 2]) == [0, 1];
    assert Follow(sm, SearchState([[0, 1, 2]], [0, 1]), [], 0, PopAfterPush) == Some(SearchState([[0, 1, 2]], [0, 1]));
    assert ps[1..][1..] == [];
    assert [0, 1] + [2] == [0, 1, 2];
    assert Follow(sm, SearchState([], [0, 1]), ps[1..], 0, PopAfterPush) == Some(SearchState([[0, 1, 2]], [0, 1]));
    assert Follow(sm, SearchState([], [0, 1]), ps, 0, PopAfterPush) == Some(SearchState([[0, 1, 2]], [0, 1]));
    assert Search(sm, SearchState([], [0, 1]), 1, 1, PopAfterPush) == Some(SearchState([[0, 1, 2]], [0, 1]));
    var starts := [Portal(0, 1)];
    assert starts[1..] == [];
    assert StartEach(sm, starts, [], 1, PopAfterPush) == Some([[0, 1, 2]]);
    assert Portal(0, 1) == sm.portals[0] && Portal(1, 2) == sm.portals[2];
  }

  lemma WitnessPortals()
    ensures PortalsFromSource(Witness.portals, 0) == [Portal(0, 1)]
    ensures PortalsFromSource(Witness.portals, 1) == [Portal(1, 0), Portal(1, 2)]
  {
    var ps := Witness.portals;
    assert ps[..2] == [Portal(0, 1), Portal(1, 0)];
    assert ps[..2][..1] == [Portal(0, 1)];
    assert ps[..2][..1][..0] == [];
  }
}
