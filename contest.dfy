/** The day-4 reindeer endpoints: the summed strength of a team, and the
    contest winners, each chosen as the first reindeer with the greatest
    value of one optional attribute. */
module Contest {
  import opened Wrappers
  import opened Ints
  import Decimal

  /** A reindeer as the request describes it. `speed` is the `f32` the JSON
      number was read into. */
  datatype Reindeer = Reindeer(
    name: string,
    strength: i32,
    speed: Option<real>,
    height: Option<i32>,
    antlerWidth: Option<i32>,
    snowMagicPower: Option<i32>,
    favoriteFood: Option<string>,
    candiesEatenYesterday: Option<i32>)

  // ------------------------------------------------------------ strength

  function Sum(xs: seq<Reindeer>): int {
    if xs == [] then 0 else Sum(xs[..|xs| - 1]) + xs[|xs| - 1].strength
  }

  /** `calculate_strength`: the strengths added into an `i32` accumulator,
      wrapping on overflow, then written in decimal. */
  method CalculateStrength(reindeers: seq<Reindeer>) returns (text: string)
    ensures text == Decimal.IntToString(Wrap32(Sum(reindeers)))
  {
    var total: i32 := 0;
    var i := 0;
    while i < |reindeers|
      invariant 0 <= i <= |reindeers|
      invariant total == Wrap32(Sum(reindeers[..i]))
    {
      assert reindeers[..i + 1][..i] == reindeers[..i];
      Wrap32Add(Sum(reindeers[..i]), reindeers[i].strength);
      total := Wrap32(total + reindeers[i].strength);
      i := i + 1;
    }
    assert reindeers[..i] == reindeers;
    text := Decimal.IntToString(total);
  }

  /** A team whose strengths add up within `i32` gets the exact sum. */
  lemma StrengthExact(reindeers: seq<Reindeer>)
    requires I32_MIN <= Sum(reindeers) <= I32_MAX
    ensures Decimal.IntToString(Wrap32(Sum(reindeers))) == Decimal.IntToString(Sum(reindeers))
    ensures Decimal.ParseI32(Decimal.IntToString(Wrap32(Sum(reindeers)))) == Some(Sum(reindeers))
  {
    Decimal.ParseIntToString(Sum(reindeers), I32_MIN, I32_MAX);
  }

  /** Teams are summed in any order to the same total. */
  lemma {:induction false} SumAppend(a: seq<Reindeer>, b: seq<Reindeer>)
    ensures Sum(a + b) == Sum(a) + Sum(b)
  {
    if b != [] {
      SumAppend(a, b[..|b| - 1]);
      assert (a + b)[..|a + b| - 1] == a + b[..|b| - 1];
    } else {
      assert a + b == a;
    }
  }

  // ------------------------------------------------------------ contest

  /** `Option`'s derived order: `None` is below every `Some`, and two `Some`
      compare by their contents. */
  predicate Above(a: Option<real>, b: Option<real>) {
    a.Some? && (b.None? || a.value > b.value)
  }

  function IntKey(v: Option<i32>): Option<real> {
    match v
    case None => None
    case Some(x) => Some(x as real)
  }

  /** Comparing `i32` values as reals keeps their order. */
  lemma IntKeyOrder(a: Option<i32>, b: Option<i32>)
    ensures Above(IntKey(a), IntKey(b)) <==> a.Some? && (b.None? || a.value > b.value)
  {
  }

  function SpeedKey(r: Reindeer): Option<real> { r.speed }
  function HeightKey(r: Reindeer): Option<real> { IntKey(r.height) }
  function MagicKey(r: Reindeer): Option<real> { IntKey(r.snowMagicPower) }
  function CandyKey(r: Reindeer): Option<real> { IntKey(r.candiesEatenYesterday) }

  /** Index `i` holds the first greatest key: nothing after it is above it,
      and it is above everything before it. */
  predicate IsFirstMax(rs: seq<Reindeer>, key: Reindeer -> Option<real>, i: int) {
    0 <= i < |rs|
    && (forall j :: 0 <= j < |rs| ==> !Above(key(rs[j]), key(rs[i])))
    && (forall j :: 0 <= j < i ==> Above(key(rs[i]), key(rs[j])))
  }

  /** At most one index holds the first greatest key. */
  lemma FirstMaxUnique(rs: seq<Reindeer>, key: Reindeer -> Option<real>, i: int, j: int)
    requires IsFirstMax(rs, key, i) && IsFirstMax(rs, key, j)
    ensures i == j
  {
    forall a, b | 0 <= a < b && IsFirstMax(rs, key, b)
      ensures !IsFirstMax(rs, key, a)
    {
      assert Above(key(rs[b]), key(rs[a]));
    }
  }

  /** A reindeer that has the attribute always wins over one that lacks it,
      so the winner lacks it only when every reindeer does. */
  lemma PresentBeatsMissing(rs: seq<Reindeer>, key: Reindeer -> Option<real>, i: int)
    requires IsFirstMax(rs, key, i) && key(rs[i]).None?
    ensures forall j :: 0 <= j < |rs| ==> key(rs[j]).None?
  {
  }

  /** The loop shared by `get_fastest`, `get_tallest`, `get_magician` and
      `get_consumer`: start from the first reindeer and replace the current
      best only with one whose key is strictly above it. The `unwrap` of the
      first reindeer panics on an empty list. */
  method FirstMax(rs: seq<Reindeer>, key: Reindeer -> Option<real>) returns (best: Option<nat>)
    ensures best.None? <==> |rs| == 0
    ensures best.Some? ==> IsFirstMax(rs, key, best.value)
  {
    if |rs| == 0 {
      return None;
    }
    var b := 0;
    var i := 1;
    while i < |rs|
      invariant 1 <= i <= |rs| && 0 <= b < i
      invariant forall j :: 0 <= j < i ==> !Above(key(rs[j]), key(rs[b]))
      invariant forall j :: 0 <= j < b ==> Above(key(rs[b]), key(rs[j]))
    {
      if Above(key(rs[i]), key(rs[b])) {
        b := i;
      }
      i := i + 1;
    }
    return Some(b);
  }

  function FastestText(r: Reindeer): string {
    "Speeding past the finish line with a strength of " + Decimal.IntToString(r.strength) + " is " + r.name
  }

  /** The tallest reindeer's message needs its antler width. */
  function TallestText(r: Reindeer): Outcome<string> {
    match r.antlerWidth
    case None => Panic
    case Some(w) => Done(r.name + " is standing tall with his " + Decimal.IntToString(w) + " cm wide antlers")
  }

  function MagicianText(r: Reindeer): Outcome<string> {
    match r.snowMagicPower
    case None => Panic
    case Some(p) => Done(r.name + " could blast you away with a snow magic power of " + Decimal.IntToString(p))
  }

  function ConsumerText(r: Reindeer): Outcome<string> {
    match r.favoriteFood
    case None => Panic
    case Some(f) => Done(r.name + " ate lots of candies, but also some " + f)
  }

  /** `get_fastest`. */
  method GetFastest(rs: seq<Reindeer>) returns (r: Outcome<string>)
    ensures r.Panic? <==> |rs| == 0
    ensures r.Done? ==> exists i :: IsFirstMax(rs, SpeedKey, i) && r.value == FastestText(rs[i])
  {
    var best := FirstMax(rs, SpeedKey);
    if best.None? {
      return Panic;
    }
    return Done(FastestText(rs[best.value]));
  }

  /** `get_tallest`: panics when the tallest reindeer has no antler width. */
  method GetTallest(rs: seq<Reindeer>) returns (r: Outcome<string>)
    ensures |rs| == 0 ==> r.Panic?
    ensures |rs| > 0 ==> exists i :: IsFirstMax(rs, HeightKey, i) && r == TallestText(rs[i])
  {
    var best := FirstMax(rs, HeightKey);
    if best.None? {
      return Panic;
    }
    return TallestText(rs[best.value]);
  }

  /** `get_magician`: panics when the strongest magician's power is absent,
      which happens only when nobody's is present. */
  method GetMagician(rs: seq<Reindeer>) returns (r: Outcome<string>)
    ensures r.Panic? <==> forall j :: 0 <= j < |rs| ==> rs[j].snowMagicPower.None?
    ensures r.Done? ==> exists i :: IsFirstMax(rs, MagicKey, i) && r == MagicianText(rs[i])
  {
    var best := FirstMax(rs, MagicKey);
    if best.None? {
      return Panic;
    }
    var i := best.value;
    if rs[i].snowMagicPower.None? {
      PresentBeatsMissing(rs, MagicKey, i);
      assert forall j :: 0 <= j < |rs| ==> MagicKey(rs[j]).None?;
    }
    return MagicianText(rs[i]);
  }

  /** `get_consumer`: panics when the greatest candy eater has no favourite
      food. */
  method GetConsumer(rs: seq<Reindeer>) returns (r: Outcome<string>)
    ensures |rs| == 0 ==> r.Panic?
    ensures |rs| > 0 ==> exists i :: IsFirstMax(rs, CandyKey, i) && r == ConsumerText(rs[i])
  {
    var best := FirstMax(rs, CandyKey);
    if best.None? {
      return Panic;
    }
    return ConsumerText(rs[best.value]);
  }

  datatype ContestResult = ContestResult(fastest: string, tallest: string, magician: string, consumer: string)

  /** `get_contest_results`: the four winners' messages, in this order; the
      first panic ends the request. */
  method GetContestResults(rs: seq<Reindeer>) returns (r: Outcome<ContestResult>)
    ensures |rs| == 0 ==> r.Panic?
    ensures r.Done? ==>
      (exists i :: IsFirstMax(rs, SpeedKey, i) && r.value.fastest == FastestText(rs[i]))
      && (exists i :: IsFirstMax(rs, HeightKey, i) && TallestText(rs[i]) == Done(r.value.tallest))
      && (exists i :: IsFirstMax(rs, MagicKey, i) && MagicianText(rs[i]) == Done(r.value.magician))
      && (exists i :: IsFirstMax(rs, CandyKey, i) && ConsumerText(rs[i]) == Done(r.value.consumer))
    ensures |rs| > 0 ==> (r.Panic? <==>
      (exists i :: IsFirstMax(rs, HeightKey, i) && rs[i].antlerWidth.None?)
      || (forall j :: 0 <= j < |rs| ==> rs[j].snowMagicPower.None?)
      || (exists i :: IsFirstMax(rs, CandyKey, i) && rs[i].favoriteFood.None?))
  {
    var fastest := GetFastest(rs);
    var tallest := GetTallest(rs);
    var magician := GetMagician(rs);
    var consumer := GetConsumer(rs);
    if fastest.Panic? || tallest.Panic? || magician.Panic? || consumer.Panic? {
      if |rs| > 0 {
        UniqueWinners(rs);
      }
      return Panic;
    }
    if |rs| > 0 {
      UniqueWinners(rs);
    }
    return Done(ContestResult(fastest.value, tallest.value, magician.value, consumer.value));
  }

  /** Every category of a non-empty team has exactly one winner. */
  lemma UniqueWinners(rs: seq<Reindeer>)
    requires |rs| > 0
    ensures forall i, j :: IsFirstMax(rs, HeightKey, i) && IsFirstMax(rs, HeightKey, j) ==> i == j
    ensures forall i, j :: IsFirstMax(rs, CandyKey, i) && IsFirstMax(rs, CandyKey, j) ==> i == j
  {
    forall i, j | IsFirstMax(rs, HeightKey, i) && IsFirstMax(rs, HeightKey, j) ensures i == j {
      FirstMaxUnique(rs, HeightKey, i, j);
    }
    forall i, j | IsFirstMax(rs, CandyKey, i) && IsFirstMax(rs, CandyKey, j) ensures i == j {
      FirstMaxUnique(rs, CandyKey, i, j);
    }
  }
}
