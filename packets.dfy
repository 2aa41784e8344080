/** The day-12 endpoints: a stopwatch per packet id, and statistics over
    ULIDs. Times are nanoseconds since the Unix epoch; the clock is read by
    the caller and passed in. A ULID is its 128-bit value, whose top 48 bits
    are a timestamp in milliseconds. */
module Packets {
  import opened Wrappers
  import opened Ints
  import Decimal
  import Sorting

  const NANOS_PER_SEC: nat := 1_000_000_000
  const NANOS_PER_MILLI: nat := 1_000_000
  const MILLIS_PER_DAY: nat := 86_400_000
  const TWO_80: nat := 0x1_0000_0000_0000_0000_0000

  type u128 = x: int | 0 <= x < 0x1_0000_0000_0000_0000_0000_0000_0000_0000

  // ------------------------------------------------------------ stopwatch

  /** The whole seconds of a `Duration`: `as_secs`. */
  function Seconds(nanos: nat): nat {
    nanos / NANOS_PER_SEC
  }

  /** What `load_packet` answers when the clock reads `now`: 0 for an id
      never saved, the whole seconds since its save otherwise, and an error
      when the clock reads earlier than the saved time. */
  function Elapsed(saved: map<string, nat>, id: string, now: nat): Option<nat> {
    if id !in saved then Some(0)
    else if now < saved[id] then None
    else Some(Seconds(now - saved[id]))
  }

  /** The shared `multi_stopwatch` map, behind its mutex. */
  class Stopwatch {
    var saved: map<string, nat>

    constructor()
      ensures saved == map[]
    {
      saved := map[];
    }

    /** `save_packet`: `entry(id).and_modify(..).or_insert(..)` stores the
        current time for the id, whether or not it was there. */
    method Save(id: string, now: nat)
      modifies this
      ensures saved == old(saved)[id := now]
      ensures forall other :: other != id ==> (other in saved <==> other in old(saved))
      ensures forall other :: other != id && other in saved ==> saved[other] == old(saved)[other]
    {
      saved := saved[id := now];
    }

    /** `load_packet`: the elapsed whole seconds as decimal text, or an
        error when the clock went back. */
    method Load(id: string, now: nat) returns (r: Option<string>)
      ensures r.None? <==> Elapsed(saved, id, now).None?
      ensures r.Some? ==> r.value == Decimal.NatToString(Elapsed(saved, id, now).value)
    {
      var timestamp := if id in saved then saved[id] else now;
      if now < timestamp {
        return None;
      }
      var diff := if id in saved then now - timestamp else 0;
      r := Some(Decimal.NatToString(Seconds(diff)));
    }
  }

  /** Loading after a save counts the seconds since that save, whatever was
      stored before; ids never saved read 0. */
  lemma SaveThenLoad(saved: map<string, nat>, id: string, t: nat, seconds: nat, nanos: nat)
    requires nanos < NANOS_PER_SEC
    ensures Elapsed(saved[id := t], id, t + seconds * NANOS_PER_SEC + nanos) == Some(seconds)
    ensures t > 0 ==> Elapsed(saved[id := t], id, t - 1) == None
    ensures id !in saved ==> Elapsed(saved, id, t) == Some(0)
  {
    assert (seconds * NANOS_PER_SEC + nanos) / NANOS_PER_SEC == seconds;
  }

  /** Saving one id never changes what another id loads. */
  lemma SaveIsolated(saved: map<string, nat>, id: string, other: string, t: nat, now: nat)
    requires other != id
    ensures Elapsed(saved[id := t], other, now) == Elapsed(saved, other, now)
  {
  }

  // ------------------------------------------------------------ ULIDs

  /** Month, day of the month and day of the week (Sunday = 0), as chrono
      renders them with `%m`, `%d` and `%w`. */
  datatype Date = Date(month: nat, day: nat, weekday: nat)

  /** A ULID that parsed: its 128-bit value, and the UTC date of its
      timestamp as decoded by chrono. */
  datatype Ulid = Ulid(bits: u128, date: Date)

  /** `flat_map(|s| Ulid::from_str(s))`: the strings that parse, in order;
      parsing itself is not modelled, so the input holds its outcome. */
  function Valid(parsed: seq<Option<Ulid>>): (vs: seq<Ulid>)
    ensures |vs| <= |parsed|
    ensures forall u :: u in vs <==> Some(u) in parsed
  {
    if parsed == [] then []
    else
      var init := Valid(parsed[..|parsed| - 1]);
      var last := parsed[|parsed| - 1];
      assert parsed == parsed[..|parsed| - 1] + [last];
      match last
      case None => init
      case Some(u) => init + [u]
  }

  function Values(us: seq<Ulid>): (vs: seq<int>)
    ensures |vs| == |us| && forall i :: 0 <= i < |us| ==> vs[i] == us[i].bits
  {
    if us == [] then [] else [us[0].bits as int] + Values(us[1..])
  }

  /** `ulids`: the values of the valid ULIDs, sorted and then reversed, so
      largest first. */
  function Ulids(parsed: seq<Option<Ulid>>): (r: seq<int>)
    ensures Sorting.SortedDescending(r)
    ensures multiset(r) == multiset(Values(Valid(parsed)))
  {
    Sorting.SortThenReverse(Values(Valid(parsed)));
    Sorting.Reverse(Sorting.Sort(Values(Valid(parsed))))
  }

  /** The descending order is the only one: any descending arrangement of
      the valid ULIDs is the answer. */
  lemma UlidsUnique(parsed: seq<Option<Ulid>>, other: seq<int>)
    requires Sorting.SortedDescending(other)
    requires multiset(other) == multiset(Values(Valid(parsed)))
    ensures other == Ulids(parsed)
  {
    var r := Ulids(parsed);
    var a := Sorting.Reverse(other);
    var b := Sorting.Reverse(r);
    Sorting.ReverseMultiset(other);
    Sorting.ReverseMultiset(r);
    assert Sorting.Sorted(a) && Sorting.Sorted(b);
    Sorting.SortedUnique(a, b);
    forall k | 0 <= k < |other| ensures other[k] == r[k] {
      assert a[|a| - 1 - k] == b[|b| - 1 - k];
    }
  }

  // ------------------------------------------------------------ calendar

  /** The ULID's timestamp: the top 48 bits, in milliseconds. */
  function Millis(bits: u128): nat {
    bits / TWO_80
  }

  /** The UTC date of a count of days since 1 January 1970, a Thursday, in
      the proleptic Gregorian calendar, by the usual era-of-400-years
      arithmetic. */
  function CivilDate(days: nat): Date {
    var z := days + 719468;
    var era := z / 146097;
    var doe := z - era * 146097;
    var yoe := (doe - doe / 1460 + doe / 36524 - doe / 146096) / 365;
    var doy := doe - (365 * yoe + yoe / 4 - yoe / 100);
    var mp := (5 * doy + 2) / 153;
    var d := doy - (153 * mp + 2) / 5 + 1;
    var m := if mp < 10 then mp + 3 else mp - 9;
    Date(m, d, (days + 4) % 7)
  }

  /** A ULID whose date is the one its timestamp falls on. */
  predicate Decoded(u: Ulid) {
    u.date == CivilDate(Millis(u.bits) / MILLIS_PER_DAY)
  }

  /** `format("%d")` and `format("%m")`: two digits, zero-padded. */
  function TwoDigits(n: nat): string
    requires n < 100
  {
    [Decimal.DigitChar(n / 10), Decimal.DigitChar(n % 10)]
  }

  predicate IsChristmasEve(u: Ulid) {
    u.date.day < 100 && u.date.month < 100
    && TwoDigits(u.date.day) == "24" && TwoDigits(u.date.month) == "12"
  }

  /** Comparing the zero-padded text with "24" and "12" is comparing the
      numbers. */
  lemma TwoDigitsText(n: nat, t: nat)
    requires n < 100 && 10 <= t < 100
    ensures TwoDigits(n) == TwoDigits(t) <==> n == t
  {
    if TwoDigits(n) == TwoDigits(t) {
      assert n / 10 == t / 10 && n % 10 == t % 10;
    }
  }

  /** A ULID stamped on 24 December 2023 (day 19715), a Sunday. */
  lemma ChristmasEve2023(u: Ulid)
    requires Decoded(u) && Millis(u.bits) == 19715 * MILLIS_PER_DAY + 1234
    ensures IsChristmasEve(u) && u.date.weekday == 0
  {
    assert Millis(u.bits) / MILLIS_PER_DAY == 19715;
    CivilDate19715();
    assert TwoDigits(24) == "24" && TwoDigits(12) == "12";
  }

  lemma CivilDate19715()
    ensures CivilDate(19715) == Date(12, 24, 0)
  {
    var z := 19715 + 719468;
    assert z / 146097 == 5;
    var doe := z - 5 * 146097;
    assert doe == 8698;
    assert doe / 1460 == 5 && doe / 36524 == 0 && doe / 146096 == 0;
    assert 8693 / 365 == 23;
    var doy := doe - (365 * 23 + 23 / 4 - 23 / 100);
    assert doy == 298;
    assert (5 * doy + 2) / 153 == 9;
    assert (153 * 9 + 2) / 5 == 275;
  }

  /** `weekday_req + 1`, wrapping in `usize`, and 7 turned into 0. */
  function TargetWeekday(w: usize): nat {
    var next := WrapU64(w + 1);
    if next == 7 then 0 else next
  }

  /** The request's weekday, if it parses as a `usize`. */
  function Target(req: string): Option<nat> {
    match Decimal.ParseU64(req)
    case None => None
    case Some(w) => Some(TargetWeekday(w))
  }

  /** `weekday == weekday_req.to_string()`. */
  predicate OnWeekday(u: Ulid, t: nat) {
    Decimal.NatToString(u.date.weekday) == Decimal.NatToString(t)
  }

  predicate WeekdayMatch(u: Ulid, req: string) {
    match Target(req)
    case None => false
    case Some(t) => OnWeekday(u, t)
  }

  /** The day after the requested one, counted Sunday = 0: a request from 0
      to 5 counts the next day, 6 counts Sundays, and any larger request
      counts nothing except `usize::MAX`, whose successor wraps to 0. */
  lemma TargetDays(u: Ulid, w: usize)
    requires u.date.weekday < 7
    ensures w < 6 ==> (OnWeekday(u, TargetWeekday(w)) <==> u.date.weekday == w + 1)
    ensures w == 6 ==> (OnWeekday(u, TargetWeekday(w)) <==> u.date.weekday == 0)
    ensures 7 <= w < TWO_64 - 1 ==> !OnWeekday(u, TargetWeekday(w))
    ensures w == TWO_64 - 1 ==> (OnWeekday(u, TargetWeekday(w)) <==> u.date.weekday == 0)
  {
    var t := TargetWeekday(w);
    if Decimal.NatToString(u.date.weekday) == Decimal.NatToString(t) {
      Decimal.NatToStringInjective(u.date.weekday, t);
    }
  }

  /** `ulid.datetime() > SystemTime::now()`, in nanoseconds. */
  predicate InTheFuture(u: Ulid, now: nat) {
    Millis(u.bits) * NANOS_PER_MILLI > now
  }

  /** `ulid.0 & 1 == 1`. */
  predicate LsbIsOne(u: Ulid) {
    u.bits % 2 == 1
  }

  /** The four things `ulids_weekday` counts. */
  datatype Criterion = ChristmasEve | Weekday(req: string) | Future(now: nat) | LsbOne

  predicate Holds(c: Criterion, u: Ulid) {
    match c
    case ChristmasEve => IsChristmasEve(u)
    case Weekday(req) => WeekdayMatch(u, req)
    case Future(now) => InTheFuture(u, now)
    case LsbOne => LsbIsOne(u)
  }

  /** How many of `us` meet `c`. */
  function CountIf(us: seq<Ulid>, c: Criterion): (n: nat)
    ensures n <= |us|
  {
    if us == [] then 0
    else CountIf(us[..|us| - 1], c) + (if Holds(c, us[|us| - 1]) then 1 else 0)
  }

  lemma CountIfStep(us: seq<Ulid>, i: nat, c: Criterion)
    requires i < |us|
    ensures CountIf(us[..i + 1], c) == CountIf(us[..i], c) + (if Holds(c, us[i]) then 1 else 0)
  {
    assert us[..i + 1][..i] == us[..i];
  }

  datatype WeekdayResult = WeekdayResult(christmasEve: nat, weekday: nat, inTheFuture: nat, lsbIs1: nat)

  /** The four counters over `ulids`. */
  function Counters(ulids: seq<Ulid>, req: string, now: nat): WeekdayResult {
    WeekdayResult(CountIf(ulids, ChristmasEve), CountIf(ulids, Weekday(req)),
                  CountIf(ulids, Future(now)), CountIf(ulids, LsbOne))
  }

  /** The last three counters of one pass step, once the weekday is known. */
  method CountRest(result: WeekdayResult, ulid: Ulid, t: nat, now: nat) returns (next: WeekdayResult)
    ensures next == WeekdayResult(
      result.christmasEve,
      result.weekday + (if OnWeekday(ulid, t) then 1 else 0),
      result.inTheFuture + (if InTheFuture(ulid, now) then 1 else 0),
      result.lsbIs1 + (if LsbIsOne(ulid) then 1 else 0))
  {
    next := result;
    if Decimal.NatToString(ulid.date.weekday) == Decimal.NatToString(t) {
      next := next.(weekday := next.weekday + 1);
    }
    if Millis(ulid.bits) * NANOS_PER_MILLI > now {
      next := next.(inTheFuture := next.inTheFuture + 1);
    }
    if ulid.bits % 2 == 1 {
      next := next.(lsbIs1 := next.lsbIs1 + 1);
    }
  }

  /** The pass of `ulids_weekday` over the valid ULIDs, bumping four
      counters. The request's weekday is parsed inside the pass, so a bad
      one panics only when there is at least one ULID. */
  method Tally(req: string, ulids: seq<Ulid>, now: nat) returns (r: Outcome<WeekdayResult>)
    ensures r.Panic? <==> ulids != [] && Target(req).None?
    ensures r.Done? ==> r.value == Counters(ulids, req, now)
  {
    var result := WeekdayResult(0, 0, 0, 0);
    for i := 0 to |ulids|
      invariant result == Counters(ulids[..i], req, now)
      invariant i > 0 ==> Target(req).Some?
    {
      var ulid := ulids[i];
      var christmasEve := result.christmasEve;
      if IsChristmasEve(ulid) {
        christmasEve := christmasEve + 1;
      }
      var weekdayReq := Decimal.ParseU64(req);
      if weekdayReq.None? {
        return Panic;
      }
      var t := WrapU64(weekdayReq.value + 1);
      if t == 7 {
        t := 0;
      }
      assert Target(req) == Some(t);
      var next := CountRest(result.(christmasEve := christmasEve), ulid, t, now);
      TallyStep(ulids, i, req, now, t, result, next);
      result := next;
    }
    assert ulids[..|ulids|] == ulids;
    return Done(result);
  }

  /** One pass step of `Tally`: the counters over one more ULID. */
  lemma TallyStep(ulids: seq<Ulid>, i: nat, req: string, now: nat, t: nat,
                  before: WeekdayResult, after: WeekdayResult)
    requires i < |ulids| && Target(req) == Some(t)
    requires before == Counters(ulids[..i], req, now)
    requires after == WeekdayResult(
      before.christmasEve + (if IsChristmasEve(ulids[i]) then 1 else 0),
      before.weekday + (if OnWeekday(ulids[i], t) then 1 else 0),
      before.inTheFuture + (if InTheFuture(ulids[i], now) then 1 else 0),
      before.lsbIs1 + (if LsbIsOne(ulids[i]) then 1 else 0))
    ensures after == Counters(ulids[..i + 1], req, now)
  {
    CountIfStep(ulids, i, ChristmasEve);
    CountIfStep(ulids, i, Weekday(req));
    CountIfStep(ulids, i, Future(now));
    CountIfStep(ulids, i, LsbOne);
  }

  /** `ulids_weekday`: the counters over the strings that parse as ULIDs. */
  method UlidsWeekday(req: string, parsed: seq<Option<Ulid>>, now: nat) returns (r: Outcome<WeekdayResult>)
    ensures r.Panic? <==> Valid(parsed) != [] && Target(req).None?
    ensures r.Done? ==> r.value == Counters(Valid(parsed), req, now)
  {
    r := Tally(req, Valid(parsed), now);
  }

  /** No counter exceeds the number of valid ULIDs. */
  lemma CountersBounded(req: string, parsed: seq<Option<Ulid>>, now: nat, r: WeekdayResult)
    requires r == Counters(Valid(parsed), req, now)
    ensures r.christmasEve <= |Valid(parsed)| && r.weekday <= |Valid(parsed)|
    ensures r.inTheFuture <= |Valid(parsed)| && r.lsbIs1 <= |Valid(parsed)|
  {
  }
}
