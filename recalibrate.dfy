/** The day-1 endpoint: the packet ids in a `/`-separated path, combined by
    exclusive or, then cubed. */
module Recalibrate {
  import opened Wrappers
  import opened Ints
  import Decimal
  import Text

  /** Exclusive or of the binary digits of two naturals. */
  function XorNat(a: nat, b: nat): nat
    decreases a + b
  {
    if a == 0 && b == 0 then 0
    else 2 * XorNat(a / 2, b / 2) + (if a % 2 == b % 2 then 0 else 1)
  }

  function Pow2(k: nat): (p: nat)
    ensures p >= 1
  {
    if k == 0 then 1 else 2 * Pow2(k - 1)
  }

  lemma XorNatDigits(a: nat, b: nat)
    ensures XorNat(a, b) / 2 == XorNat(a / 2, b / 2)
    ensures XorNat(a, b) % 2 == if a % 2 == b % 2 then 0 else 1
  {
  }

  lemma {:induction false} XorNatComm(a: nat, b: nat)
    ensures XorNat(a, b) == XorNat(b, a)
    decreases a + b
  {
    if a != 0 || b != 0 {
      XorNatComm(a / 2, b / 2);
    }
  }

  lemma {:induction false} XorNatZero(a: nat)
    ensures XorNat(a, 0) == a && XorNat(0, a) == a
  {
    if a != 0 {
      XorNatZero(a / 2);
    }
  }

  lemma {:induction false} XorNatSelf(a: nat)
    ensures XorNat(a, a) == 0
  {
    if a != 0 {
      XorNatSelf(a / 2);
    }
  }

  lemma {:induction false} XorNatAssoc(a: nat, b: nat, c: nat)
    ensures XorNat(XorNat(a, b), c) == XorNat(a, XorNat(b, c))
    decreases a + b + c
  {
    var ab := XorNat(a, b);
    var bc := XorNat(b, c);
    if a == 0 && b == 0 {
      XorNatZero(c);
    } else if b == 0 && c == 0 {
      XorNatZero(a);
    } else if a == 0 && c == 0 {
      XorNatZero(b);
    } else {
      XorNatDigits(a, b);
      XorNatDigits(b, c);
      XorNatAssoc(a / 2, b / 2, c / 2);
      XorNatDigits(ab, c);
      XorNatDigits(a, bc);
      var l := XorNat(ab, c);
      var r := XorNat(a, bc);
      assert l / 2 == r / 2 && l % 2 == r % 2;
    }
  }

  lemma {:induction false} XorNatBound(a: nat, b: nat, k: nat)
    requires a < Pow2(k) && b < Pow2(k)
    ensures XorNat(a, b) < Pow2(k)
  {
    if k > 0 && (a != 0 || b != 0) {
      XorNatBound(a / 2, b / 2, k - 1);
    } else if k == 0 {
      assert a == 0 && b == 0;
    }
  }

  lemma Pow2At32()
    ensures Pow2(32) == TWO_32
  {
    assert Pow2(8) == 256;
    assert Pow2(16) == 256 * 256 by {
      Pow2Add(8, 8);
    }
    Pow2Add(16, 16);
  }

  lemma {:induction false} Pow2Add(i: nat, j: nat)
    ensures Pow2(i + j) == Pow2(i) * Pow2(j)
  {
    if j > 0 {
      Pow2Add(i, j - 1);
    }
  }

  /** The two's-complement bits of an `i32`, read as an unsigned number. */
  function ToBits(x: i32): (u: nat)
    ensures u < TWO_32
  {
    if x < 0 then x + TWO_32 else x
  }

  function FromBits(u: nat): i32
    requires u < TWO_32
  {
    if u <= I32_MAX then u else u - TWO_32
  }

  /** `a ^ b` on `i32`: exclusive or of the two's-complement bits. */
  function Xor(a: i32, b: i32): i32 {
    Pow2At32();
    XorNatBound(ToBits(a), ToBits(b), 32);
    FromBits(XorNat(ToBits(a), ToBits(b)))
  }

  /** Exclusive or on `i32` is commutative and associative, with 0 as its
      identity, and cancels itself. */
  lemma XorLaws(a: i32, b: i32, c: i32)
    ensures Xor(a, b) == Xor(b, a)
    ensures Xor(Xor(a, b), c) == Xor(a, Xor(b, c))
    ensures Xor(0, a) == a && Xor(a, 0) == a
    ensures Xor(a, a) == 0
  {
    var x, y, z := ToBits(a), ToBits(b), ToBits(c);
    Pow2At32();
    XorNatBound(x, y, 32);
    XorNatBound(y, z, 32);
    BitsRoundTrip(a, XorNat(x, y));
    BitsRoundTrip(a, XorNat(y, z));
    XorNatComm(x, y);
    XorNatAssoc(x, y, z);
    XorNatZero(x);
    XorNatSelf(x);
  }

  /** Reading the bits back gives the same `i32`, and the same bits. */
  lemma BitsRoundTrip(x: i32, u: nat)
    requires u < TWO_32
    ensures FromBits(ToBits(x)) == x
    ensures ToBits(FromBits(u)) == u
  {
  }

  /** `ids.iter().fold(0, |acc, v| acc ^ v)`. */
  function Fold(ids: seq<i32>): i32 {
    if ids == [] then 0 else Xor(Fold(ids[..|ids| - 1]), ids[|ids| - 1])
  }

  lemma {:induction false} FoldAppend(a: seq<i32>, b: seq<i32>)
    ensures Fold(a + b) == Xor(Fold(a), Fold(b))
  {
    if b == [] {
      assert a + b == a;
      XorLaws(Fold(a), 0, 0);
    } else {
      var init := b[..|b| - 1];
      var last := b[|b| - 1];
      assert (a + b)[..|a + b| - 1] == a + init;
      FoldAppend(a, init);
      XorLaws(Fold(a), Fold(init), last);
    }
  }

  /** The fold does not depend on the order of the ids. */
  lemma {:induction false} FoldPermutation(s: seq<i32>, t: seq<i32>)
    requires multiset(s) == multiset(t)
    ensures Fold(s) == Fold(t)
    decreases |s|
  {
    if s != [] {
      var init := s[..|s| - 1];
      var x := s[|s| - 1];
      assert s == init + [x];
      assert x in multiset(t);
      var k :| 0 <= k < |t| && t[k] == x;
      var rest := t[..k] + t[k + 1..];
      RemoveOne(s, t, k);
      FoldPermutation(init, rest);
      FoldRemove(t, k);
    }
  }

  /** Taking the last of `s` and the same id at `k` out of `t` leaves equal
      multisets. */
  lemma RemoveOne(s: seq<i32>, t: seq<i32>, k: nat)
    requires s != [] && k < |t| && t[k] == s[|s| - 1]
    requires multiset(s) == multiset(t)
    ensures multiset(s[..|s| - 1]) == multiset(t[..k] + t[k + 1..])
  {
    var x := s[|s| - 1];
    assert s == s[..|s| - 1] + [x];
    SplitAt(t, k);
    assert multiset(s) == multiset(s[..|s| - 1]) + multiset{x};
    assert multiset(t) == multiset(t[..k]) + multiset{x} + multiset(t[k + 1..]);
    assert multiset(t[..k] + t[k + 1..]) == multiset(t[..k]) + multiset(t[k + 1..]);
    assert multiset(s[..|s| - 1]) == multiset(s) - multiset{x};
    assert multiset(t[..k] + t[k + 1..]) == multiset(t) - multiset{x};
  }

  lemma SplitAt(t: seq<i32>, k: nat)
    requires k < |t|
    ensures t == t[..k] + [t[k]] + t[k + 1..]
  {
  }

  /** Folding with one id taken out, then that id, is the whole fold. */
  lemma FoldRemove(t: seq<i32>, k: nat)
    requires k < |t|
    ensures Fold(t) == Xor(Fold(t[..k] + t[k + 1..]), t[k])
  {
    var x := t[k];
    var a, b := Fold(t[..k]), Fold(t[k + 1..]);
    assert Fold([x]) == x by {
      assert [x][..0] == [];
      XorLaws(x, 0, 0);
    }
    calc {
      Fold(t);
      { SplitAt(t, k); }
      Fold(t[..k] + [x] + t[k + 1..]);
      { FoldAppend(t[..k] + [x], t[k + 1..]); }
      Xor(Fold(t[..k] + [x]), b);
      { FoldAppend(t[..k], [x]); }
      Xor(Xor(a, x), b);
      { XorLaws(a, x, b); XorLaws(x, b, 0); }
      Xor(a, Xor(b, x));
      { XorLaws(a, b, x); }
      Xor(Xor(a, b), x);
      { FoldAppend(t[..k], t[k + 1..]); }
      Xor(Fold(t[..k] + t[k + 1..]), x);
    }
  }

  /** The segments that parse as `i32`, in order. */
  function Ids(segments: seq<string>): (ids: seq<i32>)
    ensures |ids| <= |segments|
  {
    if segments == [] then []
    else
      var init := Ids(segments[..|segments| - 1]);
      match Decimal.ParseI32(segments[|segments| - 1])
      case None => init
      case Some(v) => init + [v]
  }

  lemma {:induction false} IdsAppend(a: seq<string>, b: seq<string>)
    ensures Ids(a + b) == Ids(a) + Ids(b)
  {
    if b == [] {
      assert a + b == a;
    } else {
      assert (a + b)[..|a + b| - 1] == a + b[..|b| - 1];
      IdsAppend(a, b[..|b| - 1]);
    }
  }

  /** `.pow(3)` on `i32`, wrapping on overflow. */
  function Cube(x: i32): i32 {
    Wrap32(x * x * x)
  }

  /** The answer for a list of path segments. */
  function Answer(segments: seq<string>): int {
    Cube(Fold(Ids(segments)))
  }

  /** `recalibrate_packet_ids`: the loop keeps the segments that parse. */
  method RecalibratePacketIds(packets: string) returns (text: string)
    ensures text == Decimal.IntToString(Answer(Text.Split(packets, '/')))
  {
    var splits := Text.Split(packets, '/');
    var ids: seq<i32> := [];
    for i := 0 to |splits|
      invariant ids == Ids(splits[..i])
    {
      assert splits[..i + 1][..i] == splits[..i];
      var parsed := Decimal.ParseI32(splits[i]);
      if parsed.Some? {
        ids := ids + [parsed.value];
      }
    }
    assert splits[..|splits|] == splits;
    var result := Cube(Fold(ids));
    text := Decimal.IntToString(result);
  }

  /** A path with no valid id gives 0. */
  lemma NoIdsZero(segments: seq<string>)
    requires forall i :: 0 <= i < |segments| ==> Decimal.ParseI32(segments[i]).None?
    ensures Ids(segments) == [] && Answer(segments) == 0
  {
    if segments != [] {
      NoIdsZero(segments[..|segments| - 1]);
    }
  }

  /** Swapping two runs of segments does not change the answer. */
  lemma SwapSegments(a: seq<string>, b: seq<string>)
    ensures Answer(a + b) == Answer(b + a)
  {
    IdsAppend(a, b);
    IdsAppend(b, a);
    FoldPermutation(Ids(a) + Ids(b), Ids(b) + Ids(a));
  }

  /** One id alone comes back cubed; an id given twice cancels out. */
  lemma SingleAndPair(x: i32, y: i32)
    ensures Fold([x]) == x
    ensures Fold([x, y, x]) == y
  {
    assert [x][..0] == [];
    XorLaws(0, x, 0);
    assert [x, y, x][..2] == [x, y];
    assert [x, y][..1] == [x];
    XorLaws(x, y, x);
    XorLaws(y, x, x);
    XorLaws(y, 0, 0);
  }
}
