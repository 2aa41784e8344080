/** The day-6 elf counter: overlapping occurrences of "elf", "elf on a shelf"
    and "shelf" in a text, counted over the text's UTF-8 bytes. */
module Elves {
  import opened Wrappers
  import opened Text

  /** `haystack[i..].starts_with(needle)`, once the slice exists. */
  predicate Match(needle: seq<byte>, haystack: seq<byte>, i: nat) {
    i + |needle| <= |haystack| && haystack[i..i + |needle|] == needle
  }

  /** The number of start indices below `k` where the needle occurs. */
  function MatchCount(needle: seq<byte>, haystack: seq<byte>, k: nat): (n: nat)
    ensures n <= k
  {
    if k == 0 then 0
    else MatchCount(needle, haystack, k - 1) + (if Match(needle, haystack, k - 1) then 1 else 0)
  }

  /** Slicing a `str` at byte `i` panics unless `i` starts a character, so
      every index the loop slices at must not hold a continuation byte. */
  predicate Boundaries(haystack: seq<byte>, k: nat) {
    forall j :: 0 <= j < k && j < |haystack| ==> !IsContinuation(haystack[j])
  }

  /** What `count_occurrences` returns: nothing is counted unless the
      haystack is strictly longer than the needle; otherwise every start
      index from 0 to h - n is tried, overlaps included, and the first slice
      inside a character panics. */
  function Occurrences(needle: seq<byte>, haystack: seq<byte>): Outcome<nat> {
    if |haystack| > |needle| then
      var last := |haystack| - |needle|;
      if Boundaries(haystack, last + 1) then Done(MatchCount(needle, haystack, last + 1)) else Panic
    else Done(0)
  }

  /** `count_occurrences`. */
  method CountOccurrences(needle: seq<byte>, haystack: seq<byte>) returns (r: Outcome<nat>)
    ensures r == Occurrences(needle, haystack)
  {
    var count := 0;
    if |haystack| > |needle| {
      for i := 0 to |haystack| - |needle| + 1
        invariant count == MatchCount(needle, haystack, i)
        invariant Boundaries(haystack, i)
      {
        if i < |haystack| && IsContinuation(haystack[i]) {
          return Panic;
        }
        if haystack[i..][..|needle|] == needle {
          assert haystack[i..][..|needle|] == haystack[i..i + |needle|];
          count := count + 1;
        } else {
          assert haystack[i..][..|needle|] == haystack[i..i + |needle|];
        }
      }
    }
    return Done(count);
  }

  /** A count is at most the number of start indices tried. */
  lemma OccurrencesBound(needle: seq<byte>, haystack: seq<byte>)
    requires Occurrences(needle, haystack).Done?
    ensures |haystack| > |needle| ==> Occurrences(needle, haystack).value <= |haystack| - |needle| + 1
    ensures |haystack| <= |needle| ==> Occurrences(needle, haystack).value == 0
  {
  }

  /** The strict comparison: a text that is exactly the needle counts 0. */
  lemma WholeTextNotCounted(needle: seq<byte>)
    ensures Match(needle, needle, 0)
    ensures Occurrences(needle, needle) == Done(0)
  {
    assert needle[0..|needle|] == needle;
  }

  /** Every occurrence of a needle holds an occurrence of each of its
      infixes, shifted by the length of what precedes it. */
  lemma MatchInfix(pre: seq<byte>, sub: seq<byte>, post: seq<byte>, haystack: seq<byte>, i: nat)
    requires Match(pre + sub + post, haystack, i)
    ensures Match(sub, haystack, i + |pre|)
  {
    var n := pre + sub + post;
    var at := i + |pre|;
    forall j | 0 <= j < |sub| ensures haystack[at..at + |sub|][j] == sub[j] {
      assert haystack[i..i + |n|][|pre| + j] == n[|pre| + j];
    }
  }

  lemma {:induction false} MatchCountInfix(pre: seq<byte>, sub: seq<byte>, post: seq<byte>, haystack: seq<byte>, k: nat)
    ensures MatchCount(pre + sub + post, haystack, k) <= MatchCount(sub, haystack, k + |pre|)
  {
    if k > 0 {
      var j := k - 1;
      MatchCountInfix(pre, sub, post, haystack, j);
      MatchCountNext(pre + sub + post, haystack, j);
      MatchCountNext(sub, haystack, j + |pre|);
      if Match(pre + sub + post, haystack, j) {
        MatchInfix(pre, sub, post, haystack, j);
      }
    }
  }

  lemma MatchCountNext(needle: seq<byte>, haystack: seq<byte>, k: nat)
    ensures MatchCount(needle, haystack, k + 1)
         == MatchCount(needle, haystack, k) + (if Match(needle, haystack, k) then 1 else 0)
  {
  }

  lemma {:induction false} MatchCountMonotone(needle: seq<byte>, haystack: seq<byte>, a: nat, b: nat)
    requires a <= b
    ensures MatchCount(needle, haystack, a) <= MatchCount(needle, haystack, b)
  {
    if a < b {
      MatchCountMonotone(needle, haystack, a, b - 1);
    }
  }

  /** A needle never occurs more often than one of its infixes, and a text
      on which counting the needle panics makes counting the infix panic. */
  lemma {:induction false} InfixCountsMore(pre: seq<byte>, sub: seq<byte>, post: seq<byte>, haystack: seq<byte>)
    requires Occurrences(sub, haystack).Done?
    ensures Occurrences(pre + sub + post, haystack).Done?
    ensures Occurrences(pre + sub + post, haystack).value <= Occurrences(sub, haystack).value
  {
    var n := pre + sub + post;
    if |haystack| > |n| {
      var k := |haystack| - |n| + 1;
      assert Boundaries(haystack, k);
      MatchCountInfix(pre, sub, post, haystack, k);
      MatchCountMonotone(sub, haystack, k + |pre|, |haystack| - |sub| + 1);
    }
  }

  /** The text of a valid UTF-8 string never has a continuation byte where
      a character starts, so ASCII text never panics. */
  lemma {:induction false} AsciiNoContinuation(s: string)
    requires IsAscii(s)
    ensures forall k :: 0 <= k < |Encode(s)| ==> Encode(s)[k] < 0x80
  {
    if s != [] {
      assert IsAscii(s[1..]) by {
        forall i | 0 <= i < |s[1..]| ensures s[1..][i] as int < 0x80 {
          assert s[1..][i] == s[i + 1];
        }
      }
      AsciiNoContinuation(s[1..]);
      assert Encode(s) == [s[0] as int] + Encode(s[1..]);
    }
  }

  lemma AsciiNeverPanics(needle: seq<byte>, s: string)
    requires IsAscii(s)
    ensures Occurrences(needle, Encode(s)).Done?
  {
    AsciiNoContinuation(s);
  }

  // ------------------------------------------------------------ response

  const ELF: seq<byte> := AsciiBytes("elf")
  const ON_A: seq<byte> := AsciiBytes(" on a ")
  const SHELF: seq<byte> := AsciiBytes("shelf")
  /** "elf on a shelf", written as its three parts. */
  const ELF_ON_A_SHELF: seq<byte> := ELF + ON_A + SHELF

  datatype CountElvesResponse = CountElvesResponse(elf: nat, elfOnAShelf: nat, shelfWithNoElfOnIt: nat)

  lemma NeedleParts()
    ensures ELF_ON_A_SHELF == [] + ELF + (ON_A + SHELF)
    ensures ELF_ON_A_SHELF == (ELF + ON_A) + SHELF + []
  {
    assert [] + ELF + (ON_A + SHELF) == ELF + ON_A + SHELF;
    assert (ELF + ON_A) + SHELF + [] == ELF + ON_A + SHELF;
  }

  /** `CountElvesResponse::from`: the three counts, the first panic ending
      the request, and the difference of the last two. */
  method CountElves(text: string) returns (r: Outcome<CountElvesResponse>)
    ensures r.Done? <==> Occurrences(ELF, Encode(text)).Done? && Occurrences(SHELF, Encode(text)).Done?
    ensures r.Done? ==> (
      && r.value.elf == Occurrences(ELF, Encode(text)).value
      && r.value.elfOnAShelf == Occurrences(ELF_ON_A_SHELF, Encode(text)).value
      && r.value.shelfWithNoElfOnIt
        == Occurrences(SHELF, Encode(text)).value - Occurrences(ELF_ON_A_SHELF, Encode(text)).value)
  {
    var bytes := Encode(text);
    NeedleParts();
    var elf := CountOccurrences(ELF, bytes);
    if elf.Panic? {
      return Panic;
    }
    InfixCountsMore([], ELF, ON_A + SHELF, bytes);
    var both := CountOccurrences(ELF_ON_A_SHELF, bytes);
    var shelf := CountOccurrences(SHELF, bytes);
    if shelf.Panic? {
      return Panic;
    }
    InfixCountsMore(ELF + ON_A, SHELF, [], bytes);
    // The `usize` subtraction: proved never to go below zero.
    var rest: nat := shelf.value - both.value;
    return Done(CountElvesResponse(elf.value, both.value, rest));
  }

  /** Neither count of the two shorter needles is below the count of the
      whole phrase, so the subtraction never underflows. */
  lemma ElfCountsOrdered(text: string)
    requires Occurrences(ELF, Encode(text)).Done? && Occurrences(SHELF, Encode(text)).Done?
    ensures Occurrences(ELF_ON_A_SHELF, Encode(text)).Done?
    ensures Occurrences(ELF_ON_A_SHELF, Encode(text)).value <= Occurrences(ELF, Encode(text)).value
    ensures Occurrences(ELF_ON_A_SHELF, Encode(text)).value <= Occurrences(SHELF, Encode(text)).value
  {
    NeedleParts();
    InfixCountsMore([], ELF, ON_A + SHELF, Encode(text));
    InfixCountsMore(ELF + ON_A, SHELF, [], Encode(text));
  }
}
