/** Text helpers with Rust's `str` semantics: `split` on a character,
    `lines`, UTF-8 byte lengths and encoding, ASCII character classes. */
module Text {

  type byte = b: int | 0 <= b < 256

  /** `s.split(sep)`: every piece between separators, empty pieces included;
      the text without a separator is one piece. */
  function Split(s: string, sep: char): (parts: seq<string>)
    ensures |parts| >= 1
    ensures forall k :: 0 <= k < |parts| ==> sep !in parts[k]
  {
    if |s| == 0 then [""]
    else if s[0] == sep then [""] + Split(s[1..], sep)
    else
      var rest := Split(s[1..], sep);
      [[s[0]] + rest[0]] + rest[1..]
  }

  /** The inverse of `Split`: the pieces with one separator between each pair. */
  function Join(parts: seq<string>, sep: char): string
    requires |parts| >= 1
  {
    if |parts| == 1 then parts[0] else parts[0] + [sep] + Join(parts[1..], sep)
  }

  /** Joining the pieces of a split gives back the text. */
  lemma {:induction false} JoinSplit(s: string, sep: char)
    ensures Join(Split(s, sep), sep) == s
  {
    if |s| > 0 {
      JoinSplit(s[1..], sep);
      var rest := Split(s[1..], sep);
      if s[0] == sep {
        assert Split(s, sep)[1..] == rest;
      } else {
        var parts := Split(s, sep);
        if |rest| == 1 {
          assert parts == [[s[0]] + rest[0]];
        } else {
          assert parts[1..] == rest[1..];
          assert Join(rest, sep) == rest[0] + [sep] + Join(rest[1..], sep);
        }
      }
    }
  }

  /** Splitting a join of separator-free pieces gives back the pieces. */
  lemma {:induction false} SplitJoin(parts: seq<string>, sep: char)
    requires |parts| >= 1
    requires forall k :: 0 <= k < |parts| ==> sep !in parts[k]
    ensures Split(Join(parts, sep), sep) == parts
  {
    if |parts| == 1 {
      SplitPiece(parts[0], sep);
    } else {
      SplitJoin(parts[1..], sep);
      SplitPrefix(parts[0], sep, Join(parts[1..], sep));
      assert [parts[0]] + parts[1..] == parts;
    }
  }

  /** A separator-free text splits into itself. */
  lemma {:induction false} SplitPiece(p: string, sep: char)
    requires sep !in p
    ensures Split(p, sep) == [p]
  {
    if |p| > 0 {
      SplitPiece(p[1..], sep);
      assert [p[0]] + p[1..] == p;
    }
  }

  /** Splitting `p + [sep] + t` for a separator-free `p`. */
  lemma {:induction false} SplitPrefix(p: string, sep: char, t: string)
    requires sep !in p
    ensures Split(p + [sep] + t, sep) == [p] + Split(t, sep)
  {
    var s := p + [sep] + t;
    if |p| == 0 {
      assert s[1..] == t;
    } else {
      SplitPrefix(p[1..], sep, t);
      assert s[1..] == p[1..] + [sep] + t;
      assert [p[0]] + p[1..] == p;
    }
  }

  /** Drops one trailing carriage return, as `lines` does before a line feed. */
  function StripCR(line: string): (r: string)
    ensures r == line || line == r + ['\r']
  {
    if |line| > 0 && line[|line| - 1] == '\r' then line[..|line| - 1] else line
  }

  function StripAllCR(lines: seq<string>): (r: seq<string>)
    ensures |r| == |lines|
    ensures forall k :: 0 <= k < |r| ==> r[k] == StripCR(lines[k])
  {
    if lines == [] then [] else [StripCR(lines[0])] + StripAllCR(lines[1..])
  }

  /** `s.lines()`: the text split at line feeds; a line that ended with
      "\r\n" loses the carriage return; a final line feed does not start an
      extra empty line, so the empty text has no lines. */
  function Lines(s: string): (r: seq<string>)
    ensures forall k :: 0 <= k < |r| ==> '\n' !in r[k]
  {
    var parts := Split(s, '\n');
    var last := parts[|parts| - 1];
    StripAllCR(parts[..|parts| - 1]) + (if last == "" then [] else [last])
  }

  /** Lines joined back with line feeds give the text, when no line ends in
      a carriage return and the text does not end with a line feed. */
  lemma LinesPlain(s: string)
    requires '\r' !in s
    requires |s| > 0 && s[|s| - 1] != '\n'
    ensures |Lines(s)| >= 1 && Join(Lines(s), '\n') == s
  {
    var parts := Split(s, '\n');
    JoinSplit(s, '\n');
    NoCRInParts(s, '\n');
    var init := parts[..|parts| - 1];
    assert StripAllCR(init) == init by {
      forall k | 0 <= k < |init| ensures StripCR(init[k]) == init[k] {
        assert init[k] == parts[k];
        assert '\r' !in init[k];
      }
    }
    LastPartNonEmpty(s, '\n');
    assert Lines(s) == init + [parts[|parts| - 1]];
    assert Lines(s) == parts;
  }

  lemma {:induction false} NoCRInParts(s: string, sep: char)
    requires '\r' !in s
    ensures forall k :: 0 <= k < |Split(s, sep)| ==> '\r' !in Split(s, sep)[k]
  {
    if |s| > 0 {
      NoCRInParts(s[1..], sep);
    }
  }

  lemma {:induction false} LastPartNonEmpty(s: string, sep: char)
    requires |s| > 0 && s[|s| - 1] != sep
    ensures Split(s, sep)[|Split(s, sep)| - 1] != ""
  {
    if |s| > 1 {
      LastPartNonEmpty(s[1..], sep);
    }
  }

  /** The number of bytes `c` takes in UTF-8. */
  function CharWidth(c: char): (w: nat)
    ensures 1 <= w <= 4
    ensures (w == 1) == (c as int < 0x80)
  {
    if c as int < 0x80 then 1
    else if c as int < 0x800 then 2
    else if c as int < 0x1_0000 then 3
    else 4
  }

  /** `s.len()`: the length of `s` in UTF-8 bytes, not in characters. */
  function Utf8Len(s: string): (n: nat)
  {
    if s == [] then 0 else CharWidth(s[0]) + Utf8Len(s[1..])
  }

  predicate IsAscii(s: string) {
    forall i :: 0 <= i < |s| ==> s[i] as int < 0x80
  }

  /** The byte length is never below the character count, and equals it
      exactly for ASCII text. */
  lemma {:induction false} Utf8LenBounds(s: string)
    ensures |s| <= Utf8Len(s) <= 4 * |s|
    ensures Utf8Len(s) == |s| <==> IsAscii(s)
  {
    if s != [] {
      Utf8LenBounds(s[1..]);
      if IsAscii(s) {
        assert IsAscii(s[1..]) by {
          forall i | 0 <= i < |s| - 1 ensures s[1..][i] as int < 0x80 {
            assert s[1..][i] == s[i + 1];
          }
        }
      } else if Utf8Len(s) == |s| {
        assert CharWidth(s[0]) == 1;
        forall i | 0 <= i < |s| ensures s[i] as int < 0x80 {
          if i > 0 { assert s[i] == s[1..][i - 1]; }
        }
      }
    }
  }

  lemma {:induction false} Utf8LenAppend(s: string, t: string)
    ensures Utf8Len(s + t) == Utf8Len(s) + Utf8Len(t)
  {
    if s != [] {
      Utf8LenAppend(s[1..], t);
      assert (s + t)[1..] == s[1..] + t;
    } else {
      assert s + t == t;
    }
  }

  /** A byte that continues a multi-byte character (`0b10xx_xxxx`). */
  predicate IsContinuation(b: byte) {
    0x80 <= b < 0xC0
  }

  /** The UTF-8 encoding of one character: a leading byte, then continuation
      bytes carrying six bits each. */
  function EncodeChar(c: char): (bs: seq<byte>)
    ensures |bs| == CharWidth(c)
    ensures !IsContinuation(bs[0])
    ensures forall k :: 1 <= k < |bs| ==> IsContinuation(bs[k])
  {
    var n := c as int;
    if n < 0x80 then [n]
    else if n < 0x800 then [0xC0 + n / 0x40, 0x80 + n % 0x40]
    else if n < 0x1_0000 then [0xE0 + n / 0x1000, 0x80 + (n / 0x40) % 0x40, 0x80 + n % 0x40]
    else [0xF0 + n / 0x4_0000, 0x80 + (n / 0x1000) % 0x40, 0x80 + (n / 0x40) % 0x40, 0x80 + n % 0x40]
  }

  /** The bytes of a Rust `String` holding `s`. */
  function Encode(s: string): (bs: seq<byte>)
    ensures |bs| == Utf8Len(s)
  {
    if s == [] then [] else EncodeChar(s[0]) + Encode(s[1..])
  }

  /** The bytes of an ASCII literal. */
  function AsciiBytes(s: string): (bs: seq<byte>)
    requires IsAscii(s)
    ensures |bs| == |s|
    ensures forall k :: 0 <= k < |s| ==> bs[k] == s[k] as int
  {
    if s == [] then [] else [s[0] as int] + AsciiBytes(s[1..])
  }

  // ASCII character classes. Rust's `char::is_alphabetic` and
  // `char::is_numeric` follow the Unicode tables; this model classifies only
  // ASCII characters as letters or digits.

  predicate IsAsciiDigit(c: char) { '0' <= c <= '9' }
  predicate IsAsciiLower(c: char) { 'a' <= c <= 'z' }
  predicate IsAsciiUpper(c: char) { 'A' <= c <= 'Z' }
  predicate IsAlphabetic(c: char) { IsAsciiLower(c) || IsAsciiUpper(c) }
  predicate IsNumeric(c: char) { IsAsciiDigit(c) }

  /** `s.chars().filter(p).count()`. */
  function CountChars(s: string, p: char -> bool): (n: nat)
    ensures n <= |s|
  {
    if s == [] then 0
    else CountChars(s[..|s| - 1], p) + (if p(s[|s| - 1]) then 1 else 0)
  }

  /** The positions of `s` whose character satisfies `p`. */
  function Positions(s: string, p: char -> bool): set<nat> {
    set i: nat | i < |s| && p(s[i])
  }

  /** The filter-and-count equals the number of matching positions. */
  lemma {:induction false} CountCharsPositions(s: string, p: char -> bool)
    ensures CountChars(s, p) == |Positions(s, p)|
  {
    if s != [] {
      var init := s[..|s| - 1];
      CountCharsPositions(init, p);
      var last: set<nat> := if p(s[|s| - 1]) then {|s| - 1} else {};
      assert Positions(s, p) == Positions(init, p) + last by {
        forall i: nat | i in Positions(s, p) ensures i in Positions(init, p) + last {
          if i < |s| - 1 { assert init[i] == s[i]; }
        }
      }
      assert Positions(init, p) !! last;
    } else {
      assert Positions(s, p) == {};
    }
  }

  /** `s.chars().filter(p).collect::<String>()`. */
  function FilterChars(s: string, p: char -> bool): (r: string)
    ensures |r| == CountChars(s, p)
    ensures forall k :: 0 <= k < |r| ==> p(r[k])
  {
    if s == [] then []
    else FilterChars(s[..|s| - 1], p) + (if p(s[|s| - 1]) then [s[|s| - 1]] else [])
  }

  /** `s.contains(t)` for a pattern of two characters. */
  predicate ContainsPair(s: string, a: char, b: char) {
    exists i :: 0 <= i < |s| - 1 && s[i] == a && s[i + 1] == b
  }

  /** Some character satisfies `p` exactly when the filtered count is positive. */
  lemma AnyCharCount(s: string, p: char -> bool)
    ensures (exists i :: 0 <= i < |s| && p(s[i])) <==> CountChars(s, p) > 0
  {
    CountCharsPositions(s, p);
    if exists i :: 0 <= i < |s| && p(s[i]) {
      var i :| 0 <= i < |s| && p(s[i]);
      assert i in Positions(s, p);
    } else {
      assert Positions(s, p) == {};
    }
  }

  /** `ContainsPair` holds exactly when the two characters occur side by side
      somewhere, that is, when `[a, b]` is a substring. */
  lemma ContainsPairSubstring(s: string, a: char, b: char)
    ensures ContainsPair(s, a, b) <==> exists u, v :: s == u + [a, b] + v
  {
    if ContainsPair(s, a, b) {
      var i :| 0 <= i < |s| - 1 && s[i] == a && s[i + 1] == b;
      assert s == s[..i] + [a, b] + s[i + 2..];
    }
    if exists u, v :: s == u + [a, b] + v {
      var u, v :| s == u + [a, b] + v;
      assert s[|u|] == a && s[|u| + 1] == b;
    }
  }

  /** Filtering distributes over concatenation. */
  lemma {:induction false} FilterCharsAppend(s: string, t: string, p: char -> bool)
    ensures FilterChars(s + t, p) == FilterChars(s, p) + FilterChars(t, p)
  {
    if t == [] {
      assert s + t == s;
    } else {
      var t' := t[..|t| - 1];
      FilterCharsAppend(s, t', p);
      assert (s + t)[..|s + t| - 1] == s + t';
      assert (s + t)[|s + t| - 1] == t[|t| - 1];
    }
  }

  /** The filter of a single character. */
  lemma FilterCharsOne(c: char, p: char -> bool)
    ensures FilterChars([c], p) == if p(c) then [c] else []
  {
    assert [c][..0] == [];
  }

  /** A text none of whose characters satisfies `p` filters to nothing. */
  lemma {:induction false} FilterCharsNone(s: string, p: char -> bool)
    requires forall i :: 0 <= i < |s| ==> !p(s[i])
    ensures FilterChars(s, p) == []
  {
    if s != [] {
      FilterCharsNone(s[..|s| - 1], p);
    }
  }
}
