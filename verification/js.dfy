/** The JavaScript primitives the controller and the schemas lean on:
    `String.prototype.trim`, `String.prototype.split` on one character,
    `parseInt` without a radix, the `length` of a string (UTF-16 code units),
    and the truthiness of an optional string. */
module Js {
  import opened Common

  /** The characters `trim` and `parseInt` skip: the WhiteSpace and
      LineTerminator code points of ECMA-262. */
  const SpaceChars: set<char> := {
    ' ', '\t', '\n', '\r', '\U{B}', '\U{C}', '\U{A0}', '\U{1680}',
    '\U{2028}', '\U{2029}', '\U{202F}', '\U{205F}', '\U{3000}', '\U{FEFF}'
  }

  predicate IsSpace(c: char) {
    c in SpaceChars || '\U{2000}' <= c <= '\U{200A}'
  }

  ghost predicate AllSpace(s: string) {
    forall k :: 0 <= k < |s| ==> IsSpace(s[k])
  }

  /** `undefined` and `''` are falsy; every other string is truthy. */
  predicate Truthy(o: Option<string>) {
    o.Some? && |o.value| > 0
  }

  /** `o || fallback` for a string-valued field. */
  function Or(o: Option<string>, fallback: string): (r: string)
    ensures Truthy(o) ==> r == o.value
    ensures !Truthy(o) ==> r == fallback
  {
    if Truthy(o) then o.value else fallback
  }

  // ---------------------------------------------------------------- trim

  function LeadingSpaces(s: string): (n: nat)
    ensures n <= |s|
    ensures forall k :: 0 <= k < n ==> IsSpace(s[k])
    ensures n < |s| ==> !IsSpace(s[n])
  {
    if |s| == 0 || !IsSpace(s[0]) then 0 else 1 + LeadingSpaces(s[1..])
  }

  function TrailingSpaces(s: string): (n: nat)
    ensures n <= |s|
    ensures forall k :: |s| - n <= k < |s| ==> IsSpace(s[k])
    ensures n < |s| ==> !IsSpace(s[|s| - n - 1])
  {
    if |s| == 0 || !IsSpace(s[|s| - 1]) then 0 else 1 + TrailingSpaces(s[..|s| - 1])
  }

  /** `r` is what trimming `s` must give: a slice of `s` with only white
      space around it and no white space at either of its ends. */
  ghost predicate IsTrimOf(r: string, s: string) {
    exists i, j | 0 <= i <= j <= |s| ::
      && r == s[i..j]
      && AllSpace(s[..i])
      && AllSpace(s[j..])
      && (|r| > 0 ==> !IsSpace(r[0]) && !IsSpace(r[|r| - 1]))
  }

  function Trim(s: string): (r: string)
    ensures IsTrimOf(r, s)
  {
    var i := LeadingSpaces(s);
    var j := |s| - TrailingSpaces(s[i..]);
    var r := s[i..j];
    assert AllSpace(s[..i]) && AllSpace(s[j..]);
    assert 0 <= i <= j <= |s| && r == s[i..j];
    r
  }

  lemma SpacesAround(s: string, i: nat, j: nat)
    requires i <= j <= |s| && AllSpace(s[..i]) && AllSpace(s[j..])
    ensures forall k :: 0 <= k < i ==> IsSpace(s[k])
    ensures forall k :: j <= k < |s| ==> IsSpace(s[k])
  {
    forall k | 0 <= k < i ensures IsSpace(s[k]) { assert s[..i][k] == s[k]; }
    forall k | j <= k < |s| ensures IsSpace(s[k]) { assert s[j..][k - j] == s[k]; }
  }

  /** A non-empty slice with no white space at its ends lies inside any
      bounds that have only white space outside them. */
  lemma SliceInside(s: string, i1: nat, j1: nat, i2: nat, j2: nat)
    requires i1 < j1 <= |s| && i2 <= j2 <= |s|
    requires !IsSpace(s[i1]) && !IsSpace(s[j1 - 1])
    requires forall k :: 0 <= k < i2 ==> IsSpace(s[k])
    requires forall k :: j2 <= k < |s| ==> IsSpace(s[k])
    ensures i2 <= i1 && j1 <= j2
  {
  }

  /** The slice bounds `IsTrimOf` promises. */
  lemma TrimWitness(r: string, s: string) returns (i: nat, j: nat)
    requires IsTrimOf(r, s)
    ensures i <= j <= |s| && r == s[i..j] && AllSpace(s[..i]) && AllSpace(s[j..])
    ensures |r| > 0 ==> !IsSpace(r[0]) && !IsSpace(r[|r| - 1])
  {
    i, j :| 0 <= i <= j <= |s| && r == s[i..j] && AllSpace(s[..i]) && AllSpace(s[j..])
      && (|r| > 0 ==> !IsSpace(r[0]) && !IsSpace(r[|r| - 1]));
  }

  /** Trimming has one answer: the slice `IsTrimOf` describes is unique. */
  lemma TrimUnique(r1: string, r2: string, s: string)
    requires IsTrimOf(r1, s) && IsTrimOf(r2, s)
    ensures r1 == r2
  {
    var i1, j1 := TrimWitness(r1, s);
    var i2, j2 := TrimWitness(r2, s);
    SpacesAround(s, i1, j1);
    SpacesAround(s, i2, j2);
    if |r1| > 0 {
      assert !IsSpace(s[i1]) && !IsSpace(s[j1 - 1]) by {
        assert r1[0] == s[i1] && r1[|r1| - 1] == s[j1 - 1];
      }
      SliceInside(s, i1, j1, i2, j2);
    }
    if |r2| > 0 {
      assert !IsSpace(s[i2]) && !IsSpace(s[j2 - 1]) by {
        assert r2[0] == s[i2] && r2[|r2| - 1] == s[j2 - 1];
      }
      SliceInside(s, i2, j2, i1, j1);
    }
  }

  lemma TrimIdempotent(s: string)
    ensures Trim(Trim(s)) == Trim(s)
  {
    var r := Trim(s);
    assert IsTrimOf(r, r) by {
      assert r == r[0..|r|] && AllSpace(r[..0]) && AllSpace(r[|r|..]);
    }
    TrimUnique(Trim(r), r, r);
  }

  /** A string with no white space at either end is its own trim. */
  lemma TrimOfTrimmed(s: string)
    requires |s| > 0 ==> !IsSpace(s[0]) && !IsSpace(s[|s| - 1])
    ensures Trim(s) == s
  {
    assert IsTrimOf(s, s) by {
      assert s == s[0..|s|] && AllSpace(s[..0]) && AllSpace(s[|s|..]);
    }
    TrimUnique(Trim(s), s, s);
  }

  // ---------------------------------------------------------------- split

  /** The inverse of `split`: the pieces glued back with the separator. */
  function Join(parts: seq<string>, sep: char): string
    requires |parts| >= 1
  {
    if |parts| == 1 then parts[0] else parts[0] + [sep] + Join(parts[1..], sep)
  }

  /** `s.split(sep)` for a one-character separator: never empty, and an empty
      piece wherever two separators meet or one stands at an end. */
  function Split(s: string, sep: char): (parts: seq<string>)
    ensures |parts| >= 1
    ensures forall k :: 0 <= k < |parts| ==> sep !in parts[k]
    ensures Join(parts, sep) == s
    decreases |s|
  {
    if |s| == 0 then [""]
    else if s[0] == sep then [""] + Split(s[1..], sep)
    else
      var rest := Split(s[1..], sep);
      var parts := [[s[0]] + rest[0]] + rest[1..];
      assert parts[1..] == rest[1..];
      parts
  }

  /** Splitting what `Join` glued gives the pieces back, as long as no piece
      holds the separator. */
  lemma {:induction false} SplitJoin(parts: seq<string>, sep: char)
    requires |parts| >= 1
    requires forall k :: 0 <= k < |parts| ==> sep !in parts[k]
    ensures Split(Join(parts, sep), sep) == parts
    decreases |parts|, |parts[0]|
  {
    if parts[0] == [] {
      if |parts| > 1 {
        assert Join(parts, sep) == [sep] + Join(parts[1..], sep);
        SplitJoin(parts[1..], sep);
        assert [""] + parts[1..] == parts;
      }
    } else {
      var c, w := parts[0][0], parts[0][1..];
      var shorter := [w] + parts[1..];
      assert c != sep by { assert c == parts[0][0]; }
      assert forall k :: 0 <= k < |shorter| ==> sep !in shorter[k] by {
        forall k | 0 <= k < |shorter| ensures sep !in shorter[k] {
          if k == 0 {
            assert forall x :: x in w ==> x in parts[0];
          } else {
            assert shorter[k] == parts[k];
          }
        }
      }
      assert Join(parts, sep) == [c] + Join(shorter, sep) by {
        assert parts[0] == [c] + w;
        if |parts| > 1 {
          assert shorter[1..] == parts[1..];
        }
      }
      SplitJoin(shorter, sep);
      var j := Join(shorter, sep);
      var t := [c] + j;
      assert t[0] == c && t[1..] == j;
      assert Split(t, sep) == [[c] + shorter[0]] + shorter[1..];
      assert shorter[0] == w && shorter[1..] == parts[1..];
      ConsHead(parts, [c] + w);
    }
  }

  lemma ConsHead<T>(s: seq<T>, x: T)
    requires |s| >= 1 && s[0] == x
    ensures [x] + s[1..] == s
  {
    assert forall k :: 0 <= k < |s| ==> ([x] + s[1..])[k] == s[k];
  }

  // ---------------------------------------------------------------- length

  /** `s.length` in JavaScript: UTF-16 code units, two for every character
      outside the Basic Multilingual Plane. */
  function Utf16Length(s: string): (n: nat)
    ensures |s| <= n <= 2 * |s|
    ensures (forall k :: 0 <= k < |s| ==> s[k] as int <= 0xFFFF) ==> n == |s|
    ensures |s| == 1 ==> n == CodeUnits(s[0])
  {
    if |s| == 0 then 0
    else Utf16Length(s[1..]) + CodeUnits(s[0])
  }

  /** The UTF-16 code units of one character. */
  function CodeUnits(c: char): nat {
    if c as int > 0xFFFF then 2 else 1
  }

  /** The length of a concatenation is the sum of the lengths, so each
      character adds its own code units wherever it stands. */
  lemma {:induction false} Utf16LengthConcat(a: string, b: string)
    ensures Utf16Length(a + b) == Utf16Length(a) + Utf16Length(b)
  {
    if |a| > 0 {
      assert (a + b)[0] == a[0] && (a + b)[1..] == a[1..] + b;
      Utf16LengthConcat(a[1..], b);
    } else {
      assert a + b == b;
    }
  }

  /** `"a\u{1F600}".length` is 3: the emoji takes a surrogate pair. */
  lemma EmojiCountsTwo()
    ensures Utf16Length("a\U{1F600}") == 3
  {
    Utf16LengthConcat("a", "\U{1F600}");
  }

  // ---------------------------------------------------------------- parseInt

  /** A JavaScript number as `parseInt` produces it: an integer, or NaN. */
  datatype Number = NaN | Num(value: int)

  /** Value of `c` as a digit of base 36: `0`-`9`, then the letters in either
      case; 36 for every other character. */
  function DigitValue(c: char): nat {
    if '0' <= c <= '9' then c as nat - '0' as nat
    else if 'a' <= c <= 'z' then c as nat - 'a' as nat + 10
    else if 'A' <= c <= 'Z' then c as nat - 'A' as nat + 10
    else 36
  }

  /** Length of the longest prefix of `s` made of digits of `radix`. */
  function DigitRun(s: string, radix: nat): (n: nat)
    ensures n <= |s|
    ensures forall k :: 0 <= k < n ==> DigitValue(s[k]) < radix
    ensures n < |s| ==> DigitValue(s[n]) >= radix
  {
    if |s| == 0 || DigitValue(s[0]) >= radix then 0 else 1 + DigitRun(s[1..], radix)
  }

  /** The number a digit string denotes in `radix`, most significant first. */
  function ValueOf(d: string, radix: nat): nat {
    if |d| == 0 then 0 else ValueOf(d[..|d| - 1], radix) * radix + DigitValue(d[|d| - 1])
  }

  /** `parseInt` after the sign: base 16 after a `0x`/`0X` prefix and base
      10 otherwise, up to the first non-digit; NaN when no digit was read. */
  function ParseUnsigned(u: string): Number {
    var hex := |u| >= 2 && u[0] == '0' && (u[1] == 'x' || u[1] == 'X');
    var radix := if hex then 16 else 10;
    var w := if hex then u[2..] else u;
    var n := DigitRun(w, radix);
    if n == 0 then NaN else Num(ValueOf(w[..n], radix))
  }

  function Negate(x: Number): Number {
    match x
    case NaN => NaN
    case Num(v) => Num(-v)
  }

  /** `parseInt(s)` with no radix: skip leading white space, take one sign,
      then read digits as `ParseUnsigned` does. */
  function ParseInt(s: string): Number {
    var t := s[LeadingSpaces(s)..];
    if |t| > 0 && t[0] == '-' then Negate(ParseUnsigned(t[1..]))
    else if |t| > 0 && t[0] == '+' then ParseUnsigned(t[1..])
    else ParseUnsigned(t)
  }

  function DigitChar(d: nat): (c: char)
    requires d < 10
    ensures '0' <= c <= '9' && DigitValue(c) == d
  {
    ('0' as int + d) as char
  }

  /** The decimal text of a natural number, without leading zeros. */
  function NatString(n: nat): (s: string)
    ensures |s| >= 1
    ensures forall k :: 0 <= k < |s| ==> '0' <= s[k] <= '9'
    ensures s[0] == '0' ==> n == 0
  {
    if n < 10 then [DigitChar(n)] else NatString(n / 10) + [DigitChar(n % 10)]
  }

  /** `String(n)` for an integer `n`. */
  function IntString(n: int): string {
    if n < 0 then "-" + NatString(-n) else NatString(n)
  }

  lemma {:induction false} ValueOfNatString(n: nat)
    ensures ValueOf(NatString(n), 10) == n
  {
    if n >= 10 {
      var s := NatString(n);
      assert s[..|s| - 1] == NatString(n / 10);
      ValueOfNatString(n / 10);
    }
  }

  lemma {:induction false} DigitRunOfDigits(d: string, tail: string, radix: nat)
    requires forall k :: 0 <= k < |d| ==> DigitValue(d[k]) < radix
    requires tail == [] || DigitValue(tail[0]) >= radix
    decreases |d|
    ensures DigitRun(d + tail, radix) == |d|
  {
    if |d| > 0 {
      assert (d + tail)[1..] == d[1..] + tail;
      DigitRunOfDigits(d[1..], tail, radix);
    }
  }

  lemma {:induction false} LeadingSpacesOfPadded(pad: string, s: string)
    requires AllSpace(pad)
    requires |s| > 0 && !IsSpace(s[0])
    ensures LeadingSpaces(pad + s) == |pad|
  {
    if |pad| > 0 {
      assert (pad + s)[1..] == pad[1..] + s;
      LeadingSpacesOfPadded(pad[1..], s);
    }
  }

  lemma ParseUnsignedOfNatString(m: nat, tail: string)
    requires tail == [] || (DigitValue(tail[0]) >= 10 && tail[0] != 'x' && tail[0] != 'X')
    ensures ParseUnsigned(NatString(m) + tail) == Num(m)
  {
    var digits := NatString(m);
    var u := digits + tail;
    assert !(|u| >= 2 && u[0] == '0' && (u[1] == 'x' || u[1] == 'X')) by {
      if |u| >= 2 && u[0] == '0' {
        assert digits[0] == '0';
        assert |digits| == 1;
        assert u[1] == tail[0];
      }
    }
    DigitRunOfDigits(digits, tail, 10);
    assert u[..|digits|] == digits;
    ValueOfNatString(m);
  }

  /** White space before the number does not change what `parseInt` reads. */
  lemma ParseIntAfterPad(pad: string, t: string)
    requires AllSpace(pad)
    requires |t| > 0 && !IsSpace(t[0])
    ensures ParseInt(pad + t) == ParseInt(t)
  {
    LeadingSpacesOfPadded(pad, t);
    assert (pad + t)[|pad|..] == t;
    assert LeadingSpaces(t) == 0;
    assert t[0..] == t;
  }

  /** Without leading white space, `parseInt` reads the sign, if any, and
      then the digits. */
  lemma ParseIntUnpadded(t: string)
    requires |t| > 0 && !IsSpace(t[0])
    ensures ParseInt(t) ==
      if t[0] == '-' then Negate(ParseUnsigned(t[1..]))
      else if t[0] == '+' then ParseUnsigned(t[1..])
      else ParseUnsigned(t)
  {
    assert LeadingSpaces(t) == 0;
    assert t[0..] == t;
  }

  lemma DropSign(sign: string, a: string, b: string)
    requires |sign| == 1
    ensures (sign + a + b)[1..] == a + b
  {
  }

  lemma ParseIntOfSigned(sign: string, m: nat, tail: string)
    requires sign == "-" || sign == "+"
    requires tail == [] || (DigitValue(tail[0]) >= 10 && tail[0] != 'x' && tail[0] != 'X')
    ensures ParseInt(sign + NatString(m) + tail) == if sign == "-" then Num(0 - m as int) else Num(m)
  {
    var t := sign + NatString(m) + tail;
    assert t[0] == sign[0];
    ParseIntUnpadded(t);
    DropSign(sign, NatString(m), tail);
    ParseUnsignedOfNatString(m, tail);
  }

  lemma ParseIntOfUnsigned(m: nat, tail: string)
    requires tail == [] || (DigitValue(tail[0]) >= 10 && tail[0] != 'x' && tail[0] != 'X')
    ensures ParseInt(NatString(m) + tail) == Num(m)
  {
    var t := NatString(m) + tail;
    assert t[0] == NatString(m)[0];
    assert LeadingSpaces(t) == 0;
    assert t[0..] == t;
    ParseUnsignedOfNatString(m, tail);
  }

  lemma ParseIntOfIntStringUnpadded(n: int, tail: string)
    requires tail == [] || (DigitValue(tail[0]) >= 10 && tail[0] != 'x' && tail[0] != 'X')
    ensures ParseInt(IntString(n) + tail) == Num(n)
  {
    if n < 0 {
      ParseIntOfSigned("-", -n, tail);
    } else {
      ParseIntOfUnsigned(n, tail);
    }
  }

  /** A printed integer starts with a sign or a digit, never white space. */
  lemma PrintedStartsNonSpace(n: int, tail: string)
    ensures |IntString(n) + tail| > 0 && !IsSpace((IntString(n) + tail)[0])
  {
    var printed := IntString(n) + tail;
    if n < 0 {
      assert printed[0] == '-';
    } else {
      assert printed[0] == NatString(n)[0];
    }
  }

  /** `parseInt` reads back what `String(n)` printed, whatever white space
      comes before it and whatever non-digit text comes after it. */
  lemma ParseIntOfIntString(pad: string, n: int, tail: string)
    requires AllSpace(pad)
    requires tail == [] || (DigitValue(tail[0]) >= 10 && tail[0] != 'x' && tail[0] != 'X')
    ensures ParseInt(pad + IntString(n) + tail) == Num(n)
  {
    var printed := IntString(n) + tail;
    assert pad + IntString(n) + tail == pad + printed;
    calc {
      ParseInt(pad + printed);
      { PrintedStartsNonSpace(n, tail);
        ParseIntAfterPad(pad, printed); }
      ParseInt(printed);
      { ParseIntOfIntStringUnpadded(n, tail); }
      Num(n);
    }
  }
}
