/**
 * The pieces of Go's standard library that the dialog wrappers rely on,
 * modelled after their documented behaviour: strings.TrimSpace (with
 * unicode.IsSpace), strings.Split and strings.Join with a one-rune
 * separator, the %d verb of fmt.Sprintf, and strconv.Atoi on a 64-bit
 * platform. A Go string is modelled as the sequence of its runes.
 */
module GoStrings {
  import opened Wrappers

  const Int64Min: int := -0x8000_0000_0000_0000
  const Int64Max: int := 0x7FFF_FFFF_FFFF_FFFF

  /** Go's `int` on a 64-bit platform. */
  type GoInt = x: int | Int64Min <= x <= Int64Max

  // ---------------------------------------------------------------------
  // White space and strings.TrimSpace
  // ---------------------------------------------------------------------

  /** unicode.IsSpace: the Latin-1 spaces plus the White_Space runes above U+00FF. */
  predicate IsSpace(c: char) {
    var n := c as int;
    (9 <= n <= 13) || n == 32 || n == 0x85 || n == 0xA0 || n == 0x1680
    || (0x2000 <= n <= 0x200A) || n == 0x2028 || n == 0x2029 || n == 0x202F
    || n == 0x205F || n == 0x3000
  }

  predicate AllSpace(s: string) {
    forall i :: 0 <= i < |s| ==> IsSpace(s[i])
  }

  lemma AllSpaceCons(c: char, t: string)
    requires IsSpace(c) && AllSpace(t)
    ensures AllSpace([c] + t)
  {
    var s := [c] + t;
    assert forall i :: 1 <= i < |s| ==> s[i] == t[i - 1];
  }

  /** Neither end of `s` is white space. */
  predicate Trimmed(s: string) {
    s == [] || (!IsSpace(s[0]) && !IsSpace(s[|s| - 1]))
  }

  /** Drops the leading white space: what is dropped is all space, and what is kept starts with a non-space. */
  function TrimLeft(s: string): (r: string)
    ensures |r| <= |s| && r == s[|s| - |r|..]
    ensures AllSpace(s[..|s| - |r|])
    ensures r == [] || !IsSpace(r[0])
  {
    if s != [] && IsSpace(s[0]) then
      var r := TrimLeft(s[1..]);
      assert s[..|s| - |r|] == [s[0]] + s[1..][..|s| - 1 - |r|];
      AllSpaceCons(s[0], s[1..][..|s| - 1 - |r|]);
      r
    else
      s
  }

  /** Drops the trailing white space: what is dropped is all space, and what is kept ends with a non-space. */
  function TrimRight(s: string): (r: string)
    ensures |r| <= |s| && r == s[..|r|]
    ensures AllSpace(s[|r|..])
    ensures r == [] || !IsSpace(r[|r| - 1])
  {
    if s != [] && IsSpace(s[|s| - 1]) then
      var r := TrimRight(s[..|s| - 1]);
      assert s[|r|..] == s[..|s| - 1][|r|..] + [s[|s| - 1]];
      r
    else
      s
  }

  /** strings.TrimSpace: the result has no white space at either end and is no longer than the input. */
  function TrimSpace(s: string): (r: string)
    ensures Trimmed(r)
    ensures |r| <= |s|
  {
    var t := TrimLeft(s);
    var r := TrimRight(t);
    assert r != [] ==> r[0] == t[0];
    r
  }

  lemma {:induction false} TrimLeftSkipsSpace(a: string, y: string)
    requires AllSpace(a)
    ensures TrimLeft(a + y) == TrimLeft(y)
  {
    if a != [] {
      assert (a + y)[1..] == a[1..] + y;
      TrimLeftSkipsSpace(a[1..], y);
    } else {
      assert a + y == y;
    }
  }

  lemma {:induction false} TrimRightSkipsSpace(x: string, b: string)
    requires AllSpace(b)
    ensures TrimRight(x + b) == TrimRight(x)
  {
    if b != [] {
      var b' := b[..|b| - 1];
      assert (x + b)[..|x + b| - 1] == x + b';
      TrimRightSkipsSpace(x, b');
    } else {
      assert x + b == x;
    }
  }

  /**
   * TrimSpace removes exactly the surrounding white space: padding a trimmed
   * string with white space on either side and trimming gives it back.
   */
  lemma TrimSpaceOfPadded(a: string, x: string, b: string)
    requires AllSpace(a) && AllSpace(b) && Trimmed(x)
    ensures TrimSpace(a + x + b) == x
  {
    assert a + x + b == a + (x + b);
    TrimLeftSkipsSpace(a, x + b);
    if x == [] {
      assert x + b == b;
      assert TrimLeft(b) == [];
      assert TrimRight([]) == [];
    } else {
      assert TrimLeft(x + b) == x + b;
      TrimRightSkipsSpace(x, b);
      assert TrimRight(x) == x;
    }
  }

  /** Every input is its trimmed form surrounded by white space. */
  lemma {:induction false} TrimSpaceSplitsInput(s: string) returns (a: string, b: string)
    ensures AllSpace(a) && AllSpace(b)
    ensures s == a + TrimSpace(s) + b
  {
    var t := TrimLeft(s);
    var r := TrimRight(t);
    a := s[..|s| - |t|];
    b := t[|r|..];
    Reassemble(s, a, t, r, b);
  }

  lemma Reassemble(s: string, a: string, t: string, r: string, b: string)
    requires |t| <= |s| && a == s[..|s| - |t|] && t == s[|s| - |t|..]
    requires |r| <= |t| && r == t[..|r|] && b == t[|r|..]
    ensures s == a + r + b
  {
    assert t == r + b;
    assert s == a + t;
  }

  lemma TrimSpaceIdempotent(s: string)
    ensures TrimSpace(TrimSpace(s)) == TrimSpace(s)
  {
    var r := TrimSpace(s);
    assert [] + r + [] == r;
    TrimSpaceOfPadded([], r, []);
  }

  // ---------------------------------------------------------------------
  // strings.Split and strings.Join with a one-rune separator
  // ---------------------------------------------------------------------

  /** The number of occurrences of `c` in `s`. */
  function Count(s: string, c: char): nat {
    if s == [] then 0 else (if s[0] == c then 1 else 0) + Count(s[1..], c)
  }

  lemma {:induction false} CountZero(s: string, c: char)
    ensures Count(s, c) == 0 <==> c !in s
  {
    if s != [] {
      CountZero(s[1..], c);
      assert s == [s[0]] + s[1..];
    }
  }

  /**
   * strings.Split(s, sep): the pieces between separators, empty pieces kept;
   * one more piece than there are separators, none containing the separator.
   * In particular the empty string gives one empty piece.
   */
  function Split(s: string, sep: char): (r: seq<string>)
    ensures |r| == Count(s, sep) + 1
    ensures forall i :: 0 <= i < |r| ==> sep !in r[i]
  {
    if s == [] then
      [[]]
    else
      var rest := Split(s[1..], sep);
      if s[0] == sep then [[]] + rest
      else [[s[0]] + rest[0]] + rest[1..]
  }

  /** strings.Join(parts, sep): the parts with one separator between neighbours. */
  function Join(parts: seq<string>, sep: char): string {
    if |parts| == 0 then []
    else if |parts| == 1 then parts[0]
    else parts[0] + [sep] + Join(parts[1..], sep)
  }

  lemma JoinCons(c: char, parts: seq<string>, sep: char)
    requires |parts| >= 1
    ensures Join([[c] + parts[0]] + parts[1..], sep) == [c] + Join(parts, sep)
  {
    var ps := [[c] + parts[0]] + parts[1..];
    assert ps[1..] == parts[1..];
  }

  /** Joining the pieces of a split with the same separator gives back the input. */
  lemma {:induction false} JoinSplit(s: string, sep: char)
    ensures Join(Split(s, sep), sep) == s
  {
    if s != [] {
      var rest := Split(s[1..], sep);
      JoinSplit(s[1..], sep);
      if s[0] == sep {
        assert ([[]] + rest)[1..] == rest;
        assert s == [sep] + s[1..];
      } else {
        JoinCons(s[0], rest, sep);
        assert s == [s[0]] + s[1..];
      }
    }
  }

  /** Splitting a join of separator-free parts gives back the parts. */
  lemma {:induction false} SplitJoin(parts: seq<string>, sep: char)
    requires |parts| >= 1
    requires forall i :: 0 <= i < |parts| ==> sep !in parts[i]
    ensures Split(Join(parts, sep), sep) == parts
    decreases |Join(parts, sep)|
  {
    if parts[0] == [] {
      if |parts| > 1 {
        var j := Join(parts[1..], sep);
        assert Join(parts, sep) == [sep] + j;
        assert ([sep] + j)[1..] == j;
        SplitJoin(parts[1..], sep);
        assert parts == [[]] + parts[1..];
      }
    } else {
      var c := parts[0][0];
      var shorter := [parts[0][1..]] + parts[1..];
      assert shorter[1..] == parts[1..];
      assert parts[0] == [c] + shorter[0];
      JoinCons(c, shorter, sep);
      assert [[c] + shorter[0]] + shorter[1..] == parts;
      var j := Join(shorter, sep);
      assert Join(parts, sep) == [c] + j;
      assert ([c] + j)[1..] == j;
      SplitJoin(shorter, sep);
    }
  }

  /** strings.CutPrefix: what follows `prefix` in `s`, if `s` starts with it. */
  function CutPrefix(s: string, prefix: string): Option<string> {
    if prefix == [] then Some(s)
    else if s != [] && s[0] == prefix[0] then CutPrefix(s[1..], prefix[1..])
    else None
  }

  /** Cutting a prefix off a string that starts with it leaves exactly the rest. */
  lemma {:induction false} CutPrefixOfConcat(prefix: string, rest: string)
    ensures CutPrefix(prefix + rest, prefix) == Some(rest)
  {
    if prefix != [] {
      var s := prefix + rest;
      assert s != [] && s[0] == prefix[0];
      assert s[1..] == prefix[1..] + rest;
      CutPrefixOfConcat(prefix[1..], rest);
    } else {
      assert prefix + rest == rest;
    }
  }

  // ---------------------------------------------------------------------
  // Decimal formatting (%d) and strconv.Atoi
  // ---------------------------------------------------------------------

  predicate IsDigit(c: char) {
    '0' <= c <= '9'
  }

  /** Every character of `s` is a decimal digit (checked from the last one back). */
  predicate AllDigits(s: string) {
    s == [] || (AllDigits(s[..|s| - 1]) && IsDigit(s[|s| - 1]))
  }

  /** Each character of an all-digit string is a digit. */
  lemma {:induction false} DigitAt(s: string, i: nat)
    requires AllDigits(s) && i < |s|
    ensures IsDigit(s[i])
  {
    if i < |s| - 1 {
      DigitAt(s[..|s| - 1], i);
    }
  }

  function DigitChar(d: nat): (c: char)
    requires d < 10
    ensures IsDigit(c) && c as int - '0' as int == d
  {
    ('0' as int + d) as char
  }

  /** The decimal digits of `n`, most significant first, without leading zeros. */
  function NatDigits(n: nat): (r: string)
    ensures r != [] && AllDigits(r) && IsDigit(r[0])
    ensures n > 0 ==> r[0] != '0'
  {
    if n < 10 then
      var r := [DigitChar(n)];
      assert r[..0] == [];
      r
    else
      var front := NatDigits(n / 10);
      var r := front + [DigitChar(n % 10)];
      assert r[..|r| - 1] == front;
      r
  }

  /** The number a string of decimal digits denotes. */
  function DigitsValue(s: string): nat
    requires AllDigits(s)
  {
    if s == [] then 0 else 10 * DigitsValue(s[..|s| - 1]) + (s[|s| - 1] as int - '0' as int)
  }

  lemma {:induction false} DigitsValueOfNatDigits(n: nat)
    ensures DigitsValue(NatDigits(n)) == n
  {
    if n >= 10 {
      var s := NatDigits(n);
      assert s[..|s| - 1] == NatDigits(n / 10);
      DigitsValueOfNatDigits(n / 10);
    }
  }

  /** fmt.Sprintf("%d", n): an optional minus sign followed by the digits of |n|. */
  function FormatInt(n: int): (r: string)
    ensures r != []
    ensures r[0] == '-' <==> n < 0
    ensures AllDigits(if n < 0 then r[1..] else r)
  {
    if n < 0 then "-" + NatDigits(-n) else NatDigits(n)
  }

  /** What follows the optional leading sign of `s`. */
  function Unsigned(s: string): string {
    if s != [] && (s[0] == '+' || s[0] == '-') then s[1..] else s
  }

  /** Decimal-integer syntax: an optional sign, then one or more digits. */
  predicate IsNumeral(s: string) {
    Unsigned(s) != [] && AllDigits(Unsigned(s))
  }

  /** The value a numeral denotes: its digits, negated after a minus sign. */
  function NumeralValue(s: string): int
    requires IsNumeral(s)
  {
    var magnitude: int := DigitsValue(Unsigned(s));
    if s[0] == '-' then -magnitude else magnitude
  }

  /**
   * strconv.Atoi: an optional sign followed by at least one decimal digit,
   * whose value fits in 64 bits; anything else is an error (None).
   */
  function Atoi(s: string): (r: Option<int>)
    ensures r.Some? <==> IsNumeral(s) && Int64Min <= NumeralValue(s) <= Int64Max
    ensures r.Some? ==> r.value == NumeralValue(s)
    ensures r.Some? ==> s != [] && (IsDigit(s[0]) || s[0] == '+' || s[0] == '-')
  {
    var negative := s != [] && s[0] == '-';
    var digits := if s != [] && (s[0] == '+' || s[0] == '-') then s[1..] else s;
    if digits == [] || !AllDigits(digits) then
      None
    else
      DigitAt(digits, 0);
      var magnitude: int := DigitsValue(digits);
      var v := if negative then -magnitude else magnitude;
      if Int64Min <= v <= Int64Max then Some(v) else None
  }

  /** A plus sign and leading zeros are accepted; white space is not. */
  lemma AtoiExamples()
    ensures Atoi("+007") == Some(7)
    ensures Atoi("-0") == Some(0)
    ensures Atoi("7 ") == None
    ensures Atoi("") == None
  {
    assert Unsigned("+007") == "007";
    assert "007"[..2] == "00" && "00"[..1] == "0" && "0"[..0] == [];
    assert Unsigned("-0") == "0";
    assert !IsDigit(' ');
    assert "7 "[..1] == "7";
  }

  /** Atoi reads back every 64-bit integer that %d prints. */
  lemma AtoiFormatInt(n: GoInt)
    ensures Atoi(FormatInt(n)) == Some(n)
  {
    var s := FormatInt(n);
    if n < 0 {
      var m: int := n;
      var d := NatDigits(-m);
      assert s[0] == '-' && s[1..] == d;
      DigitsValueOfNatDigits(-m);
      assert Atoi(s) == Some(n);
    } else {
      var d := NatDigits(n);
      assert IsDigit(s[0]) && s == d;
      DigitsValueOfNatDigits(n);
      assert Atoi(s) == Some(DigitsValue(d));
    }
  }

  /** What %d prints has no white space at either end, so TrimSpace leaves it alone. */
  lemma FormatIntTrimmed(n: int)
    ensures Trimmed(FormatInt(n))
  {
    var s := FormatInt(n);
    assert !IsSpace('-');
    if n < 0 {
      assert s[|s| - 1] == s[1..][|s| - 2];
    }
  }
}
