/**
 * The behaviour of the Go `strings` and `strconv` functions that the core calls
 * (strings.LastIndex, strings.Cut, strings.Split, strings.TrimSpace,
 * strconv.ParseUint, strconv.Atoi, strconv.ParseBool), written out on
 * sequences of characters. A Go string is UTF-8 bytes; here it is a sequence
 * of code points.
 */
module GoStrings {
  import opened Wrappers

  const MinInt64: int := -0x8000_0000_0000_0000
  const MaxInt64: int := 0x7FFF_FFFF_FFFF_FFFF

  /** strings.LastIndex(s, string(c)): the position of the last `c`, or -1. */
  function LastIndexOf(s: string, c: char): (r: int)
    ensures -1 <= r < |s|
    ensures r == -1 ==> c !in s
    ensures 0 <= r ==> s[r] == c && c !in s[r + 1..]
  {
    if s == [] then -1
    else if s[|s| - 1] == c then |s| - 1
    else
      var r := LastIndexOf(s[..|s| - 1], c);
      assert s[r + 1..] == s[..|s| - 1][r + 1..] + [s[|s| - 1]];
      r
  }

  /** The last `c` is at `i` when `c` is there and nowhere after it. */
  lemma {:induction false} LastIndexAt(s: string, c: char, i: nat)
    requires i < |s| && s[i] == c && c !in s[i + 1..]
    ensures LastIndexOf(s, c) == i
  {
    if i < |s| - 1 {
      assert s[i + 1..][|s| - i - 2] == s[|s| - 1];
      var t := s[..|s| - 1];
      assert t[i + 1..] == s[i + 1..|s| - 1];
      LastIndexAt(t, c, i);
    }
  }

  /** strings.Cut(s, string(sep)): the text before and after the first `sep`. */
  function Cut(s: string, sep: char): (r: (string, string, bool))
    ensures r.2 <==> sep in s
    ensures r.2 ==> s == r.0 + [sep] + r.1 && sep !in r.0
    ensures !r.2 ==> r.0 == s && r.1 == ""
  {
    if s == [] then (s, "", false)
    else if s[0] == sep then ("", s[1..], true)
    else
      var rest := Cut(s[1..], sep);
      assert s == [s[0]] + s[1..];
      ([s[0]] + rest.0, rest.1, rest.2)
  }

  /** Joins `parts` with `sep` between neighbours (strings.Join). */
  function Join(parts: seq<string>, sep: char): string
  {
    if |parts| == 0 then ""
    else if |parts| == 1 then parts[0]
    else parts[0] + [sep] + Join(parts[1..], sep)
  }

  /** strings.Split(s, string(sep)): every piece between separators, empty ones included. */
  function Split(s: string, sep: char): (r: seq<string>)
    ensures |r| >= 1
    ensures forall k :: 0 <= k < |r| ==> sep !in r[k]
    ensures Join(r, sep) == s
    decreases |s|
  {
    var (before, after, found) := Cut(s, sep);
    if !found then [before]
    else
      var rest := Split(after, sep);
      assert ([before] + rest)[1..] == rest;
      [before] + rest
  }

  /** The text before the first separator is determined by the string. */
  lemma {:induction false} SeparatorUnique(x: string, y: string, b: string, a: string, sep: char)
    requires sep !in x && sep !in b
    requires x + [sep] + y == b + [sep] + a
    ensures x == b && y == a
  {
    var s := x + [sep] + y;
    FirstSeparator(x, y, sep);
    FirstSeparator(b, a, sep);
    assert |x| == |b|;
    assert x == s[..|x|] == b;
    assert y == s[|x| + 1..] == a;
  }

  lemma FirstSeparator(x: string, y: string, sep: char)
    requires sep !in x
    ensures (x + [sep] + y)[|x|] == sep
    ensures forall k :: 0 <= k < |x| ==> (x + [sep] + y)[k] != sep
  {
  }

  /** Splitting undoes joining when no part contains the separator. */
  lemma {:induction false} SplitJoin(parts: seq<string>, sep: char)
    requires |parts| >= 1
    requires forall k :: 0 <= k < |parts| ==> sep !in parts[k]
    ensures Split(Join(parts, sep), sep) == parts
  {
    if |parts| > 1 {
      var s := Join(parts, sep);
      var rest := Join(parts[1..], sep);
      assert s == parts[0] + [sep] + rest;
      var c := Cut(s, sep);
      assert c.2;
      SeparatorUnique(c.0, c.1, parts[0], rest, sep);
      SplitJoin(parts[1..], sep);
      assert parts == [parts[0]] + parts[1..];
    } else {
      assert sep !in parts[0];
    }
  }

  /** unicode.IsSpace: the white-space code points that strings.TrimSpace removes. */
  predicate IsSpace(c: char)
  {
    c == ' ' || c == '\t' || c == '\n' || c == '\U{0B}' || c == '\U{0C}' || c == '\r'
    || c == '\U{85}' || c == '\U{A0}' || c == '\U{1680}'
    || ('\U{2000}' <= c <= '\U{200A}')
    || c == '\U{2028}' || c == '\U{2029}' || c == '\U{202F}' || c == '\U{205F}' || c == '\U{3000}'
  }

  /** Every character of `t` is white space. */
  predicate AllSpace(t: string)
  {
    t == [] || (IsSpace(t[0]) && AllSpace(t[1..]))
  }

  /** strings.TrimLeftFunc(s, unicode.IsSpace) */
  function TrimLeft(s: string): string
  {
    if s != [] && IsSpace(s[0]) then TrimLeft(s[1..]) else s
  }

  /** strings.TrimRightFunc(s, unicode.IsSpace) */
  function TrimRight(s: string): string
  {
    if s != [] && IsSpace(s[|s| - 1]) then TrimRight(s[..|s| - 1]) else s
  }

  /** strings.TrimSpace: `s` without its leading and trailing white space. */
  function TrimSpace(s: string): string
  {
    TrimRight(TrimLeft(s))
  }

  /** TrimLeft removes exactly the leading white space. */
  lemma {:induction false} TrimLeftMeaning(s: string)
    ensures var r := TrimLeft(s); |r| <= |s| && r == s[|s| - |r|..]
    ensures AllSpace(s[..|s| - |TrimLeft(s)|])
    ensures TrimLeft(s) != [] ==> !IsSpace(TrimLeft(s)[0])
  {
    if s != [] && IsSpace(s[0]) {
      TrimLeftMeaning(s[1..]);
      var r := TrimLeft(s[1..]);
      assert s[..|s| - |r|][1..] == s[1..][..|s| - 1 - |r|];
    }
  }

  /** TrimRight removes exactly the trailing white space. */
  lemma {:induction false} TrimRightMeaning(s: string)
    ensures var r := TrimRight(s); |r| <= |s| && r == s[..|r|]
    ensures AllSpace(s[|TrimRight(s)|..])
    ensures TrimRight(s) != [] ==> !IsSpace(TrimRight(s)[|TrimRight(s)| - 1])
  {
    if s != [] && IsSpace(s[|s| - 1]) {
      TrimRightMeaning(s[..|s| - 1]);
      var r := TrimRight(s[..|s| - 1]);
      SpaceAppend(s[|r|..|s| - 1], [s[|s| - 1]]);
      assert s[|r|..] == s[|r|..|s| - 1] + [s[|s| - 1]];
    }
  }

  lemma {:induction false} SpaceAppend(a: string, b: string)
    requires AllSpace(a) && AllSpace(b)
    ensures AllSpace(a + b)
  {
    if a != [] {
      assert (a + b)[1..] == a[1..] + b;
      SpaceAppend(a[1..], b);
    } else {
      assert a + b == b;
    }
  }

  /** `r` stands at position `i` of `s` with nothing but white space around it. */
  ghost predicate SpaceBordered(s: string, r: string, i: int)
  {
    && 0 <= i <= |s| - |r| && s[i..i + |r|] == r
    && AllSpace(s[..i])
    && AllSpace(s[i + |r|..])
  }

  /**
   * TrimSpace leaves the part of `s` that has only white space around it and
   * none at its edges; a string without white space at its edges is kept.
   */
  lemma TrimSpaceMeaning(s: string)
    ensures var r := TrimSpace(s); r != [] ==> !IsSpace(r[0]) && !IsSpace(r[|r| - 1])
    ensures SpaceBordered(s, TrimSpace(s), |s| - |TrimLeft(s)|)
    ensures (s == [] || (!IsSpace(s[0]) && !IsSpace(s[|s| - 1]))) ==> TrimSpace(s) == s
  {
    var left := TrimLeft(s);
    var r := TrimRight(left);
    TrimLeftMeaning(s);
    TrimRightMeaning(left);
    var i := |s| - |left|;
    SliceOfSlice(s, i, |r|);
    if r != [] {
      assert r[0] == left[0];
    }
  }

  lemma SliceOfSlice(s: string, i: nat, n: nat)
    requires i + n <= |s|
    ensures s[i..][..n] == s[i..i + n] && s[i..][n..] == s[i + n..]
  {
  }

  /** The value of an ASCII digit or letter in bases up to 36, as strconv reads it; 36 otherwise. */
  function DigitValue(c: char): nat
  {
    if '0' <= c <= '9' then c as int - '0' as int
    else if 'a' <= c <= 'z' then c as int - 'a' as int + 10
    else if 'A' <= c <= 'Z' then c as int - 'A' as int + 10
    else 36
  }

  predicate AllDigits(s: string, base: nat)
  {
    forall k :: 0 <= k < |s| ==> DigitValue(s[k]) < base
  }

  /** The number that the digits of `s` denote in `base`, most significant first. */
  function DigitsValue(s: string, base: nat): nat
  {
    if s == [] then 0 else DigitsValue(s[..|s| - 1], base) * base + DigitValue(s[|s| - 1])
  }

  /**
   * strconv.ParseUint(s, base, bitSize) with an explicit base: no sign, no prefix and
   * no underscores; an empty string, a bad digit or a value of `bitSize` bits or more
   * is an error, here None.
   */
  function ParseUint(s: string, base: nat, bitSize: nat): (r: Option<nat>)
    requires 2 <= base <= 36
  {
    if s != [] && AllDigits(s, base) && DigitsValue(s, base) < Pow2(bitSize)
    then Some(DigitsValue(s, base)) else None
  }

  function Pow2(n: nat): (r: nat)
    ensures r >= 1
  {
    if n == 0 then 1 else 2 * Pow2(n - 1)
  }

  /** strconv.Atoi on a 64-bit platform: an optional sign, decimal digits, the int64 range. */
  function Atoi(s: string): (r: Option<int>)
    ensures r.Some? ==> MinInt64 <= r.value <= MaxInt64
  {
    if s == [] then None
    else
      var digits := if s[0] == '-' || s[0] == '+' then s[1..] else s;
      if digits == [] || !AllDigits(digits, 10) then None
      else
        var n: int := DigitsValue(digits, 10);
        var v := if s[0] == '-' then -n else n;
        if MinInt64 <= v <= MaxInt64 then Some(v) else None
  }

  /** strconv.ParseBool: the six spellings of true and the six of false; anything else is an error. */
  function ParseBool(s: string): (r: Option<bool>)
  {
    if s == "1" || s == "t" || s == "T" || s == "TRUE" || s == "true" || s == "True" then Some(true)
    else if s == "0" || s == "f" || s == "F" || s == "FALSE" || s == "false" || s == "False" then Some(false)
    else None
  }

  /** strconv.FormatBool */
  function FormatBool(b: bool): string
  {
    if b then "true" else "false"
  }

  /** ParseBool accepts exactly twelve spellings and reads back what FormatBool writes. */
  lemma ParseBoolMeaning(s: string, b: bool)
    ensures ParseBool(FormatBool(b)) == Some(b)
    ensures ParseBool(s) == Some(true) <==> s in {"1", "t", "T", "TRUE", "true", "True"}
    ensures ParseBool(s) == Some(false) <==> s in {"0", "f", "F", "FALSE", "false", "False"}
  {
  }

  // ---------------------------------------------------------------------------
  // Formatting, the partner of parsing

  /** The lower-case digit that strconv writes for the value `d`. */
  function DigitChar(d: nat): char
    requires d < 36
  {
    if d < 10 then ('0' as int + d) as char else ('a' as int + d - 10) as char
  }

  /** strconv.FormatUint(n, base): the digits of `n`, most significant first, without leading zeros. */
  function FormatUint(n: nat, base: nat): string
    requires 2 <= base <= 36
    decreases n
  {
    if n < base then [DigitChar(n)] else FormatUint(n / base, base) + [DigitChar(n % base)]
  }

  /** strconv.Itoa: a minus sign for negative numbers, then the decimal digits. */
  function Itoa(n: int): string
  {
    if n < 0 then "-" + FormatUint(-n, 10) else FormatUint(n, 10)
  }

  /** The formatted digits are digits of the base, and they denote `n`. */
  lemma {:induction false} FormatUintDigits(n: nat, base: nat)
    requires 2 <= base <= 36
    ensures var s := FormatUint(n, base); s != [] && AllDigits(s, base) && DigitsValue(s, base) == n
    decreases n
  {
    if n < base {
      DigitCharValue(n);
    } else {
      var q, d := n / base, n % base;
      DivMod(n, base);
      var t := FormatUint(q, base);
      assert FormatUint(n, base) == t + [DigitChar(d)];
      FormatUintDigits(q, base);
      DigitCharValue(d);
      DigitsAppend(t, DigitChar(d), base);
      assert DigitsValue(t, base) == q;
      assert DigitsValue(t + [DigitChar(d)], base) == q * base + d;
    }
  }

  lemma DigitCharValue(d: nat)
    requires d < 36
    ensures DigitValue(DigitChar(d)) == d
  {
  }

  /** Appending one digit multiplies the value by the base and adds the digit. */
  lemma DigitsAppend(t: string, c: char, base: nat)
    requires AllDigits(t, base) && DigitValue(c) < base
    ensures AllDigits(t + [c], base)
    ensures DigitsValue(t + [c], base) == DigitsValue(t, base) * base + DigitValue(c)
  {
    assert (t + [c])[..|t|] == t;
  }

  lemma DivMod(n: nat, base: nat)
    requires base >= 2 && n >= base
    ensures (n / base) * base + n % base == n && 0 <= n % base < base
    ensures n / base < n
  {
    var q := n / base;
    assert q * base <= n;
    assert q * 2 <= q * base;
  }

  /** ParseUint reads back every number that fits in `bitSize` bits, as FormatUint writes it. */
  lemma ParseUintFormatUint(n: nat, base: nat, bitSize: nat)
    requires 2 <= base <= 36 && n < Pow2(bitSize)
    ensures ParseUint(FormatUint(n, base), base, bitSize) == Some(n)
  {
    FormatUintDigits(n, base);
  }

  /** A leading zero changes neither the digits' validity nor their value. */
  lemma {:induction false} LeadingZeroValue(s: string, base: nat)
    requires base >= 2
    ensures AllDigits("0" + s, base) <==> AllDigits(s, base)
    ensures DigitsValue("0" + s, base) == DigitsValue(s, base)
    decreases |s|
  {
    assert forall k :: 0 <= k < |s| ==> ("0" + s)[k + 1] == s[k];
    if s != [] {
      var t := s[..|s| - 1];
      assert ("0" + s)[..|s|] == "0" + t;
      LeadingZeroValue(t, base);
    }
  }

  /** strconv.ParseUint ignores leading zeros: "007" reads as 7. */
  lemma ParseUintLeadingZero(s: string, base: nat, bitSize: nat)
    requires 2 <= base <= 36 && s != []
    ensures ParseUint("0" + s, base, bitSize) == ParseUint(s, base, bitSize)
  {
    LeadingZeroValue(s, base);
  }

  lemma Pow2Sixteen()
    ensures Pow2(16) == 65536
  {
    assert Pow2(4) == 16;
    assert Pow2(8) == 256;
    assert Pow2(12) == 4096;
  }

  /** Go reads leading zeros and both cases of hex digits. */
  lemma ParseUintDigitExamples()
    ensures ParseUint("007", 10, 16) == Some(7)
    ensures ParseUint("FF", 16, 16) == Some(255) && ParseUint("ff", 16, 16) == Some(255)
  {
    Pow2Sixteen();
    assert "007"[..2] == "00" && "00"[..1] == "0";
    assert AllDigits("007", 10) && DigitsValue("007", 10) == 7;
    assert "FF"[..1] == "F" && "ff"[..1] == "f";
    assert AllDigits("FF", 16) && DigitsValue("FF", 16) == 255;
    assert AllDigits("ff", 16) && DigitsValue("ff", 16) == 255;
  }

  /** The 16-bit bound: 65535 is read, 65536 is out of range. */
  lemma ParseUintBoundExamples()
    ensures ParseUint("65535", 10, 16) == Some(65535) && ParseUint("65536", 10, 16) == None
  {
    Pow2Sixteen();
    assert "65"[..1] == "6";
    assert DigitsValue("65", 10) == 65;
    assert "655"[..2] == "65";
    assert DigitsValue("655", 10) == 655;
    assert "6553"[..3] == "655";
    assert DigitsValue("6553", 10) == 6553;
    assert "65535"[..4] == "6553" && "65536"[..4] == "6553";
    assert AllDigits("65535", 10) && DigitsValue("65535", 10) == 65535;
    assert DigitsValue("65536", 10) == 65536;
  }

  /** No empty string, no "0x" prefix and no sign. */
  lemma ParseUintRejectExamples()
    ensures ParseUint("", 10, 16) == None && ParseUint("0x1", 16, 16) == None && ParseUint("+1", 10, 16) == None
  {
    assert DigitValue("0x1"[1]) == 33;
    assert DigitValue("+1"[0]) == 36;
  }

  /** Atoi reads back every int64 as Itoa writes it. */
  lemma AtoiItoa(n: int)
    requires MinInt64 <= n <= MaxInt64
    ensures Atoi(Itoa(n)) == Some(n)
  {
    if n < 0 {
      NegativeItoa(n);
    } else {
      FormatUintDigits(n, 10);
      DigitsNoSign(FormatUint(n, 10));
    }
  }

  lemma NegativeItoa(n: int)
    requires MinInt64 <= n < 0
    ensures Atoi(Itoa(n)) == Some(n)
  {
    var t := FormatUint(-n, 10);
    FormatUintDigits(-n, 10);
    var s := Itoa(n);
    assert s[0] == '-' && s[1..] == t;
  }

  /** A run of digits holds no space. */
  lemma DigitsHaveNoSpace(s: string, base: nat)
    requires base <= 36 && AllDigits(s, base)
    ensures ' ' !in s
  {
    assert forall k :: 0 <= k < |s| ==> DigitValue(s[k]) < 36;
  }

  /** A run of decimal digits starts with no sign. */
  lemma DigitsNoSign(s: string)
    requires s != [] && AllDigits(s, 10)
    ensures s[0] != '-' && s[0] != '+'
  {
    assert DigitValue(s[0]) < 10;
  }

  /**
   * Atoi fails on an empty string, on a sign alone, on any character other than a
   * decimal digit (a leading sign aside), and on a value outside the int64 range.
   */
  lemma AtoiRejects(s: string, k: nat)
    ensures Atoi("") == None && Atoi("-") == None && Atoi("+") == None
    ensures k < |s| && DigitValue(s[k]) >= 10 && !(k == 0 && (s[0] == '-' || s[0] == '+')) ==> Atoi(s) == None
    ensures s != [] && AllDigits(s, 10) && DigitsValue(s, 10) > MaxInt64 ==> Atoi(s) == None
    ensures |s| >= 2 && s[0] == '-' && AllDigits(s[1..], 10) && DigitsValue(s[1..], 10) > -MinInt64 ==> Atoi(s) == None
  {
    if k < |s| && DigitValue(s[k]) >= 10 && k > 0 && (s[0] == '-' || s[0] == '+') {
      assert s[1..][k - 1] == s[k];
    }
    if s != [] && AllDigits(s, 10) {
      assert DigitValue(s[0]) < 10;
    }
  }
}
