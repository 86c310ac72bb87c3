/** Numbers as text: proc_get_long with the kernel's base-0 integer parser under it, and proc_put_long. */
module Digits {
  import opened Wrappers

  const ULONG_MAX: nat := 0xFFFF_FFFF_FFFF_FFFF
  /** Digits of a parsed number must fit TMPBUFLEN - 1 with one place to spare. */
  const TMPBUFLEN: nat := 22

  predicate IsDigit(c: char) { '0' <= c <= '9' }

  /** The value of a digit in any base, 99 for other characters. */
  function DigitValue(c: char): nat {
    if '0' <= c <= '9' then c as int - '0' as int
    else if 'a' <= c <= 'f' then c as int - 'a' as int + 10
    else if 'A' <= c <= 'F' then c as int - 'A' as int + 10
    else 99
  }

  /** The number of characters at the start of s that are digits in this base. */
  function Scan(s: string, base: nat): (n: nat)
    ensures n <= |s|
  {
    if s == [] || DigitValue(s[0]) >= base then 0 else 1 + Scan(s[1..], base)
  }

  /** The number that s writes in base 8, 10 or 16. */
  function Value(s: string, base: nat): nat {
    if s == [] then 0 else Times(Value(s[..|s| - 1], base), base) + DigitValue(s[|s| - 1])
  }

  function Times(v: nat, base: nat): nat {
    if base == 8 then 8 * v else if base == 16 then 16 * v else 10 * v
  }

  /** _parse_integer_fixup_radix for base 0: where the digits start, and in which base. */
  function Radix(s: string): (r: (nat, nat))
    ensures r.0 <= |s|
  {
    if s != [] && s[0] == '0' then
      if |s| > 2 && (s[1] == 'x' || s[1] == 'X') && DigitValue(s[2]) < 16 then (2, 16) else (0, 8)
    else (0, 10)
  }

  /** strtoul_lenient: the value and the number of characters it took; None on overflow. */
  function ParseUnsigned(s: string): (r: Option<(nat, nat)>)
    ensures r.Some? ==> r.value.1 <= |s| && (s != [] && IsDigit(s[0]) ==> r.value.1 > 0)
  {
    var (start, base) := Radix(s);
    var n := Scan(s[start..], base);
    var v := Value(s[start..][..n], base);
    if v > ULONG_MAX then None else Some((v, start + n))
  }

  /** A parsed number: its size, its sign, how many characters it took, and the one after it. */
  datatype Parsed = Parsed(value: nat, neg: bool, used: nat, trailer: Option<char>)

  /** What proc_get_long copies of its input. */
  function Buffer(buf: string): (tmp: string)
    ensures tmp <= buf && |tmp| == if |buf| > TMPBUFLEN - 1 then TMPBUFLEN - 1 else |buf|
  {
    if |buf| > TMPBUFLEN - 1 then buf[..TMPBUFLEN - 1] else buf
  }

  /** proc_get_long on the bytes that are left; None is -EINVAL. */
  function GetLong(buf: string, trailers: seq<char>): (r: Option<Parsed>)
    ensures r.Some? ==> 0 < r.value.used <= |buf| && (r.value.trailer.Some? <==> r.value.used < |buf|)
  {
    if buf == [] then None
    else
      var tmp := Buffer(buf);
      var neg := tmp[0] == '-' && |buf| > 1;
      var sign := if neg then 1 else 0;
      if !IsDigit(tmp[sign]) then None
      else
        match ParseUnsigned(tmp[sign..])
        case None => None
        case Some((value, n)) =>
          var used := sign + n;
          if used == TMPBUFLEN - 1 then None
          else if used < |buf| && buf[used] !in trailers then None
          else Some(Parsed(value, neg, used, if used < |buf| then Some(buf[used]) else None))
  }

  /** What sprintf("%lu") writes. */
  function Decimal(n: nat): (s: string)
    ensures s != [] && forall i :: 0 <= i < |s| ==> IsDigit(s[i])
    ensures n > 0 ==> s[0] != '0'
    ensures n == 0 ==> s == "0"
  {
    if n < 10 then [('0' as int + n) as char] else Decimal(n / 10) + [('0' as int + n % 10) as char]
  }

  lemma {:induction false} ValueOfDecimal(n: nat)
    ensures Value(Decimal(n), 10) == n
  {
    var s := Decimal(n);
    if n < 10 {
      assert s[..0] == [];
    } else {
      ValueOfDecimal(n / 10);
      assert s[..|s| - 1] == Decimal(n / 10);
    }
  }

  function Power10(k: nat): (p: nat)
    ensures p > 0
  {
    if k == 0 then 1 else 10 * Power10(k - 1)
  }

  lemma {:induction false} DecimalLength(n: nat, k: nat)
    requires k > 0 && n < Power10(k)
    ensures |Decimal(n)| <= k
  {
    if n >= 10 {
      DecimalLength(n / 10, k - 1);
    }
  }

  /** A 64-bit number has at most 20 digits. */
  lemma DecimalFits(n: nat)
    requires n <= ULONG_MAX
    ensures |Decimal(n)| <= 20
  {
    assert Power10(5) == 100000;
    assert Power10(10) == 100000 * 100000 by { PowerAdd(5, 5); }
    assert Power10(20) == 10000000000 * 10000000000 by { PowerAdd(10, 10); }
    DecimalLength(n, 20);
  }

  lemma {:induction false} PowerAdd(a: nat, b: nat)
    ensures Power10(a + b) == Power10(a) * Power10(b)
  {
    if a > 0 {
      PowerAdd(a - 1, b);
    }
  }

  /** Digits followed by something else are scanned up to there. */
  lemma {:induction false} ScanDigits(d: string, rest: string, base: nat)
    requires forall i :: 0 <= i < |d| ==> DigitValue(d[i]) < base
    requires rest != [] ==> DigitValue(rest[0]) >= base
    ensures Scan(d + rest, base) == |d|
  {
    if d == [] {
      assert d + rest == rest;
    } else {
      assert (d + rest)[1..] == d[1..] + rest;
      ScanDigits(d[1..], rest, base);
    }
  }

  /** A prefix of a number is no larger. */
  lemma {:induction false} PrefixValue(s: string, k: nat, base: nat)
    requires k <= |s|
    ensures Value(s[..k], base) <= Value(s, base)
    decreases |s|
  {
    if k < |s| {
      PrefixValue(s[..|s| - 1], k, base);
      assert s[..|s| - 1][..k] == s[..k];
    } else {
      assert s[..k] == s;
    }
  }

  // ---- Spellings ----

  predicate IsX(c: char) { c == 'x' || c == 'X' }

  /** A character that ends a number in every base. */
  predicate Stops(c: char) { DigitValue(c) >= 16 && !IsX(c) }

  /** The number that a spelling stands for. */
  function NumberValue(t: string): nat {
    var (start, base) := Radix(t);
    Value(t[start..], base)
  }

  /** A spelling that the parser accepts: decimal, octal after a 0, or hexadecimal after 0x or 0X, with no
      more characters than its buffer has room for and no more bits than an unsigned long. */
  predicate IsNumber(t: string) {
    && 0 < |t| < TMPBUFLEN - 1 && IsDigit(t[0])
    && AllDigits(t[Radix(t).0..], Radix(t).1)
    && NumberValue(t) <= ULONG_MAX
  }

  predicate AllDigits(t: string, base: nat) { forall i :: 0 <= i < |t| ==> DigitValue(t[i]) < base }

  /** What follows a number does not change its base. */
  lemma SameRadix(t: string, rest: string)
    requires IsNumber(t) && (rest != [] ==> Stops(rest[0]))
    ensures Radix(t + rest) == Radix(t)
  {
    hide Value, AllDigits;
    var s := t + rest;
    assert s[0] == t[0] && (|t| > 1 ==> s[1] == t[1]) && (|t| > 2 ==> s[2] == t[2]);
    assert |t| == 1 && rest != [] ==> s[1] == rest[0];
    assert |t| == 2 && rest != [] ==> s[2] == rest[0];
  }

  lemma ParseNumber(t: string, rest: string)
    requires IsNumber(t) && (rest != [] ==> Stops(rest[0]))
    ensures ParseUnsigned(t + rest) == Some((NumberValue(t), |t|))
  {
    hide Value, Scan;
    SameRadix(t, rest);
    var (start, base) := Radix(t);
    var digits := t[start..];
    assert (t + rest)[start..] == digits + rest;
    ScanDigits(digits, rest, base);
    assert (digits + rest)[..|digits|] == digits;
  }

  /** The part of the input that the parser copies, after its sign. */
  lemma Buffered(sign: string, t: string, rest: string) returns (more: string)
    requires t != [] && |sign + t| < TMPBUFLEN - 1
    ensures more <= rest && (more == [] <==> rest == [])
    ensures var buf := sign + t + rest;
      var tmp := Buffer(buf);
      && tmp[|sign|..] == t + more && tmp[|sign|] == t[0]
      && tmp[0] == (if sign == [] then t[0] else sign[0])
      && (rest != [] ==> buf[|sign| + |t|] == rest[0])
  {
    var room := TMPBUFLEN - 1 - |sign + t|;
    more := if |rest| > room then rest[..room] else rest;
    var buf := sign + t + rest;
    var tmp := Buffer(buf);
    assert tmp == sign + (t + more);
  }

  lemma StartsWithDigit(t: string)
    requires IsNumber(t)
    ensures 0 < |t| < TMPBUFLEN - 1 && IsDigit(t[0]) && t[0] != '-'
  {
  }

  /** proc_get_long once the number at the start of its buffer has been parsed. */
  lemma GetParsed(buf: string, neg: bool, v: nat, n: nat, trailers: seq<char>)
    requires buf != []
    requires var tmp := Buffer(buf);
      var sign := if neg then 1 else 0;
      neg == (tmp[0] == '-' && |buf| > 1) && IsDigit(tmp[sign]) && ParseUnsigned(tmp[sign..]) == Some((v, n))
    requires var used := n + if neg then 1 else 0;
      used < TMPBUFLEN - 1 && used <= |buf| && (used < |buf| ==> buf[used] in trailers)
    ensures var used := n + if neg then 1 else 0;
      GetLong(buf, trailers) == Some(Parsed(v, neg, used, if used < |buf| then Some(buf[used]) else None))
  {
    hide ParseUnsigned;
  }

  /** proc_get_long reads any spelling with its sign, when a permitted character or nothing follows. */
  lemma GetSpelled(t: string, neg: bool, rest: string, trailers: seq<char>)
    requires IsNumber(t) && (neg ==> |t| + 1 < TMPBUFLEN - 1)
    requires rest != [] ==> rest[0] in trailers && Stops(rest[0])
    ensures var sign := if neg then "-" else "";
      GetLong(sign + t + rest, trailers)
      == Some(Parsed(NumberValue(t), neg, |sign| + |t|, if rest == [] then None else Some(rest[0])))
  {
    hide ParseUnsigned, NumberValue, IsNumber, DigitValue, GetLong, IsDigit;
    StartsWithDigit(t);
    var sign := if neg then "-" else "";
    var more := Buffered(sign, t, rest);
    ParseNumber(t, more);
    GetParsed(sign + t + rest, neg, NumberValue(t), |t|, trailers);
  }

  /** What is left of a number cut after k characters is a number, except after just 0x. */
  lemma PrefixIsNumber(t: string, k: nat)
    requires IsNumber(t) && 0 < k <= |t| && !(k == 2 && IsX(t[1]))
    ensures IsNumber(t[..k])
  {
    hide Value;
    var (start, base) := Radix(t);
    var p := t[..k];
    if start == 2 && k == 1 {
      assert p == "0";
      ZeroIsNumber();
    } else {
      assert p[0] == t[0] && (k > 1 ==> p[1] == t[1]) && (k > 2 ==> p[2] == t[2]);
      assert Radix(p) == (start, base);
      assert p[start..] == t[start..][..k - start];
      PrefixValue(t[start..], k - start, base);
    }
  }

  lemma ZeroIsNumber()
    ensures IsNumber("0") && NumberValue("0") == 0
  {
    assert "0"[0..] == "0" && "0"[..0] == "";
  }

  /** In a number x or X stands second or nowhere. */
  lemma XIsSecond(t: string, i: nat)
    requires IsNumber(t) && i < |t|
    ensures IsX(t[i]) ==> i == 1 && t[0] == '0' && |t| > 2
  {
    hide Value;
    var (start, base) := Radix(t);
    assert i >= start ==> DigitValue(t[start..][i - start]) < base && t[start..][i - start] == t[i];
  }

  /** Just 0x is refused wherever x is no permitted trailer. */
  lemma GetCutPrefix(x: char, trailers: seq<char>)
    requires IsX(x) && x !in trailers
    ensures GetLong(['0', x], trailers) == None
  {
    hide Value;
    var s := ['0', x];
    assert s[0..] == s && s[1..] == [x];
    assert Scan([x], 8) == 0 && Scan(s, 8) == 1;
    assert s[..1] == "0" && "0"[0..] == "0";
    ZeroIsNumber();
    assert ParseUnsigned(s) == Some((0, 1));
  }

  /** What is printed is a spelling of the number. */
  lemma DecimalIsNumber(n: nat)
    requires n <= ULONG_MAX
    ensures IsNumber(Decimal(n)) && NumberValue(Decimal(n)) == n
  {
    hide Value, Decimal;
    var d := Decimal(n);
    ValueOfDecimal(n);
    DecimalFits(n);
    if n == 0 {
      ZeroIsNumber();
    } else {
      assert d[0..] == d;
    }
  }

  // ---- What the parser refuses, and the other bases ----

  /** Whatever proc_get_long accepts begins with an optional sign and a spelling of the value, of at most twenty
      characters with the sign, and a permitted character or nothing follows. */
  lemma GetLongSound(buf: string, trailers: seq<char>)
    requires GetLong(buf, trailers).Some?
    ensures var p := GetLong(buf, trailers).value;
      var sign := if p.neg then 1 else 0;
      && sign < p.used <= |buf| && p.used <= 20 && (p.neg <==> buf[0] == '-')
      && IsNumber(buf[sign..p.used]) && NumberValue(buf[sign..p.used]) == p.value
      && (p.used < |buf| ==> buf[p.used] in trailers && p.trailer == Some(buf[p.used]))
  {
    hide ParseUnsigned, IsNumber, NumberValue, IsDigit;
    var p := GetLong(buf, trailers).value;
    var sign := if p.neg then 1 else 0;
    var tmp := Buffer(buf);
    assert IsDigit(tmp[sign]) && ParseUnsigned(tmp[sign..]) == Some((p.value, p.used - sign));
    ParseUnsignedSound(tmp[sign..]);
    assert tmp[sign..][..p.used - sign] == buf[sign..p.used];
    DigitIsNoDash(tmp[sign]);
  }

  lemma DigitIsNoDash(c: char)
    requires IsDigit(c)
    ensures c != '-'
  {
  }

  lemma {:induction false} ScanIs(s: string, base: nat)
    ensures AllDigits(s[..Scan(s, base)], base)
  {
    if s != [] && DigitValue(s[0]) < base {
      ScanIs(s[1..], base);
      var n := Scan(s, base);
      assert s[..n] == [s[0]] + s[1..][..n - 1];
    }
  }

  lemma ParseUnsignedSound(s: string)
    requires s != [] && IsDigit(s[0]) && ParseUnsigned(s).Some?
    ensures var (v, n) := ParseUnsigned(s).value;
      0 < n <= |s| && (n < 21 ==> IsNumber(s[..n])) && NumberValue(s[..n]) == v
  {
    hide Value;
    var (start, base) := Radix(s);
    var m := Scan(s[start..], base);
    var t := s[..start + m];
    ScanIs(s[start..], base);
    assert t[start..] == s[start..][..m];
    assert t[0] == s[0] && (|t| > 1 ==> t[1] == s[1]) && (|t| > 2 ==> t[2] == s[2]);
    assert start == 2 ==> DigitValue(s[start..][0]) < 16;
    if start == 0 {
      NoXInside(t, s, m, base);
    }
    assert Radix(t) == (start, base);
  }

  lemma NoXInside(t: string, s: string, m: nat, base: nat)
    requires m <= |s| && t == s[..m] && base <= 10 && AllDigits(t, base)
    ensures |t| > 1 ==> !IsX(t[1])
  {
    assert |t| > 1 ==> DigitValue(t[1]) < base;
  }

  /** The sixteen digits, in either case, and no others. */
  lemma DigitsAre(c: char)
    ensures forall d :: 0 <= d < 16 ==> DigitValue("0123456789abcdef"[d]) == d && DigitValue("0123456789ABCDEF"[d]) == d
    ensures DigitValue(c) < 16 ==> c in "0123456789abcdef" || c in "0123456789ABCDEF"
  {
    if '0' <= c <= '9' {
      assert "0123456789abcdef"[c as int - '0' as int] == c;
    } else if 'a' <= c <= 'f' {
      assert "0123456789abcdef"[c as int - 'a' as int + 10] == c;
    } else if 'A' <= c <= 'F' {
      assert "0123456789ABCDEF"[c as int - 'A' as int + 10] == c;
    }
  }

  function HexText(n: nat): string {
    if n < 16 then ["0123456789abcdef"[n]] else HexText(n / 16) + ["0123456789abcdef"[n % 16]]
  }

  function OctalText(n: nat): string {
    if n < 8 then ["01234567"[n]] else OctalText(n / 8) + ["01234567"[n % 8]]
  }

  lemma {:induction false} ValueOfHex(n: nat)
    ensures HexText(n) != [] && Value(HexText(n), 16) == n && AllDigits(HexText(n), 16)
  {
    var s := HexText(n);
    DigitsAre('0');
    if n < 16 {
      assert s[..0] == [];
    } else {
      ValueOfHex(n / 16);
      assert s[..|s| - 1] == HexText(n / 16);
    }
  }

  lemma {:induction false} ValueOfOctal(n: nat)
    ensures OctalText(n) != [] && Value(OctalText(n), 8) == n && AllDigits(OctalText(n), 8)
  {
    var s := OctalText(n);
    if n < 8 {
      assert s[..0] == [];
    } else {
      ValueOfOctal(n / 8);
      assert s[..|s| - 1] == OctalText(n / 8);
    }
  }

  /** 0x and hexadecimal digits, or 0 and octal digits, stand for the number that the digits write. */
  lemma OtherBases(n: nat)
    ensures NumberValue("0x" + HexText(n)) == n && NumberValue("0X" + HexText(n)) == n
    ensures NumberValue("0" + OctalText(n)) == n
  {
    hide Value;
    ValueOfHex(n);
    ValueOfOctal(n);
    var h, k, o := "0x" + HexText(n), "0X" + HexText(n), "0" + OctalText(n);
    assert h[2..] == HexText(n) && h[2] == HexText(n)[0];
    assert k[2..] == HexText(n) && k[2] == HexText(n)[0];
    assert o[1] == OctalText(n)[0] && DigitValue(o[1]) < 8;
    assert o[0..] == o;
    LeadingZero(OctalText(n));
  }

  lemma {:induction false} LeadingZero(s: string)
    ensures Value("0" + s, 8) == Value(s, 8)
  {
    var t := "0" + s;
    if s == [] {
      assert t == "0" && t[..0] == [];
    } else {
      LeadingZero(s[..|s| - 1]);
      assert t[..|t| - 1] == "0" + s[..|s| - 1];
    }
  }
}
