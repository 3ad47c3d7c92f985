/** The few PHP built-ins whose results the transcript layout depends on:
    `number_format` (rounding half away from zero, ',' as thousands separator),
    `floatval` (reads the longest numeric prefix of a string), `strlen` (byte
    length of a UTF-8 string) and the loose `==` between a number and a string.
    Numbers are exact decimals here; the float error of PHP's doubles is not modelled. */
module PhpText {

  /** The exact decimal number digits / 10^scale. */
  datatype Decimal = Decimal(digits: int, scale: nat)

  function Pow10(n: nat): (r: nat)
    ensures r >= 1
  {
    if n == 0 then 1 else 10 * Pow10(n - 1)
  }

  lemma {:induction false} Pow10Add(a: nat, b: nat)
    ensures Pow10(a + b) == Pow10(a) * Pow10(b)
  {
    if a > 0 {
      Pow10Add(a - 1, b);
      calc {
        Pow10(a + b);
        10 * Pow10(a - 1 + b);
        10 * (Pow10(a - 1) * Pow10(b));
        (10 * Pow10(a - 1)) * Pow10(b);
      }
    }
  }

  function Abs(x: int): nat
  {
    if x < 0 then -x else x
  }

  /** x * y as repeated addition, so that formulas using it stay linear until
      MulIsProduct is called. */
  function Mul(x: int, y: int): int
    decreases Abs(y)
  {
    if y == 0 then 0 else if y > 0 then Mul(x, y - 1) + x else Mul(x, y + 1) - x
  }

  lemma {:induction false} MulIsProduct(x: int, y: int)
    ensures Mul(x, y) == x * y
    decreases Abs(y)
  {
    if y > 0 {
      MulIsProduct(x, y - 1);
    } else if y < 0 {
      MulIsProduct(x, y + 1);
    }
  }

  /** The exact product of two decimals, standing for PHP's `*` on two numbers. */
  function Times(a: Decimal, b: Decimal): Decimal
  {
    Decimal(Mul(a.digits, b.digits), a.scale + b.scale)
  }

  predicate IsDigit(c: char)
  {
    '0' <= c <= '9'
  }

  predicate AllDigits(s: string)
  {
    forall i :: 0 <= i < |s| ==> IsDigit(s[i])
  }

  function DigitChar(n: nat): (c: char)
    requires n < 10
    ensures IsDigit(c)
  {
    ('0' as int + n) as char
  }

  function DigitValue(c: char): nat
    requires IsDigit(c)
  {
    c as int - '0' as int
  }

  /** The value of a string of decimal digits (no sign, no separators). */
  function DigitsValue(s: string): nat
    requires AllDigits(s)
  {
    if s == [] then 0 else 10 * DigitsValue(s[..|s| - 1]) + DigitValue(s[|s| - 1])
  }

  /** PHP's conversion of a non-negative int to a string: decimal, no leading zeros. */
  function NatToString(n: nat): (s: string)
    ensures 1 <= |s| && AllDigits(s)
  {
    if n < 10 then [DigitChar(n)] else NatToString(n / 10) + [DigitChar(n % 10)]
  }

  /** The last `width` decimal digits of n, zero-padded: the decimals number_format prints. */
  function PadDigits(n: nat, width: nat): (s: string)
    ensures |s| == width && AllDigits(s)
  {
    if width == 0 then "" else PadDigits(n / 10, width - 1) + [DigitChar(n % 10)]
  }

  lemma ShiftDigit(a: int, b: int, p: int, d: int)
    ensures 10 * (a * p + b) + d == a * (10 * p) + (10 * b + d)
  {
  }

  lemma {:induction false} DigitsValueAppend(s: string, t: string)
    requires AllDigits(s) && AllDigits(t)
    ensures AllDigits(s + t)
    ensures DigitsValue(s + t) == DigitsValue(s) * Pow10(|t|) + DigitsValue(t)
  {
    assert AllDigits(s + t);
    if t != [] {
      var t' := t[..|t| - 1];
      assert AllDigits(t');
      assert (s + t)[..|s + t| - 1] == s + t';
      DigitsValueAppend(s, t');
      var a, b, p, d := DigitsValue(s), DigitsValue(t'), Pow10(|t'|), DigitValue(t[|t| - 1]);
      assert (s + t)[|s + t| - 1] == t[|t| - 1];
      assert DigitsValue(s + t) == 10 * (a * p + b) + d;
      assert DigitsValue(t) == 10 * b + d;
      assert Pow10(|t|) == 10 * p;
      ShiftDigit(a, b, p, d);
    } else {
      assert s + t == s;
    }
  }

  /** Reading back the digits PHP prints for n gives n. */
  lemma {:induction false} NatToStringValue(n: nat)
    ensures DigitsValue(NatToString(n)) == n
  {
    if n >= 10 {
      NatToStringValue(n / 10);
      var s := NatToString(n);
      assert s[..|s| - 1] == NatToString(n / 10);
    }
  }

  /** A number below 10^k is printed with at most k digits. */
  lemma {:induction false} NatToStringLength(n: nat, k: nat)
    requires 1 <= k && n < Pow10(k)
    ensures |NatToString(n)| <= k
  {
    if n >= 10 {
      NatToStringLength(n / 10, k - 1);
    }
  }

  /** x * 10^k, by repeated multiplication by ten. */
  function ScaleUp(x: int, k: nat): int
  {
    if k == 0 then x else 10 * ScaleUp(x, k - 1)
  }

  lemma {:induction false} ScaleUpIsProduct(x: int, k: nat)
    ensures ScaleUp(x, k) == x * Pow10(k)
  {
    if k > 0 {
      ScaleUpIsProduct(x, k - 1);
      assert 10 * (x * Pow10(k - 1)) == x * (10 * Pow10(k - 1));
    }
  }

  /** a with its last k decimal digits dropped. */
  function DropDigits(a: nat, k: nat): nat
  {
    if k == 0 then a else DropDigits(a / 10, k - 1)
  }

  /** The digits DropDigits drops are the ones PadDigits keeps: together they give a back. */
  lemma {:induction false} DropDigitsSplit(a: nat, k: nat)
    ensures DigitsValue(PadDigits(a, k)) < Pow10(k)
    ensures DropDigits(a, k) * Pow10(k) + DigitsValue(PadDigits(a, k)) == a
  {
    if k > 0 {
      DropDigitsSplit(a / 10, k - 1);
      var s := PadDigits(a, k);
      assert s[..|s| - 1] == PadDigits(a / 10, k - 1);
      assert DigitsValue(s) == 10 * DigitsValue(PadDigits(a / 10, k - 1)) + a % 10;
      SplitStep(a, DropDigits(a / 10, k - 1), DigitsValue(PadDigits(a / 10, k - 1)), Pow10(k - 1));
    }
  }

  /** The arithmetic of one DropDigitsSplit step: splitting a / 10 at p splits a at 10 * p. */
  lemma SplitStep(a: nat, d: nat, r: nat, p: nat)
    requires d * p + r == a / 10 && r < p
    ensures d * (10 * p) + (10 * r + a % 10) == a && 10 * r + a % 10 < 10 * p
  {
    assert d * (10 * p) == 10 * (d * p);
  }

  /** d rounded to `places` decimals, half away from zero, as number_format rounds;
      the result counts units of 10^-places. */
  function RoundHalfAway(d: Decimal, places: nat): int
  {
    if d.scale <= places then ScaleUp(d.digits, places - d.scale)
    else
      var m := (DropDigits(Abs(d.digits), d.scale - places - 1) + 5) / 10;
      if d.digits < 0 then -m else m
  }

  /** The arithmetic of one rounding step: a = b * p + r0 is rounded to m tens of p,
      where m is b / 10 rounded half up. */
  lemma RoundStep(b: nat, p: nat, r0: nat, m: int, r1: nat)
    requires p >= 1 && r0 < p && r1 < 10 && b + 5 == 10 * m + r1
    ensures 2 * (m * (10 * p) - (b * p + r0)) <= 10 * p
    ensures 2 * ((b * p + r0) - m * (10 * p)) < 10 * p
  {
    assert m * (10 * p) == b * p + 5 * p - r1 * p;
    assert 0 <= r1 * p <= 9 * p;
  }

  /** RoundHalfAway picks the nearest multiple of 10^-places, and on a tie the
      one farther from zero; a value that already fits is kept exactly. */
  lemma RoundHalfAwayIsNearest(d: Decimal, places: nat)
    ensures d.scale <= places ==> RoundHalfAway(d, places) == d.digits * Pow10(places - d.scale)
    ensures d.scale > places ==>
              var q := Pow10(d.scale - places);
              var r := RoundHalfAway(d, places);
              2 * Abs(r * q - d.digits) <= q
              && (2 * Abs(r * q - d.digits) == q ==> Abs(r * q) > Abs(d.digits))
  {
    if d.scale <= places {
      ScaleUpIsProduct(d.digits, places - d.scale);
    } else {
      var k := d.scale - places;
      var q, p := Pow10(k), Pow10(k - 1);
      assert q == 10 * p;
      var a := Abs(d.digits);
      var b := DropDigits(a, k - 1);
      var r0 := DigitsValue(PadDigits(a, k - 1));
      DropDigitsSplit(a, k - 1);
      var m: int := (b + 5) / 10;
      assert RoundHalfAway(d, places) == if d.digits < 0 then -m else m;
      RoundStep(b, p, r0, m, (b + 5) % 10);
      assert m * q == m * (10 * p);
      SignedNearest(d.digits, m, q);
    }
  }

  /** Rounding the magnitude to the nearest (ties upward) and giving back the
      sign rounds the signed value to the nearest, ties away from zero. */
  lemma SignedNearest(x: int, m: int, q: nat)
    requires 2 * (m * q - Abs(x)) <= q && 2 * (Abs(x) - m * q) < q
    ensures var r := if x < 0 then -m else m;
            2 * Abs(r * q - x) <= q && (2 * Abs(r * q - x) == q ==> Abs(r * q) > Abs(x))
  {
    var r := if x < 0 then -m else m;
    if x < 0 {
      assert r * q == -(m * q);
    }
  }

  /** Inserts number_format's default thousands separator ',' between every group
      of three digits, counted from the right. */
  function Group(s: string): (r: string)
  {
    if |s| <= 3 then s else Group(s[..|s| - 3]) + "," + s[|s| - 3..]
  }

  function RemoveCommas(s: string): (r: string)
  {
    if s == [] then [] else RemoveCommas(s[..|s| - 1]) + (if s[|s| - 1] == ',' then "" else [s[|s| - 1]])
  }

  lemma {:induction false} RemoveCommasAppend(s: string, t: string)
    ensures RemoveCommas(s + t) == RemoveCommas(s) + RemoveCommas(t)
  {
    if t != [] {
      assert (s + t)[..|s + t| - 1] == s + t[..|t| - 1];
      assert (s + t)[|s + t| - 1] == t[|t| - 1];
      RemoveCommasAppend(s, t[..|t| - 1]);
    } else {
      assert s + t == s;
    }
  }

  lemma {:induction false} RemoveCommasOfDigits(s: string)
    requires AllDigits(s)
    ensures RemoveCommas(s) == s
  {
    if s != [] {
      RemoveCommasOfDigits(s[..|s| - 1]);
      assert IsDigit(s[|s| - 1]);
      assert s[..|s| - 1] + [s[|s| - 1]] == s;
    }
  }

  /** The separators Group inserts are all it adds: removing them gives the digits back. */
  lemma {:induction false} GroupRemoveCommas(s: string)
    requires AllDigits(s)
    ensures RemoveCommas(Group(s)) == s
  {
    if |s| <= 3 {
      RemoveCommasOfDigits(s);
    } else {
      var head, tail := s[..|s| - 3], s[|s| - 3..];
      GroupRemoveCommas(head);
      RemoveCommasAppend(Group(head) + ",", tail);
      RemoveCommasAppend(Group(head), ",");
      assert RemoveCommas(",") == "";
      RemoveCommasOfDigits(tail);
      assert head + tail == s;
    }
  }

  /** number_format's text for the already rounded value units / 10^places:
      a '-' only for a non-zero negative value, the integer part in groups of
      three, and exactly `places` decimals after a '.'. */
  function FormatFixed(units: int, places: nat): string
  {
    var a := Abs(units);
    (if units < 0 then "-" else "")
    + Group(NatToString(DropDigits(a, places)))
    + (if places == 0 then "" else "." + PadDigits(a, places))
  }

  /** PHP's number_format(d, places) with the default separators. */
  function NumberFormat(d: Decimal, places: nat): string
  {
    FormatFixed(RoundHalfAway(d, places), places)
  }

  /** The whitespace PHP allows around a numeric string. */
  predicate IsSpace(c: char)
  {
    c == ' ' || c == '\t' || c == '\n' || c == '\r' || c as int == 11 || c as int == 12
  }

  /** Length of the longest prefix of s made of digits. */
  function DigitRun(s: string): (n: nat)
    ensures n <= |s| && AllDigits(s[..n]) && (n == |s| || !IsDigit(s[n]))
  {
    if s == [] || !IsDigit(s[0]) then 0
    else
      var n := 1 + DigitRun(s[1..]);
      assert s[..n] == [s[0]] + s[1..][..n - 1];
      n
  }

  /** Length of the longest prefix of s made of whitespace. */
  function SpaceRun(s: string): (n: nat)
    ensures n <= |s| && (forall i :: 0 <= i < n ==> IsSpace(s[i])) && (n == |s| || !IsSpace(s[n]))
  {
    if s == [] || !IsSpace(s[0]) then 0 else 1 + SpaceRun(s[1..])
  }

  lemma AllDigitsAppend(s: string, t: string)
    requires AllDigits(s) && AllDigits(t)
    ensures AllDigits(s + t)
  {
  }

  datatype Scan = NoNumber | Number(value: Decimal, length: nat)

  /** Reads the longest prefix of s of the form digits[.digits] holding at least one digit. */
  function ScanUnsigned(s: string): (r: Scan)
    ensures r.Number? ==> 0 < r.length <= |s| && r.value.digits >= 0
  {
    var i := DigitRun(s);
    if i < |s| && s[i] == '.' then
      var j := DigitRun(s[i + 1..]);
      if i + j == 0 then NoNumber
      else
        AllDigitsAppend(s[..i], s[i + 1..][..j]);
        Number(Decimal(DigitsValue(s[..i] + s[i + 1..][..j]), j), i + 1 + j)
    else if i == 0 then NoNumber
    else Number(Decimal(DigitsValue(s[..i]), 0), i)
  }

  /** Reads the longest prefix of s of the form [+-]digits[.digits] holding at
      least one digit, as PHP's numeric-string and float parsers do (exponents
      are not read). */
  function ScanNumber(s: string): (r: Scan)
    ensures r.Number? ==> 0 < r.length <= |s|
  {
    if |s| > 0 && (s[0] == '-' || s[0] == '+') then
      match ScanUnsigned(s[1..])
      case NoNumber => NoNumber
      case Number(v, n) =>
        Number(if s[0] == '-' then Decimal(-v.digits, v.scale) else v, n + 1)
    else ScanUnsigned(s)
  }

  /** PHP's floatval: the numeric prefix after leading whitespace, or 0 when there is none. */
  function FloatVal(s: string): Decimal
  {
    if s != [] && IsSpace(s[0]) then FloatVal(s[1..])
    else
      match ScanNumber(s)
      case NoNumber => Decimal(0, 0)
      case Number(v, _) => v
  }

  /** PHP 8's loose `s == 1` for a string s: s is a numeric string (optional
      surrounding whitespace) whose value is exactly one. */
  predicate LooselyEqualsOne(s: string)
  {
    var k := SpaceRun(s);
    match ScanNumber(s[k..])
    case NoNumber => false
    case Number(v, n) =>
      k + n <= |s| && SpaceRun(s[k + n..]) == |s| - (k + n) && v.digits == Pow10(v.scale)
  }

  lemma DigitRunOfDigits(s: string)
    requires AllDigits(s)
    ensures DigitRun(s) == |s|
  {
  }

  lemma DigitRunStops(s: string, t: string)
    requires AllDigits(s) && t != [] && !IsDigit(t[0])
    ensures DigitRun(s + t) == |s|
  {
    assert (s + t)[|s|] == t[0];
  }

  lemma ScanInteger(ip: string)
    requires AllDigits(ip) && 1 <= |ip|
    ensures ScanUnsigned(ip) == Number(Decimal(DigitsValue(ip), 0), |ip|)
  {
    DigitRunOfDigits(ip);
    assert ip[..|ip|] == ip;
  }

  lemma ScanFraction(ip: string, frac: string)
    requires AllDigits(ip) && 1 <= |ip| && AllDigits(frac)
    ensures ScanUnsigned(ip + "." + frac) == Number(Decimal(DigitsValue(ip + frac), |frac|), |ip| + 1 + |frac|)
  {
    var s := ip + "." + frac;
    assert s == ip + ("." + frac);
    DigitRunStops(ip, "." + frac);
    var i := DigitRun(s);
    assert i == |ip| && s[i] == '.';
    var rest := s[i + 1..];
    assert rest == frac;
    DigitRunOfDigits(frac);
    var j := DigitRun(rest);
    assert j == |frac| && rest[..j] == frac;
    assert s[..i] == ip;
    assert s[..i] + rest[..j] == ip + frac;
    assert ScanUnsigned(s) == Number(Decimal(DigitsValue(s[..i] + rest[..j]), j), i + 1 + j);
  }

  lemma ScanSigned(sign: string, t: string)
    requires sign == "" || sign == "-"
    requires t != [] && IsDigit(t[0])
    ensures ScanNumber(sign + t) == match ScanUnsigned(t)
                                    case NoNumber => NoNumber
                                    case Number(v, n) =>
                                      if sign == "" then Number(v, n)
                                      else Number(Decimal(-v.digits, v.scale), n + 1)
  {
    if sign == "-" {
      assert (sign + t)[1..] == t;
    } else {
      assert sign + t == t;
    }
  }

  /** Reading back what number_format printed gives the rounded value exactly,
      as long as no thousands separator was printed (magnitude below 1000). */
  lemma FormatFixedUngrouped(units: int, places: nat)
    requires DropDigits(Abs(units), places) < 1000
    ensures var a := Abs(units);
            var ip := NatToString(DropDigits(a, places));
            FormatFixed(units, places)
            == (if units < 0 then "-" else "") + (if places == 0 then ip else ip + "." + PadDigits(a, places))
  {
    assert Pow10(3) == 1000;
    NatToStringLength(DropDigits(Abs(units), places), 3);
  }

  /** The digits of a number_format text without separators read back as a
      magnitude: the integer part and the decimals together. */
  lemma UngroupedMagnitude(a: nat, places: nat)
    ensures var ip, frac := NatToString(DropDigits(a, places)), PadDigits(a, places);
            AllDigits(ip + frac) && DigitsValue(ip + frac) == a
  {
    var ip, frac := NatToString(DropDigits(a, places)), PadDigits(a, places);
    NatToStringValue(DropDigits(a, places));
    DigitsValueAppend(ip, frac);
    DropDigitsSplit(a, places);
  }

  /** Reading back what number_format printed gives the rounded value exactly,
      as long as no thousands separator was printed (magnitude below 1000). */
  lemma FloatValOfFormatFixed(units: int, places: nat)
    requires DropDigits(Abs(units), places) < 1000
    ensures FloatVal(FormatFixed(units, places)) == Decimal(units, places)
  {
    var a := Abs(units);
    var ip := NatToString(DropDigits(a, places));
    FormatFixedUngrouped(units, places);
    var sign := if units < 0 then "-" else "";
    var t := if places == 0 then ip else ip + "." + PadDigits(a, places);
    var s := FormatFixed(units, places);
    assert s == sign + t;
    assert t[0] == ip[0];
    assert !IsSpace(s[0]);
    ScanSigned(sign, t);
    UngroupedMagnitude(a, places);
    if places == 0 {
      ScanInteger(ip);
      assert ip + PadDigits(a, 0) == ip;
    } else {
      ScanFraction(ip, PadDigits(a, places));
    }
  }

  /** The bytes PHP's strlen counts for one character of a UTF-8 string. */
  function Utf8Width(c: char): nat
  {
    if c as int < 0x80 then 1 else if c as int < 0x800 then 2 else if c as int < 0x10000 then 3 else 4
  }

  /** PHP's strlen of a UTF-8 encoded string: its length in bytes. */
  function StrLen(s: string): nat
  {
    if s == [] then 0 else StrLen(s[..|s| - 1]) + Utf8Width(s[|s| - 1])
  }

  predicate IsAscii(s: string)
  {
    forall i :: 0 <= i < |s| ==> s[i] as int < 0x80
  }

  /** strlen counts at least one and at most four bytes per character, and
      exactly one per character precisely when the string is ASCII. */
  lemma {:induction false} StrLenBounds(s: string)
    ensures |s| <= StrLen(s) <= 4 * |s|
    ensures StrLen(s) == |s| <==> IsAscii(s)
  {
    if s != [] {
      var init := s[..|s| - 1];
      StrLenBounds(init);
      if IsAscii(s) {
        assert IsAscii(init) by {
          forall i | 0 <= i < |init| ensures init[i] as int < 0x80 { assert init[i] == s[i]; }
        }
      }
      if StrLen(s) == |s| {
        forall i | 0 <= i < |s| ensures s[i] as int < 0x80 {
          if i < |init| { assert s[i] == init[i]; }
        }
      }
    }
  }
}
