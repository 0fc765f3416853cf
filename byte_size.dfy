/** `format_bytes` (aicoder/cli/util.py): a byte count is shown as a
    comma-grouped integer below 1024, and otherwise scaled down by powers of
    1024 to the first of KB, MB, GB under 1024, with TB as the last unit. */
module ByteSize {
  import opened PyStr

  datatype Unit = KB | MB | GB | TB

  /** What `format_bytes` returns: the finished text for a plain byte count,
      or the scaled amount and its unit, which Python renders with
      `f"{amount:.1f} {unit}"`. */
  datatype Size = InBytes(text: String) | Scaled(amount: real, unit: Unit)

  /** The number of bytes one of `u` holds. */
  function Scale(u: Unit): real {
    match u
    case KB => 1024.0
    case MB => 1048576.0
    case GB => 1073741824.0
    case TB => 1099511627776.0
  }

  function Rank(u: Unit): nat {
    match u
    case KB => 1
    case MB => 2
    case GB => 3
    case TB => 4
  }

  function DigitChar(d: nat): (c: char)
    requires d < 10
    ensures '0' <= c <= '9'
  {
    ('0' as int + d) as char
  }

  /** `str(n)` for a natural number. */
  function Digits(n: nat): (s: String)
    ensures s != [] && forall k :: 0 <= k < |s| ==> '0' <= s[k] <= '9'
  {
    if n < 10 then [DigitChar(n)] else Digits(n / 10) + [DigitChar(n % 10)]
  }

  /** The value a string of decimal digits denotes. */
  function DigitsValue(s: String): nat
    requires forall k :: 0 <= k < |s| ==> '0' <= s[k] <= '9'
  {
    if s == [] then 0
    else DigitsValue(s[..|s| - 1]) * 10 + (s[|s| - 1] as int - '0' as int)
  }

  /** `str` and reading the digits back agree. */
  lemma {:induction false} DigitsRoundTrip(n: nat)
    ensures DigitsValue(Digits(n)) == n
  {
    if n >= 10 {
      DigitsRoundTrip(n / 10);
      var s := Digits(n);
      assert s[..|s| - 1] == Digits(n / 10);
    }
  }

  /** `str(n)` has no leading zero. */
  lemma {:induction false} DigitsNoLeadingZero(n: nat)
    ensures Digits(n)[0] == '0' <==> n == 0
  {
    if n >= 10 {
      DigitsNoLeadingZero(n / 10);
    }
  }

  /** Three digits, zero-padded: `f"{n:03}"`. */
  function Pad3(n: nat): (s: String)
    requires n < 1000
    ensures |s| == 3
  {
    [DigitChar(n / 100), DigitChar(n / 10 % 10), DigitChar(n % 10)]
  }

  /** The `,` format of a natural number: groups of three digits from the
      right, separated by commas. */
  function Grouped(n: nat): String {
    if n < 1000 then Digits(n) else Grouped(n / 1000) + "," + Pad3(n % 1000)
  }

  /** `f"{n:,}"`: the sign, then the grouped magnitude. */
  function FormatInt(n: int): String {
    if n < 0 then "-" + Grouped(-n) else Grouped(n)
  }

  /** The string without its commas. */
  function Ungroup(s: String): (r: String)
    ensures forall k :: 0 <= k < |r| ==> r[k] != ','
  {
    if s == [] then []
    else if s[0] == ',' then Ungroup(s[1..])
    else [s[0]] + Ungroup(s[1..])
  }

  lemma {:induction false} UngroupConcat(x: String, y: String)
    ensures Ungroup(x + y) == Ungroup(x) + Ungroup(y)
  {
    if x == [] {
      assert x + y == y;
    } else {
      assert (x + y)[0] == x[0] && (x + y)[1..] == x[1..] + y;
      UngroupConcat(x[1..], y);
    }
  }

  lemma {:induction false} UngroupDigits(s: String)
    requires forall k :: 0 <= k < |s| ==> '0' <= s[k] <= '9'
    ensures Ungroup(s) == s
  {
    if s != [] {
      UngroupDigits(s[1..]);
    }
  }

  /** Dividing by 10 three times is dividing by 1000, and the digits of the
      remainder mod 1000 are the last three digits. */
  lemma ThreeDigits(n: nat)
    ensures n / 10 / 10 == n / 100 && n / 100 / 10 == n / 1000
    ensures n % 1000 / 100 == n / 100 % 10
    ensures n % 1000 / 10 % 10 == n / 10 % 10
    ensures n % 1000 % 10 == n % 10
  {
    var q, r := n / 1000, n % 1000;
    var a, b, c := r / 100, r / 10 % 10, r % 10;
    assert r == 100 * a + 10 * b + c;
    assert n == 1000 * q + 100 * a + 10 * b + c;
    assert n / 10 == 100 * q + 10 * a + b;
    assert n / 100 == 10 * q + a;
  }

  /** The last three digits of `str(n)`, for `n` of four digits or more. */
  lemma DigitsSplit(n: nat)
    requires n >= 1000
    ensures Digits(n) == Digits(n / 1000) + Pad3(n % 1000)
  {
    ThreeDigits(n);
    var d0, d1, d2 := DigitChar(n % 10), DigitChar(n / 10 % 10), DigitChar(n / 100 % 10);
    assert Digits(n) == Digits(n / 10) + [d0];
    assert Digits(n / 10) == Digits(n / 100) + [d1];
    assert Digits(n / 100) == Digits(n / 1000) + [d2];
    assert Pad3(n % 1000) == [d2, d1, d0];
    assert Digits(n / 1000) + [d2] + [d1] + [d0] == Digits(n / 1000) + [d2, d1, d0];
  }

  /** Taking the commas out of the grouped form gives plain `str(n)`, so
      the grouping shows exactly the value. */
  lemma {:induction false} GroupedDigits(n: nat)
    ensures Ungroup(Grouped(n)) == Digits(n)
  {
    if n < 1000 {
      UngroupDigits(Digits(n));
    } else {
      GroupedDigits(n / 1000);
      UngroupConcat(Grouped(n / 1000) + ",", Pad3(n % 1000));
      UngroupConcat(Grouped(n / 1000), ",");
      UngroupDigits(Pad3(n % 1000));
      DigitsSplit(n);
    }
  }

  /** Commas appear only from 1000 on. */
  lemma {:induction false} GroupedSmall(n: nat)
    requires n < 1000
    ensures ',' !in Grouped(n)
  {
    var s := Digits(n);
    assert forall k :: 0 <= k < |s| ==> s[k] != ',';
  }

  /** `format_bytes(size_in_bytes)`. The divisions are exact here: dividing
      by 1024 loses nothing, and every threshold compared against is a power
      of two below 2^53, so the float comparisons agree with these. */
  function FormatBytes(size: int): (r: Size)
    ensures r.InBytes? <==> size < 1024
    ensures r.Scaled? ==> r.amount * Scale(r.unit) == size as real
    ensures r.Scaled? ==> 1.0 <= r.amount && (r.unit != TB ==> r.amount < 1024.0)
  {
    if size < 1024 then InBytes(FormatInt(size) + " bytes")
    else
      var kb := size as real / 1024.0;
      if kb < 1024.0 then Scaled(kb, KB)
      else
        var mb := kb / 1024.0;
        if mb < 1024.0 then Scaled(mb, MB)
        else
          var gb := mb / 1024.0;
          if gb < 1024.0 then Scaled(gb, GB)
          else Scaled(gb / 1024.0, TB)
  }

  /** The unit's name as printed. */
  function UnitName(u: Unit): String {
    match u
    case KB => "KB"
    case MB => "MB"
    case GB => "GB"
    case TB => "TB"
  }

  /** The number of tenths `.1f` shows for a non-negative amount: the
      nearest one, a tie going to the even count. The amounts here are exact
      binary fractions, so this is the rounding of the exact value. */
  function Tenths(x: real): (n: nat)
    requires x >= 0.0
    ensures -0.5 <= n as real - x * 10.0 <= 0.5
    ensures n as real - x * 10.0 == 0.5 || n as real - x * 10.0 == -0.5 ==> n % 2 == 0
  {
    var f := (x * 10.0).Floor;
    var frac := x * 10.0 - f as real;
    if frac > 0.5 || (frac == 0.5 && f % 2 == 1) then f + 1 else f
  }

  /** `f"{x:.1f}"` for a non-negative amount: the whole part, a point and
      one digit. */
  function OneDecimal(x: real): String
    requires x >= 0.0
  {
    var n := Tenths(x);
    Digits(n / 10) + "." + [DigitChar(n % 10)]
  }

  /** The text `format_bytes(size_in_bytes)` returns. */
  function FormatBytesText(size: int): String {
    match FormatBytes(size)
    case InBytes(t) => t
    case Scaled(a, u) => OneDecimal(a) + " " + UnitName(u)
  }

  /** From 1024 bytes on, the text is a run of digits, a point, exactly one
      digit, a space and the unit, and the number it shows is the amount to
      the nearest tenth. */
  lemma OneDecimalPlace(size: int)
    requires size >= 1024
    ensures var r, u := FormatBytesText(size), FormatBytes(size).unit;
      var k := |r| - |UnitName(u)| - 1;
      3 <= k && r[k..] == " " + UnitName(u) && r[k - 2] == '.' && '0' <= r[k - 1] <= '9' &&
      (forall i :: 0 <= i < k - 2 ==> '0' <= r[i] <= '9') &&
      var shown := DigitsValue(r[..k - 2]) as real + (r[k - 1] as int - '0' as int) as real / 10.0;
      -0.05 <= shown - FormatBytes(size).amount <= 0.05
  {
    var a, u := FormatBytes(size).amount, FormatBytes(size).unit;
    var n := Tenths(a);
    var whole := Digits(n / 10);
    var r := FormatBytesText(size);
    assert r == whole + "." + [DigitChar(n % 10)] + " " + UnitName(u);
    var k := |whole| + 2;
    assert |r| == k + 1 + |UnitName(u)|;
    assert r[..k - 2] == whole;
    DigitsRoundTrip(n / 10);
    assert n == n / 10 * 10 + n % 10;
  }

  /** An amount just under 1024 rounds up in the text: one byte short of a
      mebibyte reads as 1024.0 KB, not 1.0 MB. */
  lemma RoundsUpToUnitSize()
    ensures FormatBytes(1048575) == Scaled(1048575.0 / 1024.0, KB)
    ensures FormatBytesText(1048575) == "1024.0 KB"
  {
    assert Tenths(1048575.0 / 1024.0) == 10240;
    assert Digits(1024) == "1024";
  }

  /** Ties go to the even tenth: 1280 bytes is exactly 1.25 KB and reads as
      1.2 KB. */
  lemma TieToEven()
    ensures FormatBytesText(1280) == "1.2 KB"
  {
    assert Tenths(1.25) == 12;
  }

  /** Below 1024 the exact count is shown: a minus sign for a negative
      count, then the magnitude with comma grouping, whose digits read back
      give the magnitude. */
  lemma SmallSizeExact(size: int)
    requires size < 1024
    ensures var mag := if size < 0 then -size else size;
      FormatBytes(size) == InBytes((if size < 0 then "-" else "") + Grouped(mag) + " bytes") &&
      Ungroup(Grouped(mag)) == Digits(mag) && DigitsValue(Digits(mag)) == mag
  {
    var mag := if size < 0 then -size else size;
    GroupedDigits(mag);
    DigitsRoundTrip(mag);
    if size >= 0 {
      assert "" + Grouped(mag) == Grouped(mag);
    }
  }

  /** The unit is chosen by integer thresholds: KB from 1024, MB from 1024^2,
      GB from 1024^3 and TB from 1024^4 on, with nothing larger. */
  lemma UnitThresholds(size: int)
    requires size >= 1024
    ensures FormatBytes(size).Scaled?
    ensures FormatBytes(size).unit == KB <==> size < 1048576
    ensures FormatBytes(size).unit == MB <==> 1048576 <= size < 1073741824
    ensures FormatBytes(size).unit == GB <==> 1073741824 <= size < 1099511627776
    ensures FormatBytes(size).unit == TB <==> 1099511627776 <= size
  {
  }

  /** A larger size never gets a smaller unit. */
  lemma UnitMonotone(a: int, b: int)
    requires 1024 <= a <= b
    ensures Rank(FormatBytes(a).unit) <= Rank(FormatBytes(b).unit)
  {
    UnitThresholds(a);
    UnitThresholds(b);
  }
}
