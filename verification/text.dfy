/**
 Strings as the dashboard builds and compares them: Python's code-point
 lexicographic order on `str`, decimal formatting of integers with the
 `{:0Nd}` zero-padding format, and `YYYY-MM-DD` date strings.
 */
module Text {

  /** Python's `a <= b` on two `str` values: code-point lexicographic order. */
  predicate LexLe(a: string, b: string)
  {
    |a| == 0 || (|b| > 0 && (a[0] < b[0] || (a[0] == b[0] && LexLe(a[1..], b[1..]))))
  }

  lemma {:induction false} LexLeReflexive(a: string)
    ensures LexLe(a, a)
  {
    if |a| > 0 {
      LexLeReflexive(a[1..]);
    }
  }

  lemma {:induction false} LexLeTotal(a: string, b: string)
    ensures LexLe(a, b) || LexLe(b, a)
  {
    if |a| > 0 && |b| > 0 && a[0] == b[0] {
      LexLeTotal(a[1..], b[1..]);
    }
  }

  lemma {:induction false} LexLeTransitive(a: string, b: string, c: string)
    requires LexLe(a, b) && LexLe(b, c)
    ensures LexLe(a, c)
  {
    if |a| > 0 && |b| > 0 && |c| > 0 && a[0] == b[0] && b[0] == c[0] {
      LexLeTransitive(a[1..], b[1..], c[1..]);
    }
  }

  lemma {:induction false} LexLeAntisymmetric(a: string, b: string)
    requires LexLe(a, b) && LexLe(b, a)
    ensures a == b
  {
    if |a| > 0 && |b| > 0 {
      LexLeAntisymmetric(a[1..], b[1..]);
      assert a == [a[0]] + a[1..];
      assert b == [b[0]] + b[1..];
    }
  }

  /**
   Comparing two concatenations whose first parts have the same length: the
   first parts decide unless they are equal, then the second parts decide.
   */
  lemma {:induction false} LexLeConcat(a: string, c: string, b: string, d: string)
    requires |a| == |b|
    ensures LexLe(a + c, b + d) <==> (a != b && LexLe(a, b)) || (a == b && LexLe(c, d))
  {
    if |a| > 0 {
      assert (a + c)[0] == a[0] && (a + c)[1..] == a[1..] + c;
      assert (b + d)[0] == b[0] && (b + d)[1..] == b[1..] + d;
      LexLeConcat(a[1..], c, b[1..], d);
      assert a == [a[0]] + a[1..];
      assert b == [b[0]] + b[1..];
    } else {
      assert a + c == c && b + d == d;
    }
  }

  predicate IsDigit(c: char)
  {
    '0' <= c <= '9'
  }

  predicate AllDigits(s: string)
  {
    forall i :: 0 <= i < |s| ==> IsDigit(s[i])
  }

  function DigitChar(d: nat): (c: char)
    requires d < 10
    ensures IsDigit(c)
    ensures DigitValue(c) == d
  {
    (('0' as int) + d) as char
  }

  function DigitValue(c: char): (d: nat)
    requires IsDigit(c)
    ensures d < 10
  {
    (c as int) - ('0' as int)
  }

  /** Python's `str(n)` for a non-negative integer: its shortest decimal spelling. */
  function Decimal(n: nat): (s: string)
    ensures |s| >= 1
    ensures AllDigits(s)
    decreases n
  {
    if n < 10 then [DigitChar(n)] else Decimal(n / 10) + [DigitChar(n % 10)]
  }

  /** The number a string of decimal digits denotes (leading zeros allowed). */
  function DecimalValue(s: string): nat
    requires AllDigits(s)
  {
    if |s| == 0 then 0 else DecimalValue(s[..|s| - 1]) * 10 + DigitValue(s[|s| - 1])
  }

  /** Reading back the decimal spelling of `n` gives `n`. */
  lemma {:induction false} DecimalRoundTrip(n: nat)
    ensures DecimalValue(Decimal(n)) == n
    decreases n
  {
    var s := Decimal(n);
    if n >= 10 {
      DecimalRoundTrip(n / 10);
      assert s[..|s| - 1] == Decimal(n / 10);
    }
  }

  function Zeros(k: nat): (z: string)
    ensures |z| == k
    ensures AllDigits(z)
  {
    seq(k, _ => '0')
  }

  /** Python's `f"{n:0{width}d}"`: `str(n)` left-padded with zeros to at least `width` characters. */
  function ZeroPad(n: nat, width: nat): (s: string)
    ensures AllDigits(s)
    ensures |s| >= width
  {
    var d := Decimal(n);
    if |d| >= width then d else Zeros(width - |d|) + d
  }

  function Pow10(k: nat): (p: nat)
    ensures p >= 1
  {
    if k == 0 then 1 else 10 * Pow10(k - 1)
  }

  /** Exactly `width` digits of `n`, most significant first (a reference definition for padding). */
  function Fixed(n: nat, width: nat): (s: string)
    ensures |s| == width
    ensures AllDigits(s)
  {
    if width == 0 then [] else Fixed(n / 10, width - 1) + [DigitChar(n % 10)]
  }

  /** The `width` digits of a number below 10^width read back as that number. */
  lemma {:induction false} FixedValue(n: nat, width: nat)
    requires n < Pow10(width)
    ensures DecimalValue(Fixed(n, width)) == n
  {
    if width > 0 {
      var q, r := n / 10, n % 10;
      var p := Pow10(width - 1);
      assert Pow10(width) == 10 * p;
      assert n == q * 10 + r && r < 10;
      assert q < p;
      FixedValue(q, width - 1);
      var t := Fixed(q, width - 1);
      assert Fixed(n, width) == t + [DigitChar(r)];
      DecimalValueSnoc(t, DigitChar(r));
    }
  }

  /** Appending a digit multiplies the value by ten and adds the digit. */
  lemma DecimalValueSnoc(t: string, c: char)
    requires AllDigits(t) && IsDigit(c)
    ensures AllDigits(t + [c])
    ensures DecimalValue(t + [c]) == DecimalValue(t) * 10 + DigitValue(c)
  {
    assert (t + [c])[..|t|] == t;
  }

  lemma {:induction false} FixedZero(width: nat)
    ensures Fixed(0, width) == Zeros(width)
  {
    if width > 0 {
      FixedZero(width - 1);
      assert Zeros(width) == Zeros(width - 1) + ['0'];
    }
  }

  lemma {:induction false} DecimalLength(n: nat, k: nat)
    requires n < Pow10(k)
    ensures |Decimal(n)| <= k || (k == 0 && n == 0)
    decreases n
  {
    if n >= 10 {
      assert k >= 1 && n / 10 < Pow10(k - 1);
      DecimalLength(n / 10, k - 1);
    }
  }

  /** For a number below 10^width, zero-padding to `width` gives exactly its `width` digits. */
  lemma {:induction false} ZeroPadIsFixed(n: nat, width: nat)
    requires width >= 1 && n < Pow10(width)
    ensures ZeroPad(n, width) == Fixed(n, width)
    decreases width
  {
    DecimalLength(n, width);
    var d := Decimal(n);
    if n < 10 {
      assert d == [DigitChar(n)];
      FixedZero(width - 1);
      assert Fixed(n, width) == Fixed(0, width - 1) + [DigitChar(n)];
    } else {
      var d' := Decimal(n / 10);
      assert d == d' + [DigitChar(n % 10)];
      ZeroPadIsFixed(n / 10, width - 1);
      if |d| < width {
        assert Zeros(width - |d|) + d == (Zeros(width - 1 - |d'|) + d') + [DigitChar(n % 10)];
      }
    }
  }

  /** The zero-padded spelling reads back as the number, whatever the width. */
  lemma ZeroPadValue(n: nat, width: nat)
    ensures DecimalValue(ZeroPad(n, width)) == n
  {
    var d := Decimal(n);
    DecimalRoundTrip(n);
    if |d| < width {
      LeadingZerosValue(width - |d|, d);
      assert ZeroPad(n, width) == Zeros(width - |d|) + d;
    } else {
      assert ZeroPad(n, width) == d;
    }
  }

  lemma {:induction false} ZerosValue(k: nat)
    ensures DecimalValue(Zeros(k)) == 0
  {
    if k > 0 {
      assert Zeros(k)[..k - 1] == Zeros(k - 1);
      ZerosValue(k - 1);
    }
  }

  /** Leading zeros do not change the value of a digit string. */
  lemma {:induction false} LeadingZerosValue(k: nat, s: string)
    requires AllDigits(s)
    ensures AllDigits(Zeros(k) + s)
    ensures DecimalValue(Zeros(k) + s) == DecimalValue(s)
  {
    var t := Zeros(k) + s;
    assert forall i :: 0 <= i < |t| ==> IsDigit(t[i]) by {
      forall i | 0 <= i < |t| ensures IsDigit(t[i]) {
        if i >= k { assert t[i] == s[i - k]; }
      }
    }
    if |s| == 0 {
      assert t == Zeros(k);
      ZerosValue(k);
    } else {
      assert t[..|t| - 1] == Zeros(k) + s[..|s| - 1];
      assert t[|t| - 1] == s[|s| - 1];
      LeadingZerosValue(k, s[..|s| - 1]);
    }
  }

  /**
   Two numbers below 10^width, written with exactly `width` digits, compare as
   strings exactly as they compare as numbers.
   */
  lemma {:induction false} FixedOrder(x: nat, y: nat, width: nat)
    requires x < Pow10(width) && y < Pow10(width)
    ensures LexLe(Fixed(x, width), Fixed(y, width)) <==> x <= y
  {
    if width > 0 {
      var p := Pow10(width - 1);
      assert Pow10(width) == 10 * p;
      var qx, rx, qy, ry := x / 10, x % 10, y / 10, y % 10;
      assert x == 10 * qx + rx && y == 10 * qy + ry;
      assert qx < p && qy < p;
      var a, b := Fixed(qx, width - 1), Fixed(qy, width - 1);
      assert Fixed(x, width) == a + [DigitChar(rx)];
      assert Fixed(y, width) == b + [DigitChar(ry)];
      FixedOrder(qx, qy, width - 1);
      FixedValue(qx, width - 1);
      FixedValue(qy, width - 1);
      assert a == b <==> qx == qy;
      LexLeConcat(a, [DigitChar(rx)], b, [DigitChar(ry)]);
      DigitOrder(rx, ry);
    } else {
      assert x == 0 && y == 0;
    }
  }

  /** One-digit strings compare as their digits. */
  lemma DigitOrder(x: nat, y: nat)
    requires x < 10 && y < 10
    ensures LexLe([DigitChar(x)], [DigitChar(y)]) <==> x <= y
  {
    var a, b := [DigitChar(x)], [DigitChar(y)];
    assert a[1..] == [] && b[1..] == [];
  }

  /** Zero-padded numbers below 10^width compare as strings as they compare as numbers. */
  lemma ZeroPadOrder(x: nat, y: nat, width: nat)
    requires width >= 1 && x < Pow10(width) && y < Pow10(width)
    ensures |ZeroPad(x, width)| == width
    ensures LexLe(ZeroPad(x, width), ZeroPad(y, width)) <==> x <= y
  {
    ZeroPadIsFixed(x, width);
    ZeroPadIsFixed(y, width);
    FixedOrder(x, y, width);
  }

  /** A calendar date as (year, month, day); no calendar arithmetic is modelled. */
  datatype Date = Date(year: nat, month: nat, day: nat)

  /** Four-digit year, and month and day that fit two digits. */
  predicate WellFormedDate(d: Date)
  {
    1000 <= d.year <= 9999 && 1 <= d.month <= 12 && 1 <= d.day <= 31
  }

  /** Chronological order of dates. */
  predicate DateLe(a: Date, b: Date)
  {
    a.year < b.year
    || (a.year == b.year && (a.month < b.month || (a.month == b.month && a.day <= b.day)))
  }

  /**
   The `YYYY-MM-DD` spelling of a date: `strftime('%Y-%m-%d')`, and also
   `f"{y}-{m:02d}-{d:02d}"` for the four-digit years the dashboard draws.
   */
  function FormatDate(d: Date): string
  {
    ZeroPad(d.year, 4) + "-" + ZeroPad(d.month, 2) + "-" + ZeroPad(d.day, 2)
  }

  /** Two zero-padded fields of the same width: equal exactly when the numbers are, ordered as the numbers. */
  lemma PaddedField(x: nat, y: nat, width: nat)
    requires width >= 1 && x < Pow10(width) && y < Pow10(width)
    ensures |ZeroPad(x, width)| == |ZeroPad(y, width)| == width
    ensures LexLe(ZeroPad(x, width), ZeroPad(y, width)) <==> x <= y
    ensures ZeroPad(x, width) == ZeroPad(y, width) <==> x == y
  {
    ZeroPadOrder(x, y, width);
    ZeroPadOrder(y, x, width);
    ZeroPadValue(x, width);
    ZeroPadValue(y, width);
  }

  /** Two dash-separated strings whose first fields have the same length compare field by field. */
  lemma DashFields(x: string, r: string, y: string, t: string)
    requires |x| == |y|
    ensures LexLe(x + ("-" + r), y + ("-" + t)) <==> (x != y && LexLe(x, y)) || (x == y && LexLe(r, t))
  {
    LexLeConcat(x, "-" + r, y, "-" + t);
    LexLeConcat("-", r, "-", t);
  }

  /** The date string as year, then the dash-led rest. */
  lemma FormatDateParts(d: Date)
    ensures FormatDate(d) == ZeroPad(d.year, 4) + ("-" + (ZeroPad(d.month, 2) + ("-" + ZeroPad(d.day, 2))))
  {
    DashJoin(ZeroPad(d.year, 4), ZeroPad(d.month, 2), ZeroPad(d.day, 2));
  }

  lemma DashJoin(y: string, m: string, d: string)
    ensures y + "-" + m + "-" + d == y + ("-" + (m + ("-" + d)))
  {
  }

  lemma Pow10Small()
    ensures Pow10(2) == 100 && Pow10(4) == 10000
  {
    assert Pow10(1) == 10 && Pow10(2) == 100 && Pow10(3) == 1000;
  }

  /** The date strings sort as strings exactly in chronological order. */
  lemma DateStringOrder(a: Date, b: Date)
    requires WellFormedDate(a) && WellFormedDate(b)
    ensures LexLe(FormatDate(a), FormatDate(b)) <==> DateLe(a, b)
  {
    Pow10Small();
    PaddedField(a.year, b.year, 4);
    PaddedField(a.month, b.month, 2);
    PaddedField(a.day, b.day, 2);
    FormatDateParts(a);
    FormatDateParts(b);
    var ma, mb := ZeroPad(a.month, 2), ZeroPad(b.month, 2);
    var da, db := ZeroPad(a.day, 2), ZeroPad(b.day, 2);
    DashFields(ma, da, mb, db);
    DashFields(ZeroPad(a.year, 4), ma + ("-" + da), ZeroPad(b.year, 4), mb + ("-" + db));
  }
}
