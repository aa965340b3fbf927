/** `myutils.CountDecimalPlaces`: the number of significant decimals of a decimal string, computed by
    trimming zeros and splitting at the point, against its arithmetic meaning. */
module DecimalPlaces {

  /** `strings.TrimRight(s, "0")`. */
  function TrimZeros(s: string): string {
    if s != "" && s[|s| - 1] == '0' then TrimZeros(s[..|s| - 1]) else s
  }

  /** `strings.Split(s, ".")`. */
  function SplitAtPoints(s: string): (parts: seq<string>)
    ensures |parts| > 0
  {
    if s == "" then [""]
    else
      var rest := SplitAtPoints(s[1..]);
      if s[0] == '.' then [""] + rest else [[s[0]] + rest[0]] + rest[1..]
  }

  function CountDecimalPlaces(str: string): nat {
    var parts := SplitAtPoints(TrimZeros(str));
    if |parts| == 2 then |parts[1]| else 0
  }

  // ----- the meaning of a decimal string

  predicate IsDigits(s: string) {
    forall i :: 0 <= i < |s| ==> '0' <= s[i] <= '9'
  }

  /** The number that a string of digits denotes. */
  function Value(s: string): nat
    requires IsDigits(s)
  {
    if s == "" then 0 else 10 * Value(s[..|s| - 1]) + (s[|s| - 1] - '0') as int
  }

  function Pow10(k: nat): (r: nat)
    ensures r > 0
  {
    if k == 0 then 1 else 10 * Pow10(k - 1)
  }

  function Times(d: int, q: int): int { d * q }

  ghost predicate Divides(d: int, n: int) {
    exists q :: Times(d, q) == n
  }

  /** whole.fraction times 10^k is an integer. */
  ghost predicate IntegralAt(whole: string, fraction: string, k: nat)
    requires IsDigits(whole) && IsDigits(fraction)
  {
    Divides(Pow10(|fraction|), Value(whole + fraction) * Pow10(k))
  }

  // ----- strings

  lemma {:induction false} SplitNone(s: string)
    requires forall i :: 0 <= i < |s| ==> s[i] != '.'
    ensures SplitAtPoints(s) == [s]
  {
    if s != "" {
      SplitNone(s[1..]);
      assert [s[0]] + s[1..] == s;
    }
  }

  lemma {:induction false} SplitOne(a: string, b: string)
    requires (forall i :: 0 <= i < |a| ==> a[i] != '.') && (forall i :: 0 <= i < |b| ==> b[i] != '.')
    ensures SplitAtPoints(a + "." + b) == [a, b]
  {
    var s := a + "." + b;
    if a == "" {
      assert s[1..] == b;
      SplitNone(b);
    } else {
      assert s[1..] == a[1..] + "." + b;
      SplitOne(a[1..], b);
      assert [a[0]] + a[1..] == a;
    }
  }

  /** The trailing zeros of the fraction are what trimming removes. */
  lemma {:induction false} TrimFraction(prefix: string, fraction: string) returns (kept: string)
    ensures TrimZeros(prefix + "." + fraction) == prefix + "." + kept
    ensures |kept| <= |fraction| && kept == fraction[..|kept|]
    ensures forall i :: |kept| <= i < |fraction| ==> fraction[i] == '0'
    ensures kept != "" ==> kept[|kept| - 1] != '0'
    decreases |fraction|
  {
    var s := prefix + "." + fraction;
    if fraction != "" && fraction[|fraction| - 1] == '0' {
      assert s[..|s| - 1] == prefix + "." + fraction[..|fraction| - 1];
      kept := TrimFraction(prefix, fraction[..|fraction| - 1]);
    } else {
      kept := fraction;
    }
  }

  // ----- arithmetic

  lemma {:induction false} Pow10Add(a: nat, b: nat)
    ensures Pow10(a + b) == Pow10(a) * Pow10(b)
  {
    if a > 0 {
      Pow10Add(a - 1, b);
      assert 10 * (Pow10(a - 1) * Pow10(b)) == (10 * Pow10(a - 1)) * Pow10(b);
    }
  }

  lemma {:induction false} TrailingZeros(s: string, z: string)
    requires IsDigits(s) && IsDigits(z) && forall i :: 0 <= i < |z| ==> z[i] == '0'
    ensures IsDigits(s + z) && Value(s + z) == Value(s) * Pow10(|z|)
    decreases |z|
  {
    if z == "" {
      assert s + z == s;
    } else {
      assert (s + z)[..|s + z| - 1] == s + z[..|z| - 1];
      TrailingZeros(s, z[..|z| - 1]);
      Regroup(10, Value(s), Pow10(|z| - 1));
    }
  }

  lemma DividesCancel(d: int, n: int, c: int)
    requires c > 0
    ensures Divides(d * c, n * c) <==> Divides(d, n)
  {
    if Divides(d * c, n * c) {
      var q :| Times(d * c, q) == n * c;
      assert c * (d * q) == c * n;
      MulCancel(c, d * q, n);
      assert Times(d, q) == n;
    }
    if Divides(d, n) {
      var q :| Times(d, q) == n;
      assert (d * c) * q == (d * q) * c;
      assert Times(d * c, q) == n * c;
    }
  }

  lemma MulCancel(c: int, x: int, y: int)
    requires c > 0 && c * x == c * y
    ensures x == y
  {
    assert c * (x - y) == 0 && c * (y - x) == 0;
    if x > y {
      MulPositive(c, x - y);
    } else if x < y {
      MulPositive(c, y - x);
    }
  }

  lemma MulPositive(c: int, d: int)
    requires c > 0 && d > 0
    ensures c * d > 0
  {}

  lemma Regroup(p: int, m: int, q: int)
    ensures p * (m * q) == m * (p * q)
  {}

  lemma EnoughDecimals(m: nat, t: nat, k: nat)
    requires k >= t
    ensures Divides(Pow10(t), m * Pow10(k))
  {
    Pow10Add(t, k - t);
    Regroup(Pow10(t), m, Pow10(k - t));
    assert Times(Pow10(t), m * Pow10(k - t)) == m * Pow10(k);
  }

  lemma TooFewDecimals(m: nat, t: nat, k: nat)
    requires k < t && Divides(Pow10(t), m * Pow10(k))
    ensures m % 10 == 0
  {
    Pow10Add(t - k, k);
    DividesCancel(Pow10(t - k), m, Pow10(k));
    var q :| Times(Pow10(t - k), q) == m;
    TenTimes(Pow10(t - k - 1), q);
  }

  lemma TenTimes(p: int, q: int)
    ensures (10 * p * q) % 10 == 0
  {
    assert 10 * p * q == 10 * (p * q);
  }

  /** A number that does not end in 0 needs the full power of ten. */
  lemma NeedsAllDecimals(m: nat, t: nat, k: nat)
    requires t > 0 ==> m % 10 != 0
    ensures Divides(Pow10(t), m * Pow10(k)) <==> k >= t
  {
    if k >= t {
      EnoughDecimals(m, t, k);
    } else if Divides(Pow10(t), m * Pow10(k)) {
      TooFewDecimals(m, t, k);
    }
  }

  /** For a decimal string, with or without a sign, the count is the least number of decimals with
      which its value is written: ten to the k-th power times the value is an integer exactly from
      that k on. */
  lemma CountIsLeast(sign: string, whole: string, fraction: string, k: nat)
    requires IsDigits(whole) && IsDigits(fraction) && sign in ["", "+", "-"]
    ensures IntegralAt(whole, fraction, k) <==> k >= CountDecimalPlaces(sign + whole + "." + fraction)
  {
    var kept := TrimFraction(sign + whole, fraction);
    var zeros := fraction[|kept|..];
    SplitOne(sign + whole, kept);
    assert whole + fraction == (whole + kept) + zeros;
    TrailingZeros(whole + kept, zeros);
    DropZeros(Value(whole + kept), |kept|, |zeros|, k);
    LastDigit(whole, kept);
    NeedsAllDecimals(Value(whole + kept), |kept|, k);
  }

  lemma DropZeros(m: nat, t: nat, z: nat, k: nat)
    ensures Divides(Pow10(t + z), m * Pow10(z) * Pow10(k)) <==> Divides(Pow10(t), m * Pow10(k))
  {
    Pow10Add(t, z);
    var p, q := Pow10(z), Pow10(k);
    assert (m * p) * q == (m * q) * p;
    DividesCancel(Pow10(t), m * q, p);
  }

  lemma LastDigit(whole: string, kept: string)
    requires IsDigits(whole) && IsDigits(kept)
    requires kept != "" ==> kept[|kept| - 1] != '0'
    ensures IsDigits(whole + kept) && (kept != "" ==> Value(whole + kept) % 10 != 0)
  {
    if kept != "" {
      assert (whole + kept)[|whole + kept| - 1] == kept[|kept| - 1];
    }
  }

  lemma {:induction false} TrimmedPrefix(s: string)
    ensures |TrimZeros(s)| <= |s| && TrimZeros(s) == s[..|TrimZeros(s)|]
  {
    if s != "" && s[|s| - 1] == '0' {
      TrimmedPrefix(s[..|s| - 1]);
    }
  }

  /** A string without a point counts as having no decimals. */
  lemma NoFraction(s: string)
    requires forall i :: 0 <= i < |s| ==> s[i] != '.'
    ensures CountDecimalPlaces(s) == 0
  {
    TrimmedPrefix(s);
    SplitNone(TrimZeros(s));
  }

  lemma {:induction false} SplitAgain(a: string, b: string)
    ensures |SplitAtPoints(a + "." + b)| > |SplitAtPoints(b)|
  {
    var s := a + "." + b;
    if a == "" {
      assert s[1..] == b;
    } else {
      assert s[1..] == a[1..] + "." + b;
      SplitAgain(a[1..], b);
    }
  }

  /** A string with two points or more counts as having no decimals. */
  lemma SeveralPoints(a: string, b: string, c: string)
    ensures CountDecimalPlaces(a + "." + b + "." + c) == 0
  {
    var kept := TrimFraction(a + "." + b, c);
    var rest := b + "." + kept;
    assert a + "." + b + "." + kept == a + "." + rest;
    SplitAgain(a, rest);
    SplitAgain(b, kept);
  }
}
