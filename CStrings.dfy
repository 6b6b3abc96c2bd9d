/** The parts of the C library the coordinator leans on: NUL-terminated
    strings, `strncmp`, and `snprintf` restricted to the `%u` and `%s`
    conversions it uses. */
module CStrings {

  /** The contents of a C string: the characters before its terminating NUL. */
  type CString = s: string | '\0' !in s

  /** The character `strncmp` reads at index `i`: past the contents it reads the terminator. */
  function CharAt(s: string, i: nat): char
  {
    if i < |s| then s[i] else '\0'
  }

  /** `strncmp(a, b, n) == 0`: at most `n` characters are compared, and the
      comparison stops early at a terminator both strings share. */
  function StrnEqual(a: CString, b: CString, n: nat): bool
    decreases n
  {
    if n == 0 then true
    else if CharAt(a, 0) != CharAt(b, 0) then false
    else if CharAt(a, 0) == '\0' then true
    else StrnEqual(a[1..], b[1..], n - 1)
  }

  /** `strncmp(a, b, strlen(a)) == 0` holds exactly when `a` is a prefix of `b`. */
  lemma {:induction false} StrnEqualIsPrefix(a: CString, b: CString)
    ensures StrnEqual(a, b, |a|) <==> a <= b
    decreases |a|
  {
    if |a| > 0 {
      assert CharAt(a, 0) == a[0];
      if |b| == 0 {
        assert CharAt(b, 0) == '\0';
      } else if a[0] == b[0] {
        StrnEqualIsPrefix(a[1..], b[1..]);
        assert a <= b <==> a[1..] <= b[1..] by {
          if a[1..] <= b[1..] {
            assert a == [a[0]] + a[1..];
            assert b[..|a|] == [b[0]] + b[1..][..|a| - 1];
          }
        }
      }
    }
  }

  /** `s` occurs in `t` starting at index `k`. */
  ghost predicate OccursAt(t: string, s: string, k: int)
  {
    0 <= k <= |t| - |s| && t[k..k + |s|] == s
  }

  /** `s` occurs somewhere inside `t`. */
  ghost predicate Contains(t: string, s: string)
  {
    exists k :: OccursAt(t, s, k)
  }

  lemma ContainsMiddle(p: string, s: string, q: string)
    ensures Contains(p + s + q, s)
  {
    var t := p + s + q;
    assert t[|p|..|p| + |s|] == s;
    assert OccursAt(t, s, |p|);
  }

  predicate IsDigit(c: char)
  {
    '0' <= c <= '9'
  }

  function DigitChar(d: nat): (c: char)
    requires d < 10
    ensures IsDigit(c)
  {
    ('0' as int + d) as char
  }

  function DigitValue(c: char): nat
    requires IsDigit(c)
  {
    (c as int - '0' as int) as nat
  }

  /** `%u`: the decimal digits of `n`, most significant first, without leading zeros. */
  function Decimal(n: nat): (s: string)
    ensures |s| >= 1
    ensures forall i :: 0 <= i < |s| ==> IsDigit(s[i])
    ensures s[0] == '0' ==> n == 0 && |s| == 1
    decreases n
  {
    if n < 10 then [DigitChar(n)] else Decimal(n / 10) + [DigitChar(n % 10)]
  }

  /** Reads a string of decimal digits back into the number it names. */
  function ParseDecimal(s: string): nat
    requires forall i :: 0 <= i < |s| ==> IsDigit(s[i])
    decreases |s|
  {
    if |s| == 0 then 0 else 10 * ParseDecimal(s[..|s| - 1]) + DigitValue(s[|s| - 1])
  }

  /** Reading a decimal rendering back gives the number rendered. */
  lemma {:induction false} DecimalRoundTrip(n: nat)
    ensures ParseDecimal(Decimal(n)) == n
    decreases n
  {
    if n >= 10 {
      var s := Decimal(n);
      DecimalRoundTrip(n / 10);
      assert s[..|s| - 1] == Decimal(n / 10);
      assert DigitValue(s[|s| - 1]) == n % 10;
    }
  }

  lemma DecimalInjective(a: nat, b: nat)
    requires Decimal(a) == Decimal(b)
    ensures a == b
  {
    DecimalRoundTrip(a);
    DecimalRoundTrip(b);
  }

  function Pow10(k: nat): nat
  {
    if k == 0 then 1 else 10 * Pow10(k - 1)
  }

  /** A number below `10^k` renders in at most `k` digits. */
  lemma {:induction false} DecimalLength(n: nat, k: nat)
    requires 1 <= k && n < Pow10(k)
    ensures |Decimal(n)| <= k
    decreases k
  {
    if n >= 10 {
      assert k >= 2;
      DecimalLength(n / 10, k - 1);
    }
  }

  /** An argument of a formatting call: `%u` takes an unsigned number, `%s` a string. */
  datatype Arg = U(n: nat) | S(s: string)

  /** `sprintf(fmt, args...)` for formats whose conversions are `%u` and `%s`;
      every other character is copied. */
  function Format(fmt: string, args: seq<Arg>): string
    decreases |fmt|
  {
    if |fmt| >= 2 && fmt[0] == '%' && fmt[1] == 'u' && |args| > 0 && args[0].U? then
      Decimal(args[0].n) + Format(fmt[2..], args[1..])
    else if |fmt| >= 2 && fmt[0] == '%' && fmt[1] == 's' && |args| > 0 && args[0].S? then
      args[0].s + Format(fmt[2..], args[1..])
    else if |fmt| == 0 then ""
    else [fmt[0]] + Format(fmt[1..], args)
  }

  /** `snprintf(buffer, size, fmt, args...)`: what the buffer holds afterwards,
      the formatted text cut to `size - 1` characters. */
  function Snprintf(size: nat, fmt: string, args: seq<Arg>): (r: string)
    ensures r <= Format(fmt, args)
    ensures size == 0 ==> r == ""
    ensures size > 0 ==> |r| == if |Format(fmt, args)| < size then |Format(fmt, args)| else size - 1
  {
    var s := Format(fmt, args);
    if size == 0 then "" else if |s| < size then s else s[..size - 1]
  }

  /** Characters before the first `%` are copied unchanged. */
  lemma {:induction false} FormatPlain(p: string, rest: string, args: seq<Arg>)
    requires '%' !in p
    ensures Format(p + rest, args) == p + Format(rest, args)
    decreases |p|
  {
    if |p| > 0 {
      var f := p + rest;
      assert p[0] in p;
      assert f[0] == p[0] != '%';
      assert Format(f, args) == [f[0]] + Format(f[1..], args);
      assert f[1..] == p[1..] + rest;
      assert '%' !in p[1..] by {
        forall c | c in p[1..] ensures c in p { }
      }
      FormatPlain(p[1..], rest, args);
      calc {
        Format(f, args);
        [p[0]] + (p[1..] + Format(rest, args));
        ([p[0]] + p[1..]) + Format(rest, args);
        { assert [p[0]] + p[1..] == p; }
        p + Format(rest, args);
      }
    } else {
      assert p + rest == rest;
    }
  }

  lemma FormatUnsigned(n: nat, rest: string, args: seq<Arg>)
    ensures Format("%u" + rest, [U(n)] + args) == Decimal(n) + Format(rest, args)
  {
    var f := "%u" + rest;
    var a := [U(n)] + args;
    assert f[0] == '%' && f[1] == 'u' && f[2..] == rest;
    assert a[0] == U(n) && a[1..] == args;
  }

  lemma FormatString(s: string, rest: string, args: seq<Arg>)
    ensures Format("%s" + rest, [S(s)] + args) == s + Format(rest, args)
  {
    var f := "%s" + rest;
    var a := [S(s)] + args;
    assert f[0] == '%' && f[1] == 's' && f[2..] == rest;
    assert a[0] == S(s) && a[1..] == args;
  }

  /** A format without conversions formats to itself. */
  lemma FormatLiteral(p: string)
    requires '%' !in p
    ensures Format(p, []) == p
  {
    FormatPlain(p, "", []);
    assert p + "" == p;
  }

  /** A format with one `%u` between two runs of plain characters. */
  lemma FormatOneUnsigned(p: string, q: string, n: nat)
    requires '%' !in p && '%' !in q
    ensures Format(p + "%u" + q, [U(n)]) == p + Decimal(n) + q
  {
    assert p + "%u" + q == p + ("%u" + q);
    FormatPlain(p, "%u" + q, [U(n)]);
    assert [U(n)] == [U(n)] + [];
    FormatUnsigned(n, q, []);
    FormatLiteral(q);
  }

  /** A format with two `%u` conversions between runs of plain characters. */
  lemma FormatTwoUnsigned(p: string, q: string, r: string, n: nat, m: nat)
    requires '%' !in p && '%' !in q && '%' !in r
    ensures Format(p + ("%u" + (q + ("%u" + r))), [U(n), U(m)]) == p + (Decimal(n) + (q + (Decimal(m) + r)))
  {
    FormatPlain(p, "%u" + (q + ("%u" + r)), [U(n), U(m)]);
    assert [U(n), U(m)] == [U(n)] + [U(m)];
    FormatUnsigned(n, q + ("%u" + r), [U(m)]);
    FormatPlain(q, "%u" + r, [U(m)]);
    assert [U(m)] == [U(m)] + [];
    FormatUnsigned(m, r, []);
    FormatLiteral(r);
  }

  /** A format with one `%s` between two runs of plain characters. */
  lemma FormatOneString(p: string, q: string, x: string)
    requires '%' !in p && '%' !in q
    ensures Format(p + "%s" + q, [S(x)]) == p + x + q
  {
    assert p + "%s" + q == p + ("%s" + q);
    FormatPlain(p, "%s" + q, [S(x)]);
    assert [S(x)] == [S(x)] + [];
    FormatString(x, q, []);
    FormatLiteral(q);
  }

  /** A format with two `%s` conversions between runs of plain characters. */
  lemma FormatTwoStrings(p: string, q: string, r: string, x: string, y: string)
    requires '%' !in p && '%' !in q && '%' !in r
    ensures Format(p + ("%s" + (q + ("%s" + r))), [S(x), S(y)]) == p + (x + (q + (y + r)))
  {
    FormatPlain(p, "%s" + (q + ("%s" + r)), [S(x), S(y)]);
    assert [S(x), S(y)] == [S(x)] + [S(y)];
    FormatString(x, q + ("%s" + r), [S(y)]);
    FormatPlain(q, "%s" + r, [S(y)]);
    assert [S(y)] == [S(y)] + [];
    FormatString(y, r, []);
    FormatLiteral(r);
  }

  /** Decimal digits are never the terminator. */
  lemma DecimalHasNoNul(n: nat)
    ensures '\0' !in Decimal(n)
  {
    var d := Decimal(n);
    forall i | 0 <= i < |d| ensures d[i] != '\0' {
      assert IsDigit(d[i]);
    }
  }

  /** Two runs of digits, each followed by the same non-digit text, where
      the first whole is a prefix of the second: the runs are equal. */
  lemma DigitRunsAgree(d1: string, d2: string, c: string, rest: string)
    requires forall i :: 0 <= i < |d1| ==> IsDigit(d1[i])
    requires forall i :: 0 <= i < |d2| ==> IsDigit(d2[i])
    requires |c| > 0 && !IsDigit(c[0])
    requires d1 + c <= d2 + c + rest
    ensures d1 == d2
  {
    var x, y := d1 + c, d2 + c + rest;
    var k := if |d1| < |d2| then |d1| else |d2|;
    assert x[k] == y[k];
    assert IsDigit(x[k]) <==> k < |d1|;
    assert IsDigit(y[k]) <==> k < |d2|;
    assert |d1| == |d2|;
    forall i | 0 <= i < |d1| ensures d1[i] == d2[i] {
      assert x[i] == d1[i] && y[i] == d2[i];
    }
  }

  /** A common head can be dropped from both sides of a prefix test. */
  lemma PrefixCancel(p: string, x: string, y: string)
    requires p + x <= p + y
    ensures x <= y
  {
    forall k | 0 <= k < |x| ensures x[k] == y[k] {
      assert (p + x)[|p| + k] == (p + y)[|p| + k];
    }
  }

  /** Among texts made of a fixed head, a decimal number and a fixed
      non-digit tail, one is a prefix of another followed by anything
      exactly when the numbers are equal. */
  lemma DecimalFieldOwnership(p: string, c: string, n1: nat, n2: nat, suffix: string)
    requires |c| > 0 && !IsDigit(c[0])
    ensures p + Decimal(n1) + c <= p + Decimal(n2) + c + suffix <==> n1 == n2
  {
    var d1, d2 := Decimal(n1), Decimal(n2);
    if p + d1 + c <= p + d2 + c + suffix {
      assert p + d1 + c == p + (d1 + c);
      assert p + d2 + c + suffix == p + (d2 + c + suffix);
      PrefixCancel(p, d1 + c, d2 + c + suffix);
      DigitRunsAgree(d1, d2, c, suffix);
      DecimalInjective(n1, n2);
    }
  }
}
