/** Decimal rendering and the prompt-local keys built from it (chaining/matching.py, chaining/service.py). */
module Keys {
  import opened Basics

  function Digit(d: nat): char
    requires d < 10
  {
    ['0', '1', '2', '3', '4', '5', '6', '7', '8', '9'][d]
  }

  function Decimal(n: nat): string {
    if n < 10 then [Digit(n)] else Decimal(n / 10) + [Digit(n % 10)]
  }

  ghost predicate IsDigit(c: char) {
    '0' <= c <= '9'
  }

  lemma {:induction false} DecimalDigits(n: nat)
    ensures |Decimal(n)| >= if n < 10 then 1 else 2
    ensures forall c :: c in Decimal(n) ==> IsDigit(c)
  {
    if n >= 10 {
      DecimalDigits(n / 10);
    }
  }

  lemma {:induction false} DecimalInjective(m: nat, n: nat)
    requires Decimal(m) == Decimal(n)
    ensures m == n
    decreases m + n
  {
    DecimalDigits(m);
    DecimalDigits(n);
    if m >= 10 && n >= 10 {
      var a, b := Decimal(m), Decimal(n);
      assert a[..|a| - 1] == Decimal(m / 10) && b[..|b| - 1] == Decimal(n / 10);
      assert a[|a| - 1] == Digit(m % 10) && b[|b| - 1] == Digit(n % 10);
      DecimalInjective(m / 10, n / 10);
    }
  }

  // The number that a text of digits denotes, most significant digit first.
  ghost function ReadDecimal(s: string): nat
    requires forall c :: c in s ==> IsDigit(c)
  {
    if s == [] then 0
    else
      assert IsDigit(s[|s| - 1]);
      10 * ReadDecimal(s[..|s| - 1]) + (s[|s| - 1] as int - '0' as int)
  }

  // Reading a rendered number gives it back, and it has no leading zero.
  lemma {:induction false} DecimalReads(n: nat)
    ensures forall c :: c in Decimal(n) ==> IsDigit(c)
    ensures ReadDecimal(Decimal(n)) == n && (n > 0 ==> Decimal(n)[0] != '0')
  {
    DecimalDigits(n);
    DigitReads(n % 10);
    if n >= 10 {
      DecimalDigits(n / 10);
      DecimalReads(n / 10);
      assert Decimal(n)[..|Decimal(n)| - 1] == Decimal(n / 10);
    } else {
      assert Decimal(n)[..0] == [];
    }
  }

  lemma DigitReads(d: nat)
    requires d < 10
    ensures Digit(d) as int - '0' as int == d
  {
  }

  // "prefix-n" and "prefix-n-m".
  function Key(prefix: string, n: nat): string {
    prefix + "-" + Decimal(n)
  }

  function Key2(prefix: string, n: nat, m: nat): string {
    prefix + "-" + Decimal(n) + "-" + Decimal(m)
  }

  lemma KeyInjective(prefix: string, m: nat, n: nat)
    requires Key(prefix, m) == Key(prefix, n)
    ensures m == n
  {
    var a, b := Key(prefix, m), Key(prefix, n);
    assert a[|prefix| + 1..] == Decimal(m) && b[|prefix| + 1..] == Decimal(n);
    DecimalInjective(m, n);
  }

  ghost function FirstDash(s: string): nat {
    if s == [] || s[0] == '-' then 0 else 1 + FirstDash(s[1..])
  }

  // Digits contain no '-', so the first '-' after a number ends it.
  lemma {:induction false} DashEndsNumber(a: string, b: string)
    requires forall x :: x in a ==> IsDigit(x)
    ensures FirstDash(a + "-" + b) == |a|
  {
    if a == [] {
      assert (a + "-" + b)[0] == '-';
    } else {
      assert IsDigit(a[0]);
      assert (a + "-" + b)[1..] == a[1..] + "-" + b;
      DashEndsNumber(a[1..], b);
    }
  }

  lemma SeparatorSplits(a: string, b: string, c: string, d: string)
    requires forall x :: x in a ==> IsDigit(x)
    requires forall x :: x in c ==> IsDigit(x)
    requires a + "-" + b == c + "-" + d
    ensures a == c && b == d
  {
    DashEndsNumber(a, b);
    DashEndsNumber(c, d);
    var s := a + "-" + b;
    assert a == s[..|a|] && c == s[..|c|];
    assert b == s[|a| + 1..] && d == s[|c| + 1..];
  }

  lemma Key2Injective(prefix: string, m: nat, n: nat, m': nat, n': nat)
    requires Key2(prefix, m, n) == Key2(prefix, m', n')
    ensures m == m' && n == n'
  {
    var a, b := Key2(prefix, m, n), Key2(prefix, m', n');
    assert a[|prefix| + 1..] == Decimal(m) + "-" + Decimal(n);
    assert b[|prefix| + 1..] == Decimal(m') + "-" + Decimal(n');
    DecimalDigits(m);
    DecimalDigits(m');
    SeparatorSplits(Decimal(m), Decimal(n), Decimal(m'), Decimal(n'));
    DecimalInjective(m, m');
    DecimalInjective(n, n');
  }

  lemma KeyExample()
    ensures Key("comparison", 12) == "comparison-12" && Key2("evidence", 3, 10) == "evidence-3-10"
  {
    assert Decimal(1) == "1" && Decimal(12) == "12" && Decimal(3) == "3" && Decimal(10) == "10";
  }
}
