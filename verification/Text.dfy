/** Facts about Python strings that several components rely on. */
module Text {

  /** `a <= b` on Python strings: by code point, a proper prefix first. */
  predicate StrLe(a: string, b: string) {
    || a == []
    || (b != [] && (a[0] < b[0] || (a[0] == b[0] && StrLe(a[1..], b[1..]))))
  }

  lemma {:induction false} StrTotal(a: string, b: string)
    ensures StrLe(a, b) || StrLe(b, a)
  {
    if a != [] && b != [] && a[0] == b[0] {
      StrTotal(a[1..], b[1..]);
    }
  }

  lemma {:induction false} StrReflexive(a: string)
    ensures StrLe(a, a)
  {
    if a != [] {
      StrReflexive(a[1..]);
    }
  }

  lemma {:induction false} StrAntisymmetric(a: string, b: string)
    requires StrLe(a, b) && StrLe(b, a)
    ensures a == b
  {
    if a != [] && b != [] {
      StrAntisymmetric(a[1..], b[1..]);
      assert a == [a[0]] + a[1..] && b == [b[0]] + b[1..];
    }
  }

  lemma {:induction false} StrTransitive(a: string, b: string, c: string)
    requires StrLe(a, b) && StrLe(b, c)
    ensures StrLe(a, c)
  {
    if a != [] && a[0] == b[0] == c[0] {
      StrTransitive(a[1..], b[1..], c[1..]);
    }
  }

  /** The order is lexicographic: a prefix comes first, otherwise the first difference decides. */
  lemma {:induction false} StrLeMeaning(a: string, b: string)
    ensures StrLe(a, b) <==> a <= b || exists k :: Differ(a, b, k) && a[k] < b[k]
  {
    if a != [] && b != [] {
      if a[0] == b[0] {
        StrLeMeaning(a[1..], b[1..]);
        assert a <= b <==> a[1..] <= b[1..] by {
          assert a == [a[0]] + a[1..] && b == [b[0]] + b[1..];
        }
        if k :| Differ(a[1..], b[1..], k) && a[1..][k] < b[1..][k] {
          DifferLater(a, b, k);
        }
        if k :| Differ(a, b, k) && a[k] < b[k] {
          DifferLater(a, b, k - 1);
        }
      } else {
        assert Differ(a, b, 0);
        assert forall k :: Differ(a, b, k) ==> k == 0;
      }
    }
  }

  /** `k` is the first position at which both go on and differ. */
  ghost predicate Differ(a: string, b: string, k: int) {
    0 <= k < |a| && k < |b| && a[k] != b[k] && forall j :: 0 <= j < k ==> a[j] == b[j]
  }

  lemma {:induction false} DifferLater(a: string, b: string, k: int)
    requires a != [] && b != [] && a[0] == b[0] && k >= 0
    ensures Differ(a, b, k + 1) <==> Differ(a[1..], b[1..], k)
  {
    if Differ(a, b, k + 1) {
      assert forall j :: 0 <= j < k ==> a[1..][j] == a[j + 1] && b[1..][j] == b[j + 1];
    }
    if Differ(a[1..], b[1..], k) {
      assert forall j :: 0 < j <= k ==> a[j] == a[1..][j - 1] && b[j] == b[1..][j - 1];
    }
  }

  /** Decimal rendering of a natural number, as an f-string prints it. */
  function Decimal(n: nat): (s: string)
    ensures s != [] && forall i :: 0 <= i < |s| ==> '0' <= s[i] <= '9'
    ensures n > 0 ==> s[0] != '0'
    ensures n == 0 ==> s == "0"
  {
    var digit := '0' + (n % 10) as char;
    if n < 10 then [digit] else Decimal(n / 10) + [digit]
  }

  function DecimalInt(n: int): string {
    if n < 0 then "-" + Decimal(-n) else Decimal(n)
  }

  /** The number that a string of digits stands for. */
  function Value(s: string): int {
    if s == [] then 0 else 10 * Value(s[..|s| - 1]) + s[|s| - 1] as int - '0' as int
  }

  lemma {:induction false} ValueOfDecimal(n: nat)
    ensures Value(Decimal(n)) == n
  {
    var s := Decimal(n);
    if n < 10 {
      assert s[..0] == [];
    } else {
      ValueOfDecimal(n / 10);
      assert s[..|s| - 1] == Decimal(n / 10);
    }
  }

  lemma {:induction false} ValueOfDecimalInt(n: int)
    ensures n >= 0 ==> Value(DecimalInt(n)) == n
    ensures n < 0 ==> DecimalInt(n)[0] == '-' && Value(DecimalInt(n)[1..]) == -n
  {
    ValueOfDecimal(if n < 0 then -n else n);
  }

  lemma {:induction false} DecimalInjective(m: nat, n: nat)
    requires Decimal(m) == Decimal(n)
    ensures m == n
  {
    ValueOfDecimal(m);
    ValueOfDecimal(n);
  }

  lemma {:induction false} SuffixInjective(prefix: string, a: string, b: string)
    requires prefix + a == prefix + b
    ensures a == b
  {
    assert a == (prefix + a)[|prefix|..];
    assert b == (prefix + b)[|prefix|..];
  }
}
