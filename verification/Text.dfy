/** String facts the rest of the model needs: code-point order (Python's `<` on `str`),
    decimal numerals, and the search for the first free generated name. */
module Text {

  // ---------------------------------------------------------------- order

  /** Code-point order, the order Python sorts strings in. */
  predicate StrLeq(a: string, b: string)
  {
    a == [] || (b != [] && (a[0] < b[0] || (a[0] == b[0] && StrLeq(a[1..], b[1..]))))
  }

  lemma {:induction false} StrLeqTotal(a: string, b: string)
    ensures StrLeq(a, b) || StrLeq(b, a)
  {
    if a != [] && b != [] && a[0] == b[0] {
      StrLeqTotal(a[1..], b[1..]);
    }
  }

  lemma {:induction false} StrLeqAntisymmetric(a: string, b: string)
    requires StrLeq(a, b) && StrLeq(b, a)
    ensures a == b
  {
    if a != [] && b != [] {
      StrLeqAntisymmetric(a[1..], b[1..]);
      assert a == [a[0]] + a[1..] && b == [b[0]] + b[1..];
    }
  }

  lemma {:induction false} StrLeqTransitive(a: string, b: string, c: string)
    requires StrLeq(a, b) && StrLeq(b, c)
    ensures StrLeq(a, c)
  {
    if a != [] && a[0] == b[0] && b[0] == c[0] {
      StrLeqTransitive(a[1..], b[1..], c[1..]);
    }
  }

  predicate Contains(s: string, part: string)
  {
    part <= s || (s != [] && Contains(s[1..], part))
  }

  /** The part stands at position i. */
  predicate HasAt(s: string, part: string, i: int)
  {
    0 <= i <= |s| - |part| && forall j :: 0 <= j < |part| ==> s[i + j] == part[j]
  }

  lemma {:induction false} ContainsExactly(s: string, part: string)
    ensures Contains(s, part) <==> exists i :: HasAt(s, part, i)
  {
    if part <= s {
      assert HasAt(s, part, 0);
    } else if s != [] {
      ContainsExactly(s[1..], part);
      if i :| HasAt(s[1..], part, i) {
        forall j | 0 <= j < |part| ensures s[i + 1 + j] == part[j] {
          assert s[1..][i + j] == part[j];
        }
        assert HasAt(s, part, i + 1);
      }
      if i :| HasAt(s, part, i) {
        if i > 0 {
          forall j | 0 <= j < |part| ensures s[1..][i - 1 + j] == part[j] {
            assert s[i + j] == part[j];
          }
          assert HasAt(s[1..], part, i - 1);
        }
      }
    }
  }

  predicate EndsWith(s: string, tail: string)
  {
    |tail| <= |s| && s[|s| - |tail|..] == tail
  }

  // ------------------------------------------------------------- numerals

  const DIGITS := "0123456789"

  function Decimal(n: nat): (s: string)
    ensures |s| > 0 && forall c | c in s :: c in DIGITS
  {
    if n < 10 then [DIGITS[n]] else Decimal(n / 10) + [DIGITS[n % 10]]
  }

  function Value(s: string): int
    requires forall c | c in s :: c in DIGITS
  {
    if s == [] then 0 else 10 * Value(s[..|s| - 1]) + (s[|s| - 1] as int - '0' as int)
  }

  lemma {:induction false} DecimalRoundTrip(n: nat)
    ensures Value(Decimal(n)) == n
  {
    if n >= 10 {
      DecimalRoundTrip(n / 10);
      assert Decimal(n)[..|Decimal(n)| - 1] == Decimal(n / 10);
    } else {
      assert [DIGITS[n]][..0] == [];
    }
  }

  /** `prefix + str(m) == prefix + str(n)` only for m == n. */
  lemma NumberedInjective(prefix: string, m: nat, n: nat)
    requires prefix + Decimal(m) == prefix + Decimal(n)
    ensures m == n
  {
    assert (prefix + Decimal(m))[|prefix|..] == Decimal(m);
    assert (prefix + Decimal(n))[|prefix|..] == Decimal(n);
    DecimalRoundTrip(m);
    DecimalRoundTrip(n);
  }

  // ----------------------------------------------------------- fresh names

  /** The n-th name of the family `prefix`0, `prefix`1, ... */
  function Numbered(prefix: string, n: nat): string
  {
    prefix + Decimal(n)
  }

  /** `n` is the first index from `start` on whose name is not taken. */
  ghost predicate IsFirstFree(prefix: string, taken: set<string>, start: nat, n: nat)
  {
    && start <= n
    && Numbered(prefix, n) !in taken
    && forall k :: start <= k < n ==> Numbered(prefix, k) in taken
  }

  function FirstFree(prefix: string, taken: set<string>, start: nat): (n: nat)
    ensures IsFirstFree(prefix, taken, start, n)
  {
    FirstFreeFrom(prefix, taken, taken, start)
  }

  /** `unseen` holds every taken name the search can still meet, so it shrinks. */
  function FirstFreeFrom(prefix: string, taken: set<string>, unseen: set<string>, n: nat): (r: nat)
    requires forall k :: n <= k && Numbered(prefix, k) in taken ==> Numbered(prefix, k) in unseen
    ensures IsFirstFree(prefix, taken, n, r)
    decreases unseen
  {
    if Numbered(prefix, n) !in taken then n
    else
      assert forall k :: n < k && Numbered(prefix, k) == Numbered(prefix, n) ==> false by {
        forall k | n < k && Numbered(prefix, k) == Numbered(prefix, n) ensures false {
          NumberedInjective(prefix, k, n);
        }
      }
      FirstFreeFrom(prefix, taken, unseen - {Numbered(prefix, n)}, n + 1)
  }

  /** The loop `n = start; while name(n) in taken: n += 1`. */
  method FindFree(prefix: string, taken: set<string>, start: nat) returns (n: nat)
    ensures n == FirstFree(prefix, taken, start)
  {
    var last := FirstFree(prefix, taken, start);
    n := start;
    while Numbered(prefix, n) in taken
      invariant start <= n <= last
      invariant forall k :: start <= k < n ==> Numbered(prefix, k) in taken
      decreases last - n
    {
      n := n + 1;
    }
  }
}
