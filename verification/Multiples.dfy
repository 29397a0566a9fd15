/** Products and remainders by run-time sizes. They are built up by addition, which keeps every proof
    about addresses linear; two lemmas say that they are `*` and `%`. */
module Multiples {
  import opened Bytes

  function Times(n: nat, k: nat): nat {
    if k == 0 then 0 else Times(n, k - 1) + n
  }

  lemma {:induction false} TimesIsProduct(n: nat, k: nat)
    ensures Times(n, k) == n * k
  {
    if k > 0 {
      TimesIsProduct(n, k - 1);
      assert n * k == n * (k - 1) + n;
    }
  }

  function Wrap(j: nat, n: nat): (r: nat)
    requires n > 0
    ensures r < n
  {
    if j < n then j else Wrap(j - n, n)
  }

  lemma {:induction false} WrapIsRemainder(j: nat, n: nat)
    requires n > 0
    ensures Wrap(j, n) == j % n
  {
    if j >= n {
      WrapIsRemainder(j - n, n);
      OneLapLess(j, n);
    }
  }

  lemma OneLapLess(j: nat, n: nat)
    requires n > 0 && j >= n
    ensures j % n == (j - n) % n
  {
    var q, r := (j - n) / n, (j - n) % n;
    assert j - n == n * q + r;
    assert n * (q + 1) == n * q + n;
    QuotientUnique(j, n, q + 1, r);
  }

  lemma {:induction false} TimesMonotone(n: nat, a: nat, b: nat)
    requires a < b
    ensures Times(n, a) + n <= Times(n, b)
  {
    if a + 1 < b {
      TimesMonotone(n, a, b - 1);
    }
  }

  lemma {:induction false} TimesFront(n: nat, k: nat)
    ensures Times(n, k + 1) == n + Times(n, k)
  {
    if k > 0 {
      TimesFront(n, k - 1);
    }
  }

  lemma {:induction false} TimesSum(n: nat, a: nat, b: nat)
    ensures Times(n, a + b) == Times(n, a) + Times(n, b)
  {
    if b > 0 {
      TimesSum(n, a, b - 1);
    }
  }

  lemma {:induction false} TimesOfZero(k: nat)
    ensures Times(0, k) == 0
  {
    if k > 0 {
      TimesOfZero(k - 1);
    }
  }
}
