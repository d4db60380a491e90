/**
  The few facts about products and quotients that the splitting and the
  reassembly of frames rest on. Products and quotients of two variables are
  computed by repeated addition and subtraction, so that the proofs about
  packets stay linear; they are the usual ones.
 */
module Arithmetic {

  /** The product of two unsigned numbers. */
  function Times(i: nat, p: nat): nat {
    if i == 0 then 0 else Times(i - 1, p) + p
  }

  lemma {:induction false} TimesIsProduct(i: nat, p: nat)
    ensures Times(i, p) == i * p
  {
    if i > 0 {
      TimesIsProduct(i - 1, p);
      assert (i - 1) * p + p == i * p;
    }
  }

  lemma {:induction false} MulMono(i: nat, j: nat, p: nat)
    requires i <= j
    ensures Times(i, p) <= Times(j, p)
  {
    if i < j {
      MulMono(i, j - 1, p);
    }
  }

  lemma MulNext(i: nat, p: nat)
    ensures Times(i + 1, p) == Times(i, p) + p
  {
  }

  /** Unsigned division. */
  function Quotient(n: nat, p: nat): nat
    requires p > 0
  {
    if n < p then 0 else Quotient(n - p, p) + 1
  }

  lemma {:induction false} QuotientBounds(n: nat, p: nat)
    requires p > 0
    ensures Times(Quotient(n, p), p) <= n < Times(Quotient(n, p), p) + p
  {
    if n >= p {
      QuotientBounds(n - p, p);
    }
  }

  lemma QuotientIsDivision(n: nat, p: nat)
    requires p > 0
    ensures Quotient(n, p) == n / p
  {
    var d := n / p;
    assert d * p <= n < d * p + p by {
      assert n == d * p + n % p;
    }
    TimesIsProduct(d, p);
    hide Quotient, Times;
    QuotientUnique(n, d, p);
  }

  /** A quotient rounded up. */
  function Ceil(n: nat, p: nat): nat
    requires p > 0
  {
    Quotient(n + p - 1, p)
  }

  /** The least number of p-byte chunks that hold n bytes. */
  lemma CeilBounds(n: nat, p: nat)
    requires p > 0
    ensures n <= Times(Ceil(n, p), p) < n + p
    ensures Ceil(n, p) == 0 <==> n == 0
  {
    QuotientBounds(n + p - 1, p);
  }

  /** i * p <= x < (i + 1) * p holds of one i only, the quotient. */
  lemma QuotientUnique(x: nat, i: nat, p: nat)
    requires p > 0
    ensures Times(i, p) <= x < Times(i, p) + p <==> i == Quotient(x, p)
  {
    var q := Quotient(x, p);
    QuotientBounds(x, p);
    if i < q {
      MulMono(i + 1, q, p);
    } else if q < i {
      MulMono(q + 1, i, p);
    }
  }
}
