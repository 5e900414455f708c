/** How many of the first n numbers satisfy a predicate. */
module Counting {

  ghost function Count(p: nat -> bool, n: nat): nat {
    if n == 0 then 0 else Count(p, n - 1) + if p(n - 1) then 1 else 0
  }

  lemma {:induction false} CountSame(p: nat -> bool, q: nat -> bool, n: nat)
    requires forall i :: 0 <= i < n ==> p(i) == q(i)
    ensures Count(p, n) == Count(q, n)
  {
    if n > 0 {
      CountSame(p, q, n - 1);
    }
  }

  lemma {:induction false} CountAtMost(p: nat -> bool, q: nat -> bool, n: nat)
    requires forall i :: 0 <= i < n && p(i) ==> q(i)
    ensures Count(p, n) <= Count(q, n)
  {
    if n > 0 {
      CountAtMost(p, q, n - 1);
    }
  }

  /** One member more. */
  lemma {:induction false} CountOneMore(p: nat -> bool, q: nat -> bool, n: nat, i: nat)
    requires i < n && !p(i) && q(i) && forall k :: 0 <= k < n && k != i ==> p(k) == q(k)
    ensures Count(q, n) == Count(p, n) + 1
  {
    if i == n - 1 {
      CountSame(p, q, n - 1);
    } else {
      CountOneMore(p, q, n - 1, i);
    }
  }

  lemma {:induction false} CountFrom(p: nat -> bool, n: nat, from: nat)
    requires from <= n && forall i :: 0 <= i < n ==> (p(i) <==> from <= i)
    ensures Count(p, n) == n - from
  {
    if n > 0 {
      if from < n {
        CountFrom(p, n - 1, from);
      } else {
        CountNone(p, n);
      }
    }
  }

  lemma {:induction false} CountNone(p: nat -> bool, n: nat)
    requires forall i :: 0 <= i < n ==> !p(i)
    ensures Count(p, n) == 0
  {
    if n > 0 {
      CountNone(p, n - 1);
    }
  }

  lemma {:induction false} CountSome(p: nat -> bool, n: nat) returns (i: nat)
    requires Count(p, n) > 0
    ensures i < n && p(i)
  {
    if p(n - 1) {
      i := n - 1;
    } else {
      i := CountSome(p, n - 1);
    }
  }
}
