/** Sequences: regrouping, and order-preserving selection. */
module Seqs {
  lemma Assoc<T>(a: seq<T>, b: seq<T>, c: seq<T>)
    ensures a + b + c == a + (b + c)
  {
  }

  lemma AssocFour<T>(a: seq<T>, b: seq<T>, c: seq<T>, d: seq<T>)
    ensures a + b + c + d == a + (b + (c + d)) == a + b + (c + d)
    ensures a + (b + c) + d == a + b + c + d
  {
  }

  /** The subsequence of `s` that satisfies `p`, in order. */
  function Sel<T>(s: seq<T>, p: T -> bool): (r: seq<T>)
    ensures forall x :: x in r ==> x in s && p(x)
  {
    if s == [] then []
    else (if p(s[0]) then [s[0]] else []) + Sel(s[1..], p)
  }

  lemma {:induction false} SelConcat<T>(a: seq<T>, b: seq<T>, p: T -> bool)
    ensures Sel(a + b, p) == Sel(a, p) + Sel(b, p)
  {
    if a == [] {
      assert a + b == b;
    } else {
      assert (a + b)[1..] == a[1..] + b;
      SelConcat(a[1..], b, p);
    }
  }

  lemma {:induction false} SelMember<T>(s: seq<T>, p: T -> bool, x: T)
    ensures x in Sel(s, p) <==> x in s && p(x)
  {
    if s != [] {
      SelMember(s[1..], p, x);
    }
  }

  lemma {:induction false} SelAgree<T>(s: seq<T>, p: T -> bool, q: T -> bool)
    requires forall x :: x in s ==> p(x) == q(x)
    ensures Sel(s, p) == Sel(s, q)
  {
    if s != [] {
      SelAgree(s[1..], p, q);
    }
  }

  lemma {:induction false} SelNone<T>(s: seq<T>, p: T -> bool)
    requires forall x :: x in s ==> !p(x)
    ensures Sel(s, p) == []
  {
    if s != [] {
      SelNone(s[1..], p);
    }
  }

  /** Selecting twice is selecting once by the conjunction `r`. */
  lemma {:induction false} SelSel<T>(s: seq<T>, p: T -> bool, q: T -> bool, r: T -> bool)
    requires forall x :: x in s ==> r(x) == (p(x) && q(x))
    ensures Sel(Sel(s, p), q) == Sel(s, r)
  {
    if s != [] {
      SelSel(s[1..], p, q, r);
      var head := if p(s[0]) then [s[0]] else [];
      SelConcat(head, Sel(s[1..], p), q);
    }
  }

  lemma SelLast<T>(s: seq<T>, x: T, p: T -> bool)
    ensures Sel(s + [x], p) == Sel(s, p) + (if p(x) then [x] else [])
  {
    SelConcat(s, [x], p);
  }

  lemma {:induction false} SelCount<T>(s: seq<T>, p: T -> bool, x: T)
    ensures multiset(Sel(s, p))[x] == if p(x) then multiset(s)[x] else 0
  {
    if s != [] {
      SelCount(s[1..], p, x);
      assert s == [s[0]] + s[1..];
    }
  }
}
