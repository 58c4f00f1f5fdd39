/** Polynomials over the field of two elements, and division with remainder. */
module Gf2 {
  /** The exponents of the terms. Addition and subtraction are the symmetric difference. */
  type Poly = set<nat>

  /** The ways to make exponent `e` from a term of each factor. */
  ghost function Pairs(q: Poly, g: Poly, e: int): set<nat> {
    set i | i in q && i <= e && e - i in g
  }

  /** The product of `q` and `g` has a term with exponent `e`: an odd number of pairs make it, the rest cancel. */
  ghost predicate InProduct(q: Poly, g: Poly, e: int) {
    |Pairs(q, g, e)| % 2 == 1
  }

  /** `p == q * g + r`, term by term. */
  ghost predicate Divides(p: Poly, g: Poly, q: Poly, r: Poly) {
    forall e: nat :: e in p <==> (InProduct(q, g, e) != (e in r))
  }

  /** `r` is what remains of `p` after division by `g`, whose degree is `d`. */
  ghost predicate IsRemainder(p: Poly, g: Poly, d: nat, r: Poly) {
    (forall e :: e in r ==> e < d) && exists q :: Divides(p, g, q, r)
  }

  // ---- The remainder is unique ----

  ghost function Sum(a: Poly, b: Poly): Poly {
    (a - b) + (b - a)
  }

  lemma SumSize(a: set<nat>, b: set<nat>)
    ensures |Sum(a, b)| % 2 == (|a| + |b|) % 2
  {
    assert a == (a - b) + (a * b) && b == (b - a) + (a * b);
    assert |a| == |a - b| + |a * b|;
    assert |b| == |b - a| + |a * b|;
    assert |Sum(a, b)| == |a - b| + |b - a|;
  }

  lemma ProductOfSum(a: Poly, b: Poly, g: Poly, e: int)
    ensures InProduct(Sum(a, b), g, e) <==> (InProduct(a, g, e) != InProduct(b, g, e))
  {
    assert Pairs(Sum(a, b), g, e) == Sum(Pairs(a, g, e), Pairs(b, g, e));
    SumSize(Pairs(a, g, e), Pairs(b, g, e));
  }

  lemma {:induction false} Degree(q: Poly) returns (m: nat)
    requires q != {}
    ensures m in q && forall i :: i in q ==> i <= m
    decreases |q|
  {
    var first :| first in q;
    var rest := q - {first};
    assert forall i :: i in q ==> i == first || i in rest;
    if rest == {} {
      m := first;
    } else {
      var k := Degree(rest);
      m := if first < k then k else first;
    }
  }

  /** A multiple of `g` that is not zero has a term of degree `d` or more. */
  lemma LeadingTerm(q: Poly, g: Poly, d: nat) returns (e: nat)
    requires q != {} && d in g && forall i :: i in g ==> i <= d
    ensures e >= d && InProduct(q, g, e)
  {
    var m := Degree(q);
    e := m + d;
    assert Pairs(q, g, e) == {m};
  }

  lemma RemainderUnique(p: Poly, g: Poly, d: nat, r: Poly, s: Poly)
    requires d in g && forall i :: i in g ==> i <= d
    requires IsRemainder(p, g, d, r) && IsRemainder(p, g, d, s)
    ensures r == s
  {
    var q :| Divides(p, g, q, r);
    var t :| Divides(p, g, t, s);
    if Sum(q, t) != {} {
      var e := LeadingTerm(Sum(q, t), g, d);
      ProductOfSum(q, t, g, e);
    } else {
      assert q == t;
      forall e: nat ensures e in r <==> e in s {
        assert e in p <==> (InProduct(q, g, e) != (e in r));
      }
    }
  }

  // ---- One more step of long division ----

  ghost function Shift(s: set<nat>): set<nat> {
    set i | i in s :: i + 1
  }

  /** `q * x`, plus one if `carry`. */
  ghost function Next(q: Poly, carry: bool): Poly {
    if carry then Shift(q) + {0} else Shift(q)
  }

  lemma InShift(s: set<nat>, x: nat)
    ensures x in Shift(s) <==> x > 0 && x - 1 in s
  {
    if x > 0 && x - 1 in s {
      var i: nat := x - 1;
      assert i in s && i + 1 == x;
    }
  }

  lemma {:induction false} ShiftSize(s: set<nat>)
    ensures |Shift(s)| == |s|
    decreases |s|
  {
    hide Shift;
    if s == {} {
      forall x: nat ensures x !in Shift(s) {
        InShift(s, x);
      }
      assert Shift(s) == {};
    } else {
      var m :| m in s;
      var rest := s - {m};
      ShiftSize(rest);
      InShift(rest, m + 1);
      forall x: nat ensures x in Shift(s) <==> x in Shift(rest) + {m + 1} {
        InShift(s, x);
        InShift(rest, x);
      }
      assert Shift(s) == Shift(rest) + {m + 1};
    }
  }

  lemma NextPairs(q: Poly, carry: bool, g: Poly, e: nat)
    ensures Pairs(Next(q, carry), g, e) ==
      if carry && e in g then Shift(Pairs(q, g, e - 1)) + {0} else Shift(Pairs(q, g, e - 1))
  {
    hide Shift;
    var before := Pairs(q, g, e - 1);
    forall x: nat
      ensures x in Pairs(Next(q, carry), g, e) <==> x in Shift(before) || (x == 0 && carry && e in g)
    {
      InShift(q, x);
      InShift(before, x);
    }
  }

  lemma NextProduct(q: Poly, carry: bool, g: Poly, e: nat)
    ensures InProduct(Next(q, carry), g, e) <==> ((e > 0 && InProduct(q, g, e - 1)) != (carry && e in g))
  {
    hide Shift, Next;
    var before := Pairs(q, g, e - 1);
    NextPairs(q, carry, g, e);
    ShiftSize(before);
    InShift(before, 0);
    assert e == 0 ==> before == {};
  }
}
