/**
 Polynomials over GF(2^8) as coefficient lists, lowest degree first: a list of length k is a polynomial of
 degree below k. The two results Shamir's scheme rests on are RootsForceZero and Interpolation.
 */
module Polynomials {
  import opened Combinatorics
  import opened Gf256

  type Poly = seq<bv8>

  function Eval(p: Poly, x: bv8): bv8 {
    if p == [] then 0 else Add(Mul(Eval(p[1..], x), x), p[0])
  }

  ghost predicate IsZero(p: Poly) {
    forall i :: 0 <= i < |p| ==> p[i] == 0
  }

  ghost function Sum(p: Poly, q: Poly): (r: Poly)
    requires |p| == |q|
    ensures |r| == |p|
  {
    seq(|p|, i requires 0 <= i < |p| => Add(p[i], q[i]))
  }

  ghost function Scale(c: bv8, p: Poly): (r: Poly)
    ensures |r| == |p|
  {
    seq(|p|, i requires 0 <= i < |p| => Mul(c, p[i]))
  }

  /** Coefficients of (x + r) * p(x) + c. */
  ghost function TimesLinear(p: Poly, r: bv8, c: bv8): (q: Poly)
    ensures |q| == |p| + 1
  {
    if p == [] then [c] else [Add(Mul(p[0], r), c)] + TimesLinear(p[1..], r, p[0])
  }

  /** Quotient of p by (x + r). */
  ghost function DivideLinear(p: Poly, r: bv8): (q: Poly)
    requires p != []
    ensures |q| == |p| - 1
  {
    if |p| == 1 then [] else [Eval(p[1..], r)] + DivideLinear(p[1..], r)
  }

  // Evaluation is a homomorphism

  lemma {:induction false} EvalSum(p: Poly, q: Poly, x: bv8)
    requires |p| == |q|
    ensures Eval(Sum(p, q), x) == Add(Eval(p, x), Eval(q, x))
  {
    hide Add, Mul;
    if p == [] {
      AddLaws(0, 0, 0);
    } else {
      var s := Sum(p, q);
      assert s[1..] == Sum(p[1..], q[1..]);
      EvalSum(p[1..], q[1..], x);
      MulDistributes(x, Eval(p[1..], x), Eval(q[1..], x));
      AddMedial(Mul(Eval(p[1..], x), x), Mul(Eval(q[1..], x), x), p[0], q[0]);
    }
  }

  lemma {:induction false} EvalScale(c: bv8, p: Poly, x: bv8)
    ensures Eval(Scale(c, p), x) == Mul(c, Eval(p, x))
  {
    hide Add, Mul;
    if p == [] {
      MulZero(c);
    } else {
      var s := Scale(c, p);
      assert s[1..] == Scale(c, p[1..]);
      EvalScale(c, p[1..], x);
      MulAssoc(c, Eval(p[1..], x), x);
      MulDistributes(c, Mul(Eval(p[1..], x), x), p[0]);
    }
  }

  lemma {:induction false} EvalTimesLinear(p: Poly, r: bv8, c: bv8, x: bv8)
    ensures Eval(TimesLinear(p, r, c), x) == Add(Mul(Add(x, r), Eval(p, x)), c)
  {
    hide Add, Mul;
    var q := TimesLinear(p, r, c);
    if p == [] {
      assert Eval(q, x) == Add(Mul(Eval(q[1..], x), x), c);
      assert q[1..] == [];
      MulZero(x);
      MulZero(Add(x, r));
    } else {
      var rest := Eval(p[1..], x);
      var d := Add(x, r);
      assert q[1..] == TimesLinear(p[1..], r, p[0]);
      EvalTimesLinear(p[1..], r, p[0], x);
      calc {
        Eval(q, x);
        Add(Mul(Add(Mul(d, rest), p[0]), x), Add(Mul(p[0], r), c));
        { MulDistributes(x, Mul(d, rest), p[0]); MulAssoc(d, rest, x); MulComm(p[0], r); MulComm(p[0], x); }
        Add(Add(Mul(d, Mul(rest, x)), Mul(x, p[0])), Add(Mul(r, p[0]), c));
        { AddLaws(Mul(d, Mul(rest, x)), Mul(x, p[0]), Add(Mul(r, p[0]), c)); AddLaws(Mul(x, p[0]), Mul(r, p[0]), c); }
        Add(Mul(d, Mul(rest, x)), Add(Add(Mul(x, p[0]), Mul(r, p[0])), c));
        { MulDistributes(p[0], x, r); }
        Add(Mul(d, Mul(rest, x)), Add(Mul(d, p[0]), c));
        { AddLaws(Mul(d, Mul(rest, x)), Mul(d, p[0]), c); MulDistributes(d, Mul(rest, x), p[0]); }
        Add(Mul(d, Eval(p, x)), c);
      }
    }
  }

  /** Division with remainder: p(x) = (x + r) q(x) + p(r), as coefficient lists. */
  lemma {:induction false} DivisionExact(p: Poly, r: bv8)
    requires p != []
    ensures TimesLinear(DivideLinear(p, r), r, Eval(p, r)) == p
  {
    hide Add, Mul;
    if |p| == 1 {
      assert p[1..] == [];
      MulZero(r);
      AddLaws(p[0], 0, 0);
    } else {
      var e := Eval(p[1..], r);
      var q := DivideLinear(p, r);
      DivisionExact(p[1..], r);
      assert q[1..] == DivideLinear(p[1..], r);
      AddLaws(Mul(e, r), Mul(e, r), p[0]);
      AddLaws(p[0], 0, 0);
    }
  }

  lemma {:induction false} EvalZero(p: Poly, x: bv8)
    requires IsZero(p)
    ensures Eval(p, x) == 0
  {
    hide Add, Mul;
    if p != [] {
      EvalZero(p[1..], x);
      MulZero(x);
      AddLaws(0, 0, 0);
    }
  }

  lemma {:induction false} TimesLinearZero(p: Poly, r: bv8)
    requires IsZero(p)
    ensures IsZero(TimesLinear(p, r, 0))
  {
    hide Add, Mul;
    if p != [] {
      TimesLinearZero(p[1..], r);
      MulZero(r);
      AddLaws(0, 0, 0);
    }
  }

  /** A polynomial of degree below k with k distinct roots is the zero polynomial. */
  lemma {:induction false} RootsForceZero(p: Poly, roots: seq<bv8>)
    requires |p| == |roots| && Distinct(roots)
    requires forall i :: 0 <= i < |roots| ==> Eval(p, roots[i]) == 0
    ensures IsZero(p)
    decreases |p|
  {
    hide Add, Mul, Eval;
    if p != [] {
      var r := roots[0];
      var q := DivideLinear(p, r);
      DivisionExact(p, r);
      forall i | 0 <= i < |roots| - 1 ensures Eval(q, roots[1..][i]) == 0 {
        var x := roots[i + 1];
        EvalTimesLinear(q, r, 0, x);
        AddLaws(Mul(Add(x, r), Eval(q, x)), 0, 0);
        MulNonZero(Add(x, r), Eval(q, x));
        AddZero(x, r);
      }
      RootsForceZero(q, roots[1..]);
      TimesLinearZero(q, r);
    }
  }

  /** Two polynomials of degree below k that agree at k distinct points are the same. */
  lemma {:induction false} AgreementForcesEqual(p: Poly, q: Poly, xs: seq<bv8>)
    requires |p| == |q| == |xs| && Distinct(xs)
    requires forall i :: 0 <= i < |xs| ==> Eval(p, xs[i]) == Eval(q, xs[i])
    ensures p == q
  {
    hide Add, Mul, Eval;
    var d := Sum(p, q);
    forall i | 0 <= i < |xs| ensures Eval(d, xs[i]) == 0 {
      EvalSum(p, q, xs[i]);
      AddZero(Eval(p, xs[i]), Eval(q, xs[i]));
    }
    RootsForceZero(d, xs);
    forall i | 0 <= i < |p| ensures p[i] == q[i] {
      assert d[i] == 0;
      AddZero(p[i], q[i]);
    }
  }

  // Lagrange interpolation

  function Others(xs: seq<bv8>, i: nat): (r: seq<bv8>)
    requires i < |xs|
    ensures |r| == |xs| - 1
  {
    xs[..i] + xs[i + 1..]
  }

  /** Product of (x + y) over the points y. */
  function DiffProduct(ys: seq<bv8>, x: bv8): bv8 {
    if ys == [] then 1 else Mul(DiffProduct(ys[..|ys| - 1], x), Add(x, ys[|ys| - 1]))
  }

  ghost function LinearProduct(ys: seq<bv8>): (p: Poly)
    ensures |p| == |ys| + 1
  {
    if ys == [] then [1] else TimesLinear(LinearProduct(ys[..|ys| - 1]), ys[|ys| - 1], 0)
  }

  lemma {:induction false} EvalLinearProduct(ys: seq<bv8>, x: bv8)
    ensures Eval(LinearProduct(ys), x) == DiffProduct(ys, x)
  {
    hide Add, Mul;
    if ys == [] {
      var one: Poly := [1];
      assert one[1..] == [];
      MulZero(x);
      AddLaws(1, 0, 0);
    } else {
      var front, y := ys[..|ys| - 1], ys[|ys| - 1];
      hide Eval;
      EvalLinearProduct(front, x);
      EvalTimesLinear(LinearProduct(front), y, 0, x);
      AddLaws(Mul(Add(x, y), DiffProduct(front, x)), 0, 0);
      MulComm(Add(x, y), DiffProduct(front, x));
    }
  }

  lemma {:induction false} DiffProductZero(ys: seq<bv8>, x: bv8)
    ensures DiffProduct(ys, x) == 0 <==> x in ys
  {
    hide Add, Mul;
    if ys != [] {
      var front, y := ys[..|ys| - 1], ys[|ys| - 1];
      DiffProductZero(front, x);
      MulNonZero(DiffProduct(front, x), Add(x, y));
      AddZero(x, y);
      assert ys == front + [y];
    }
  }

  lemma {:induction false} OthersMember(xs: seq<bv8>, i: nat, m: nat)
    requires Distinct(xs) && i < |xs| && m < |xs|
    ensures xs[m] in Others(xs, i) <==> m != i
  {
    var os := Others(xs, i);
    if m < i {
      assert os[m] == xs[m];
    } else if m > i {
      assert os[m - 1] == xs[m];
    }
  }

  /** Value at x of the i-th Lagrange basis polynomial over xs. */
  ghost function BasisAt(xs: seq<bv8>, i: nat, x: bv8): bv8
    requires i < |xs|
  {
    Mul(DiffProduct(Others(xs, i), x), Inv(DiffProduct(Others(xs, i), xs[i])))
  }

  ghost function LagrangeSum(xs: seq<bv8>, ys: seq<bv8>, x: bv8, n: nat): bv8
    requires n <= |xs| == |ys|
  {
    if n == 0 then 0 else Add(LagrangeSum(xs, ys, x, n - 1), Mul(ys[n - 1], BasisAt(xs, n - 1, x)))
  }

  /** The interpolating polynomial through (xs[i], ys[i]), i < n, vanishing at the other points of xs. */
  ghost function Interpolant(xs: seq<bv8>, ys: seq<bv8>, n: nat): (p: Poly)
    requires n <= |xs| == |ys|
    ensures |p| == |xs|
  {
    if n == 0 then seq(|xs|, i => 0)
    else
      var os := Others(xs, n - 1);
      Sum(Interpolant(xs, ys, n - 1),
          Scale(ys[n - 1], Scale(Inv(DiffProduct(os, xs[n - 1])), LinearProduct(os))))
  }

  lemma {:induction false} EvalInterpolant(xs: seq<bv8>, ys: seq<bv8>, n: nat, x: bv8)
    requires n <= |xs| == |ys|
    ensures Eval(Interpolant(xs, ys, n), x) == LagrangeSum(xs, ys, x, n)
  {
    hide Add, Mul, Inv, Eval;
    if n == 0 {
      EvalZero(Interpolant(xs, ys, 0), x);
    } else {
      var os := Others(xs, n - 1);
      var inv := Inv(DiffProduct(os, xs[n - 1]));
      var term := Scale(ys[n - 1], Scale(inv, LinearProduct(os)));
      EvalInterpolant(xs, ys, n - 1, x);
      EvalSum(Interpolant(xs, ys, n - 1), term, x);
      EvalScale(ys[n - 1], Scale(inv, LinearProduct(os)), x);
      EvalScale(inv, LinearProduct(os), x);
      EvalLinearProduct(os, x);
      MulComm(inv, DiffProduct(os, x));
    }
  }

  lemma {:induction false} BasisAtPoint(xs: seq<bv8>, i: nat, m: nat)
    requires Distinct(xs) && i < |xs| && m < |xs|
    ensures BasisAt(xs, i, xs[m]) == if i == m then 1 else 0
  {
    hide Mul, Inv, DiffProduct;
    var os := Others(xs, i);
    OthersMember(xs, i, m);
    DiffProductZero(os, xs[m]);
    if i == m {
      MulInverse(DiffProduct(os, xs[i]));
    } else {
      MulZero(Inv(DiffProduct(os, xs[i])));
    }
  }

  lemma {:induction false} LagrangeSumAtPoint(xs: seq<bv8>, ys: seq<bv8>, n: nat, m: nat)
    requires Distinct(xs) && n <= |xs| == |ys| && m < |xs|
    ensures LagrangeSum(xs, ys, xs[m], n) == if m < n then ys[m] else 0
  {
    hide Add, Mul, Inv, BasisAt;
    if n > 0 {
      LagrangeSumAtPoint(xs, ys, n - 1, m);
      BasisAtPoint(xs, n - 1, m);
      MulZero(ys[n - 1]);
      MulOne(ys[n - 1]);
      MulComm(ys[n - 1], 1);
      AddLaws(ys[n - 1], 0, 0);
      AddLaws(if m < n - 1 then ys[m] else 0, 0, 0);
    }
  }

  /** Through k points with distinct abscissae passes exactly one polynomial of degree below k. */
  lemma {:induction false} Interpolation(xs: seq<bv8>, ys: seq<bv8>) returns (p: Poly)
    requires Distinct(xs) && |xs| == |ys|
    ensures |p| == |xs|
    ensures forall i :: 0 <= i < |xs| ==> Eval(p, xs[i]) == ys[i]
    ensures forall q: Poly :: |q| == |xs| && (forall i :: 0 <= i < |xs| ==> Eval(q, xs[i]) == ys[i]) ==> q == p
    ensures forall x :: Eval(p, x) == LagrangeSum(xs, ys, x, |xs|)
  {
    hide Eval, LagrangeSum, Interpolant;
    p := Interpolant(xs, ys, |xs|);
    forall x ensures Eval(p, x) == LagrangeSum(xs, ys, x, |xs|) {
      EvalInterpolant(xs, ys, |xs|, x);
    }
    forall i | 0 <= i < |xs| ensures Eval(p, xs[i]) == ys[i] {
      LagrangeSumAtPoint(xs, ys, |xs|, i);
    }
    forall q: Poly | |q| == |xs| && (forall i :: 0 <= i < |xs| ==> Eval(q, xs[i]) == ys[i]) ensures q == p {
      AgreementForcesEqual(p, q, xs);
    }
  }

  lemma {:induction false} EvalAtZero(p: Poly)
    requires p != []
    ensures Eval(p, 0) == p[0]
  {
    hide Add, Mul;
    MulZero(Eval(p[1..], 0));
    AddLaws(p[0], 0, 0);
  }

  /** Lagrange interpolation at 0 returns the constant term of any polynomial of degree below k. */
  lemma {:induction false} LagrangeAtZero(p: Poly, xs: seq<bv8>, ys: seq<bv8>)
    requires p != [] && |p| == |xs| == |ys| && Distinct(xs)
    requires forall i :: 0 <= i < |xs| ==> ys[i] == Eval(p, xs[i])
    ensures LagrangeSum(xs, ys, 0, |xs|) == p[0]
  {
    hide Eval, LagrangeSum;
    var q := Interpolation(xs, ys);
    assert p == q;
    EvalAtZero(p);
  }
}
