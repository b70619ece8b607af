/**
 Shamir secret sharing over GF(2^8): the log/exp tables, the table-driven arithmetic, Horner evaluation,
 Split and Combine.
 */
module Shamir {
  import opened Combinatorics
  import opened Gf256
  import opened Polynomials
  import opened Wrappers

  datatype Share = Share(index: bv8, bytes: seq<bv8>)

  datatype ShamirError =
    | ThresholdBelowOne
    | TooFewHolders
    | TooManyHolders
    | EmptySecret
    | TooFewShares
    | LengthMismatch
    | ReservedIndex
    | DuplicateIndex
    | ZeroDenominator
    | SlicePanic

  lemma {:induction false} ExpStart()
    ensures Exp(0) == 1
  {
  }

  lemma {:induction false} ExpSuccessor(i: nat)
    ensures Exp(i + 1) == Times3(Exp(i))
  {
  }

  /** One step of the table loop: multiply by x, reduce, add the original. */
  method NextPower(x: bv8) returns (r: bv8)
    ensures r == Times3(x)
  {
    var hi := x & 0x80;
    r := x << 1;
    if hi != 0 {
      r := r ^ 0x1B;
    }
    r := r ^ x;
  }

  /** The package-level tables. The constructor is the package initialiser. */
  class Tables {
    const gfExp: array<bv8>
    const gfLog: array<bv8>

    ghost predicate Valid()
      reads gfExp, gfLog
    {
      && gfExp.Length == 256 && gfLog.Length == 256
      && (forall i :: 0 <= i < 255 ==> gfExp[i] == Exp(i))
      && gfExp[255] == 1
      && gfLog[0] == 0
      && (forall a: bv8 :: a != 0 ==> Index(gfLog[Index(a)]) == Log(a))
    }

    constructor ()
      ensures Valid() && fresh(gfExp) && fresh(gfLog)
    {
      gfExp := new bv8[256](_ => 0);
      gfLog := new bv8[256](_ => 0);
      new;
      Fill();
      gfExp[255] := 1;
      forall a: bv8 | a != 0 ensures Index(gfLog[Index(a)]) == Log(a) {
        hide Exp, Index;
        assert Exp(Log(a)) == a;
      }
    }

    method Fill()
      requires gfExp != gfLog && gfExp.Length == gfLog.Length == 256
      requires gfLog[0] == 0
      modifies gfExp, gfLog
      ensures forall j :: 0 <= j < 255 ==> gfExp[j] == Exp(j) && Index(gfLog[Index(Exp(j))]) == j
      ensures gfLog[0] == 0
    {
      hide Exp, Index, FromIndex;
      ExpStart();
      var x: bv8 := 1;
      for i := 0 to 255
        invariant x == Exp(i)
        invariant forall j :: 0 <= j < i ==> gfExp[j] == Exp(j) && Index(gfLog[Index(Exp(j))]) == j
        invariant gfLog[0] == 0
      {
        forall j | 0 <= j < i ensures Index(Exp(j)) != Index(x) {
          ExpInjective(j, i);
          IndexFaithful(Exp(j), x);
        }
        ExpNonZero(i);
        IndexFaithful(x, 0);
        gfExp[i] := x;
        gfLog[Index(x)] := FromIndex(i);
        x := NextPower(x);
        ExpSuccessor(i);
      }
    }

    function GfMul(a: bv8, b: bv8): (r: bv8)
      requires Valid()
      reads gfExp, gfLog
      ensures r == Mul(a, b)
    {
      MulNonZero(a, b);
      if a == 0 || b == 0 then 0
      else
        MulByLog(a, b);
        gfExp[(Index(gfLog[Index(a)]) + Index(gfLog[Index(b)])) % 255]
    }

    function GfInv(a: bv8): (r: bv8)
      requires Valid()
      reads gfExp, gfLog
      ensures r == Inv(a)
      ensures a != 0 ==> Mul(a, r) == 1
    {
      if a == 0 then 0
      else
        MulInverse(a);
        gfExp[(255 - Index(gfLog[Index(a)])) % 255]
    }
  }

  method EvalPoly(t: Tables, poly: Poly, x: bv8) returns (out: bv8)
    requires t.Valid()
    ensures out == Eval(poly, x)
  {
    hide Mul;
    out := 0;
    var i := |poly|;
    while i > 0
      invariant 0 <= i <= |poly|
      invariant out == Eval(poly[i..], x)
    {
      i := i - 1;
      assert poly[i..][1..] == poly[i + 1..];
      out := Add(t.GfMul(out, x), poly[i]);
    }
    assert poly[0..] == poly;
  }

  // Split

  /** The polynomials Split draws: constant term the secret byte, the rest random. */
  function DrawnPolys(secret: seq<bv8>, threshold: nat, draw: (nat, nat) -> bv8): (polys: seq<Poly>)
    requires threshold >= 1
    ensures |polys| == |secret|
    ensures forall b :: 0 <= b < |secret| ==> |polys[b]| == threshold && polys[b][0] == secret[b]
  {
    seq(|secret|, b requires 0 <= b < |secret| => [secret[b]] + seq(threshold - 1, j requires 0 <= j => draw(b, j)))
  }

  function ShareAt(polys: seq<Poly>, x: bv8): Share {
    Share(x, seq(|polys|, b requires 0 <= b < |polys| => Eval(polys[b], x)))
  }

  function SharesOf(polys: seq<Poly>, n: nat): (shares: seq<Share>)
    requires n <= 255
    ensures |shares| == n
  {
    seq(n, s requires 0 <= s < n => ShareAt(polys, FromIndex(s + 1)))
  }

  function SplitError(secret: seq<bv8>, n: int, threshold: int): Option<ShamirError> {
    if threshold < 1 then Some(ThresholdBelowOne)
    else if n < threshold then Some(TooFewHolders)
    else if n > 255 then Some(TooManyHolders)
    else if secret == [] then Some(EmptySecret)
    else None
  }

  method Split(t: Tables, secret: seq<bv8>, n: int, threshold: int, draw: (nat, nat) -> bv8)
    returns (r: Result<seq<Share>, ShamirError>)
    requires t.Valid()
    ensures r == match SplitError(secret, n, threshold)
                 case Some(e) => Err(e)
                 case None => Ok(SharesOf(DrawnPolys(secret, threshold, draw), n))
  {
    if threshold < 1 {
      return Err(ThresholdBelowOne);
    }
    if n < threshold {
      return Err(TooFewHolders);
    }
    if n > 255 {
      return Err(TooManyHolders);
    }
    if |secret| == 0 {
      return Err(EmptySecret);
    }
    var polys := DrawCoefficients(secret, threshold, draw);
    var shares := EvaluateShares(t, polys, n);
    r := Ok(shares);
  }

  /** First half of Split: one polynomial per secret byte. */
  method DrawCoefficients(secret: seq<bv8>, threshold: nat, draw: (nat, nat) -> bv8) returns (polys: seq<Poly>)
    requires threshold >= 1
    ensures polys == DrawnPolys(secret, threshold, draw)
  {
    polys := [];
    for i := 0 to |secret|
      invariant polys == DrawnPolys(secret, threshold, draw)[..i]
    {
      var poly := [secret[i]];
      if threshold > 1 {
        var extra := seq(threshold - 1, j requires 0 <= j => draw(i, j));
        poly := poly + extra;
      }
      assert poly == DrawnPolys(secret, threshold, draw)[i];
      polys := polys + [poly];
    }
  }

  /** Second half of Split: evaluate every polynomial at 1..n. */
  method EvaluateShares(t: Tables, polys: seq<Poly>, n: nat) returns (shares: seq<Share>)
    requires t.Valid() && n <= 255
    ensures shares == SharesOf(polys, n)
  {
    hide Eval, FromIndex, Index;
    shares := [];
    for sIdx := 0 to n
      invariant shares == SharesOf(polys, n)[..sIdx]
    {
      var x := FromIndex(sIdx + 1);
      var bytes: seq<bv8> := [];
      for b := 0 to |polys|
        invariant bytes == ShareAt(polys, x).bytes[..b]
      {
        var y := EvalPoly(t, polys[b], x);
        bytes := bytes + [y];
      }
      assert Share(x, bytes) == SharesOf(polys, n)[sIdx];
      shares := shares + [Share(x, bytes)];
    }
  }

  // Combine

  function Indices(shares: seq<Share>): (xs: seq<bv8>)
    ensures |xs| == |shares|
  {
    seq(|shares|, i requires 0 <= i < |shares| => shares[i].index)
  }

  /** The first index error met when the shares are scanned in order from position i. */
  function IndexError(xs: seq<bv8>, i: nat): (e: Option<ShamirError>)
    requires i <= |xs|
    ensures e.Some? ==> e.value in {ReservedIndex, DuplicateIndex}
    decreases |xs| - i
  {
    if i == |xs| then None
    else if xs[i] == 0 then Some(ReservedIndex)
    else if xs[i] in xs[..i] then Some(DuplicateIndex)
    else IndexError(xs, i + 1)
  }

  ghost predicate SameLengths(shares: seq<Share>) {
    forall i :: 0 <= i < |shares| ==> |shares[i].bytes| == |shares[0].bytes|
  }

  ghost function ByteColumn(shares: seq<Share>, b: nat): (ys: seq<bv8>)
    requires SameLengths(shares)
    requires shares != [] ==> b < |shares[0].bytes|
    ensures |ys| == |shares|
  {
    seq(|shares|, i requires 0 <= i < |shares| => shares[i].bytes[b])
  }

  /** Lagrange interpolation at 0 of every byte position. */
  ghost function InterpolatedSecret(shares: seq<Share>): (secret: seq<bv8>)
    requires shares != [] && SameLengths(shares)
    ensures |secret| == |shares[0].bytes|
  {
    seq(|shares[0].bytes|, b requires 0 <= b < |shares[0].bytes| =>
      LagrangeSum(Indices(shares), ByteColumn(shares, b), 0, |shares|))
  }

  ghost function Combined(shares: seq<Share>, threshold: int): Result<seq<bv8>, ShamirError> {
    if |shares| < threshold then Err(TooFewShares)
    else if threshold < 1 then Err(SlicePanic)
    else
      var used := shares[..threshold];
      if !SameLengths(used) then Err(LengthMismatch)
      else match IndexError(Indices(used), 0)
           case Some(e) => Err(e)
           case None => Ok(InterpolatedSecret(used))
  }

  lemma {:induction false} IndexErrorMeaning(xs: seq<bv8>, i: nat)
    requires i <= |xs| && Distinct(xs[..i]) && 0 !in xs[..i]
    ensures IndexError(xs, i) == None <==> Distinct(xs) && 0 !in xs
    decreases |xs| - i
  {
    if i == |xs| {
      assert xs[..i] == xs;
    } else if xs[i] == 0 {
    } else if xs[i] in xs[..i] {
    } else {
      assert xs[..i + 1] == xs[..i] + [xs[i]];
      IndexErrorMeaning(xs, i + 1);
    }
  }

  /** The scan for zero and repeated indices. */
  method CheckIndices(shares: seq<Share>) returns (bad: Option<ShamirError>)
    ensures bad == IndexError(Indices(shares), 0)
  {
    ghost var xs := Indices(shares);
    var seen: set<bv8> := {};
    for i := 0 to |shares|
      invariant forall x :: x in seen <==> x in xs[..i]
      invariant IndexError(xs, 0) == IndexError(xs, i)
    {
      var index := shares[i].index;
      if index == 0 {
        return Some(ReservedIndex);
      }
      if index in seen {
        return Some(DuplicateIndex);
      }
      seen := seen + {index};
      assert xs[..i + 1] == xs[..i] + [index];
    }
    bad := None;
  }

  method Combine(t: Tables, allShares: seq<Share>, threshold: int) returns (r: Result<seq<bv8>, ShamirError>)
    requires t.Valid()
    ensures r == Combined(allShares, threshold)
    ensures r.Err? ==> r.error != ZeroDenominator
  {
    hide Add, Mul, Inv, Eval, LagrangeSum, DiffProduct, Index, Tables.GfMul, Tables.GfInv, Tables.Valid;
    if |allShares| < threshold {
      return Err(TooFewShares);
    }
    if threshold < 1 {
      return Err(SlicePanic);
    }
    var shares := allShares[..threshold];
    var secretLen := |shares[0].bytes|;
    for i := 0 to |shares|
      invariant forall m :: 0 <= m < i ==> |shares[m].bytes| == secretLen
    {
      if |shares[i].bytes| != secretLen {
        return Err(LengthMismatch);
      }
    }
    var bad := CheckIndices(shares);
    if bad.Some? {
      return Err(bad.value);
    }
    ghost var xs := Indices(shares);
    IndexErrorMeaning(xs, 0);
    var secret: seq<bv8> := [];
    for b := 0 to secretLen
      invariant secret == InterpolatedSecret(shares)[..b]
    {
      ghost var ys := ByteColumn(shares, b);
      var total: bv8 := 0;
      LagrangeSumStart(xs, ys);
      for i := 0 to threshold
        invariant total == LagrangeSum(xs, ys, 0, i)
      {
        var num, den := BasisTerms(t, shares, i);
        DiffProductZero(Others(xs, i), xs[i]);
        OthersMember(xs, i, i);
        if den == 0 {
          return Err(ZeroDenominator);
        }
        var basis := t.GfMul(num, t.GfInv(den));
        total := Add(total, t.GfMul(shares[i].bytes[b], basis));
        LagrangeSumStep(xs, ys, i);
      }
      secret := secret + [total];
    }
    assert secret == InterpolatedSecret(shares);
    r := Ok(secret);
  }

  lemma {:induction false} LagrangeSumStart(xs: seq<bv8>, ys: seq<bv8>)
    requires |xs| == |ys|
    ensures LagrangeSum(xs, ys, 0, 0) == 0
  {
  }

  lemma {:induction false} LagrangeSumStep(xs: seq<bv8>, ys: seq<bv8>, i: nat)
    requires i < |xs| == |ys|
    ensures LagrangeSum(xs, ys, 0, i + 1) == Add(LagrangeSum(xs, ys, 0, i), Mul(ys[i], BasisAt(xs, i, 0)))
  {
  }

  lemma {:induction false} NoDifferences(x: bv8)
    ensures DiffProduct([], x) == DiffProduct([], 0) == 1
  {
  }

  lemma {:induction false} DiffProductSnoc(ys: seq<bv8>, y: bv8, x: bv8)
    ensures DiffProduct(ys + [y], x) == Mul(DiffProduct(ys, x), Add(x, y))
  {
    assert (ys + [y])[..|ys|] == ys;
  }

  /** The inner loop of Combine: numerator and denominator of the i-th basis polynomial at 0. */
  method BasisTerms(t: Tables, shares: seq<Share>, i: nat) returns (num: bv8, den: bv8)
    requires t.Valid() && i < |shares|
    ensures num == DiffProduct(Others(Indices(shares), i), 0)
    ensures den == DiffProduct(Others(Indices(shares), i), shares[i].index)
  {
    hide Add, Mul, DiffProduct, Index, Tables.GfMul, Tables.Valid;
    ghost var xs := Indices(shares);
    NoDifferences(xs[i]);
    num, den := 1, 1;
    for j := 0 to |shares|
      invariant num == DiffProduct(Skip(xs, i, j), 0)
      invariant den == DiffProduct(Skip(xs, i, j), xs[i])
    {
      if i == j {
        assert Skip(xs, i, j + 1) == Skip(xs, i, j);
        continue;
      }
      var x := shares[j].index;
      num := t.GfMul(num, x);
      den := t.GfMul(den, Add(shares[i].index, x));
      AddLaws(x, 0, 0);
      DiffProductSnoc(Skip(xs, i, j), x, 0);
      DiffProductSnoc(Skip(xs, i, j), x, xs[i]);
      assert Skip(xs, i, j + 1) == Skip(xs, i, j) + [x];
    }
    assert xs[i + 1..|xs|] == xs[i + 1..];
  }

  /** The first j points without the i-th. */
  ghost function Skip(xs: seq<bv8>, i: nat, j: nat): seq<bv8>
    requires i < |xs| && j <= |xs|
  {
    if j <= i then xs[..j] else xs[..i] + xs[i + 1..j]
  }

  // What the two operations guarantee together

  /** The shares at the given positions, in the given order. */
  function Pick(shares: seq<Share>, positions: seq<nat>): (r: seq<Share>)
    requires forall i :: 0 <= i < |positions| ==> positions[i] < |shares|
    ensures |r| == |positions|
  {
    seq(|positions|, i requires 0 <= i < |positions| => shares[positions[i]])
  }

  /**
   Any k or more shares of a split secret, in any order, combine to that secret, provided the first k are
   distinct; the others are not looked at.
   */
  lemma {:induction false} SplitThenCombine(secret: seq<bv8>, n: int, k: int, draw: (nat, nat) -> bv8,
                                            positions: seq<nat>)
    requires SplitError(secret, n, k) == None
    requires |positions| >= k && Distinct(positions[..k])
    requires forall i :: 0 <= i < |positions| ==> positions[i] < n
    ensures Combined(Pick(SharesOf(DrawnPolys(secret, k, draw), n), positions), k) == Ok(secret)
  {
    hide Eval, LagrangeSum, FromIndex, Index;
    var polys := DrawnPolys(secret, k, draw);
    var used := Pick(SharesOf(polys, n), positions)[..k];
    var xs := Indices(used);
    forall i, j | 0 <= i < j < k ensures xs[i] != xs[j] {
      assert positions[..k][i] != positions[..k][j];
      assert Index(xs[i]) == positions[i] + 1 && Index(xs[j]) == positions[j] + 1;
    }
    forall i | 0 <= i < k ensures xs[i] != 0 {
      assert Index(xs[i]) == positions[i] + 1;
      IndexFaithful(xs[i], 0);
    }
    IndexErrorMeaning(xs, 0);
    forall b | 0 <= b < |secret| ensures InterpolatedSecret(used)[b] == secret[b] {
      LagrangeAtZero(polys[b], xs, ByteColumn(used, b));
    }
    assert InterpolatedSecret(used) == secret;
  }

  /** Drawing poly for the secret byte s yields the share bytes ys at the indices xs. */
  ghost predicate Explains(poly: Poly, s: bv8, xs: seq<bv8>, ys: seq<bv8>)
    requires |xs| == |ys|
  {
    && |poly| == |xs| + 1 && poly[0] == s
    && forall i :: 0 <= i < |xs| ==> Eval(poly, xs[i]) == ys[i]
  }

  /**
   k - 1 shares say nothing about a secret byte: whatever the candidate s, exactly one choice of the random
   coefficients makes Split hand out the given bytes at the given indices.
   */
  lemma {:induction false} EveryCandidateOnce(s: bv8, xs: seq<bv8>, ys: seq<bv8>) returns (poly: Poly)
    requires |xs| == |ys| && Distinct(xs) && 0 !in xs
    ensures Explains(poly, s, xs, ys)
    ensures forall other :: Explains(other, s, xs, ys) ==> other == poly
  {
    hide Eval, LagrangeSum;
    var points, values := [0] + xs, [s] + ys;
    poly := Interpolation(points, values);
    EvalAtZero(poly);
    assert points[0] == 0 && values[0] == s;
    forall i | 0 <= i < |xs| ensures Eval(poly, xs[i]) == ys[i] {
      assert points[i + 1] == xs[i] && values[i + 1] == ys[i];
    }
    forall other | Explains(other, s, xs, ys) ensures other == poly {
      EvalAtZero(other);
      forall i | 0 <= i < |points| ensures Eval(other, points[i]) == values[i] {
        assert i > 0 ==> Eval(other, xs[i - 1]) == ys[i - 1];
      }
    }
  }

  ghost predicate ProducesShares(polys: seq<Poly>, secret: seq<bv8>, k: nat, shares: seq<Share>) {
    && |polys| == |secret|
    && (forall b :: 0 <= b < |secret| ==> |polys[b]| == k >= 1 && polys[b][0] == secret[b])
    && (forall i :: 0 <= i < |shares| ==> shares[i] == ShareAt(polys, shares[i].index))
  }

  /** The same for whole secrets: one table of polynomials per candidate secret produces exactly these shares. */
  lemma {:induction false} SharesHideSecret(secret: seq<bv8>, k: nat, shares: seq<Share>) returns (polys: seq<Poly>)
    requires k >= 1 && |shares| == k - 1
    requires Distinct(Indices(shares)) && 0 !in Indices(shares)
    requires forall i :: 0 <= i < |shares| ==> |shares[i].bytes| == |secret|
    ensures ProducesShares(polys, secret, k, shares)
    ensures forall other :: ProducesShares(other, secret, k, shares) ==> other == polys
  {
    hide Eval;
    var xs := Indices(shares);
    polys := [];
    for b := 0 to |secret|
      invariant |polys| == b
      invariant forall c :: 0 <= c < b ==> Explains(polys[c], secret[c], xs, ByteColumn(shares, c))
      invariant forall c, p :: 0 <= c < b && Explains(p, secret[c], xs, ByteColumn(shares, c)) ==> p == polys[c]
    {
      var poly := EveryCandidateOnce(secret[b], xs, ByteColumn(shares, b));
      polys := polys + [poly];
    }
    forall i | 0 <= i < |shares| ensures shares[i] == ShareAt(polys, shares[i].index) {
      forall b | 0 <= b < |secret| ensures Eval(polys[b], xs[i]) == shares[i].bytes[b] {
        assert ByteColumn(shares, b)[i] == shares[i].bytes[b];
      }
      assert shares[i].bytes == ShareAt(polys, shares[i].index).bytes;
    }
    forall other | ProducesShares(other, secret, k, shares) ensures other == polys {
      forall b | 0 <= b < |secret| ensures other[b] == polys[b] {
        assert Explains(other[b], secret[b], xs, ByteColumn(shares, b));
      }
    }
  }

  // What the draw is for

  lemma {:induction false} SplitErrorMeaning(secret: seq<bv8>, n: int, threshold: int)
    ensures SplitError(secret, n, threshold).None? <==> 1 <= threshold <= n <= 255 && secret != []
  {
  }

  /** Combining succeeds exactly on enough shares of one length with distinct non-zero indices among the first k. */
  lemma {:induction false} CombinedIff(shares: seq<Share>, threshold: int)
    ensures Combined(shares, threshold).Ok? <==>
              (&& 1 <= threshold <= |shares| && SameLengths(shares[..threshold])
               && Distinct(Indices(shares[..threshold])) && 0 !in Indices(shares[..threshold]))
  {
    hide InterpolatedSecret;
    if 1 <= threshold <= |shares| {
      IndexErrorMeaning(Indices(shares[..threshold]), 0);
    }
  }

  /** Share s is every drawn polynomial at s + 1; coefficient j of byte b is draw(b, j - 1), the constant the secret. */
  lemma {:induction false} DrawnShares(secret: seq<bv8>, n: nat, k: nat, draw: (nat, nat) -> bv8)
    requires 1 <= k && n <= 255
    ensures var polys := DrawnPolys(secret, k, draw);
            && (forall b :: 0 <= b < |secret| ==> |polys[b]| == k && polys[b][0] == secret[b])
            && (forall b, j :: 0 <= b < |secret| && 0 < j < k ==> polys[b][j] == draw(b, j - 1))
    ensures var shares := SharesOf(DrawnPolys(secret, k, draw), n);
            forall s :: 0 <= s < n ==> Index(shares[s].index) == s + 1 && |shares[s].bytes| == |secret|
    ensures var polys, shares := DrawnPolys(secret, k, draw), SharesOf(DrawnPolys(secret, k, draw), n);
            forall s, b :: 0 <= s < n && 0 <= b < |shares[s].bytes| && b < |polys| ==>
              shares[s].bytes[b] == Eval(polys[b], shares[s].index)
  {
    hide Eval, Index;
  }

  /** Two draws that agree on all the bytes and coefficients a split uses. */
  ghost predicate SameDraw(a: (nat, nat) -> bv8, b: (nat, nat) -> bv8, length: nat, count: nat) {
    forall i, j :: 0 <= i < length && 0 <= j < count ==> a(i, j) == b(i, j)
  }

  ghost function DrawOf(polys: seq<Poly>): (nat, nat) -> bv8 {
    (b: nat, j: nat) => if b < |polys| && j + 1 < |polys[b]| then polys[b][j + 1] else 0
  }

  lemma {:induction false} DrawnBack(other: seq<bv8>, k: nat, polys: seq<Poly>)
    requires k >= 1 && |polys| == |other|
    requires forall b :: 0 <= b < |other| ==> |polys[b]| == k && polys[b][0] == other[b]
    ensures DrawnPolys(other, k, DrawOf(polys)) == polys
  {
    var drawn := DrawnPolys(other, k, DrawOf(polys));
    forall b | 0 <= b < |other| ensures drawn[b] == polys[b] {
    }
  }

  lemma {:induction false} PickedProduced(other: seq<bv8>, n: nat, k: nat, fake: (nat, nat) -> bv8, positions: seq<nat>,
                                          shares: seq<Share>)
    requires 1 <= k && n <= 255 && forall i :: 0 <= i < |positions| ==> positions[i] < n
    requires |shares| == |positions|
    requires forall i :: 0 <= i < |shares| ==> Index(shares[i].index) == positions[i] + 1
    ensures Pick(SharesOf(DrawnPolys(other, k, fake), n), positions) == shares
       <==> ProducesShares(DrawnPolys(other, k, fake), other, k, shares)
  {
    hide Eval, Index, DrawnPolys;
    var polys := DrawnPolys(other, k, fake);
    var picked := Pick(SharesOf(polys, n), positions);
    forall i | 0 <= i < |shares| ensures picked[i] == ShareAt(polys, shares[i].index) {
      IndexFaithful(shares[i].index, FromIndex(positions[i] + 1));
    }
    assert picked == shares <==> forall i :: 0 <= i < |shares| ==> shares[i] == ShareAt(polys, shares[i].index);
  }

  /**
   The randomness is what hides the secret: whatever k - 1 holders see of a split, any other secret of the same length
   would have shown them exactly that under one draw, and under one only.
   */
  lemma {:induction false} DrawHidesSecret(secret: seq<bv8>, n: int, k: int, draw: (nat, nat) -> bv8,
                                           positions: seq<nat>, other: seq<bv8>)
    returns (fake: (nat, nat) -> bv8)
    requires SplitError(secret, n, k).None? && |other| == |secret|
    requires |positions| == k - 1 && Distinct(positions) && forall i :: 0 <= i < |positions| ==> positions[i] < n
    ensures Pick(SharesOf(DrawnPolys(other, k, fake), n), positions)
         == Pick(SharesOf(DrawnPolys(secret, k, draw), n), positions)
    ensures forall another: (nat, nat) -> bv8 ::
              Pick(SharesOf(DrawnPolys(other, k, another), n), positions)
              == Pick(SharesOf(DrawnPolys(secret, k, draw), n), positions)
              ==> SameDraw(another, fake, |secret|, k - 1)
  {
    hide Eval, Index, SharesOf, DrawnPolys, ProducesShares;
    var shares := Pick(SharesOf(DrawnPolys(secret, k, draw), n), positions);
    PickedIndices(secret, n, k, draw, positions);
    var polys := SharesHideSecret(other, k, shares);
    ProducedShape(polys, other, k, shares);
    fake := DrawOf(polys);
    DrawnBack(other, k, polys);
    PickedProduced(other, n, k, fake, positions, shares);
    forall another: (nat, nat) -> bv8 | Pick(SharesOf(DrawnPolys(other, k, another), n), positions) == shares
      ensures SameDraw(another, fake, |secret|, k - 1)
    {
      PickedProduced(other, n, k, another, positions, shares);
      SamePolysSameDraw(other, k, another, polys);
    }
  }

  lemma {:induction false} PickedIndices(secret: seq<bv8>, n: nat, k: nat, draw: (nat, nat) -> bv8,
                                         positions: seq<nat>)
    requires 1 <= k && n <= 255 && Distinct(positions)
    requires forall i :: 0 <= i < |positions| ==> positions[i] < n
    ensures var shares := Pick(SharesOf(DrawnPolys(secret, k, draw), n), positions);
            && Distinct(Indices(shares)) && 0 !in Indices(shares)
            && forall i :: 0 <= i < |shares| ==>
                 Index(shares[i].index) == positions[i] + 1 && |shares[i].bytes| == |secret|
  {
    hide Eval, Index;
    var shares := Pick(SharesOf(DrawnPolys(secret, k, draw), n), positions);
    DrawnShares(secret, n, k, draw);
    forall i | 0 <= i < |shares| ensures Indices(shares)[i] != 0 {
      IndexFaithful(shares[i].index, 0);
    }
    forall i, j | 0 <= i < j < |shares| ensures Indices(shares)[i] != Indices(shares)[j] {
      assert positions[i] != positions[j];
    }
  }

  lemma {:induction false} ProducedShape(polys: seq<Poly>, other: seq<bv8>, k: nat, shares: seq<Share>)
    requires ProducesShares(polys, other, k, shares)
    ensures |polys| == |other|
    ensures forall b :: 0 <= b < |other| ==> |polys[b]| == k && polys[b][0] == other[b]
  {
    hide Eval;
  }

  lemma {:induction false} SamePolysSameDraw(other: seq<bv8>, k: nat, another: (nat, nat) -> bv8, polys: seq<Poly>)
    requires 1 <= k && DrawnPolys(other, k, another) == polys
    ensures SameDraw(another, DrawOf(polys), |other|, k - 1)
  {
    forall b, j | 0 <= b < |other| && 0 <= j < k - 1 ensures another(b, j) == DrawOf(polys)(b, j) {
      assert DrawnPolys(other, k, another)[b][j + 1] == another(b, j);
    }
  }
}
