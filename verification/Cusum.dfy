/**
 The two-sided CUSUM drift detector, aggregate and per bit.

 Floating-point numbers are modelled as reals; the square root is a parameter.
 */
module Cusum {
  import opened Wrappers
  import Statistics

  datatype CusumError = TooFewCycles | EmptyVector | RaggedVectors | WrongWidth

  /** The calibrated parameters. */
  datatype Calibration = Calibration(mu: real, sigma: real, k: real, h: real, perBitBER: seq<real>)

  /** The running sums. */
  datatype State = State(plusAgg: real, minusAgg: real, plusBits: seq<real>, minusBits: seq<real>, observations: nat)

  datatype Level = OK | BroadDrift | TargetedDrift | Critical

  datatype DriftVerdict = DriftVerdict(
    hammingDistance: nat,
    aggregatePlus: real,
    aggregateMinus: real,
    maxPerBitPlus: real,
    maxPerBitMinus: real,
    argmaxPlus: nat,
    argmaxMinus: nat,
    driftingBitCount: nat,
    aggregateFired: bool,
    perBitFired: bool,
    level: Level)

  const PER_BIT_ALTERNATIVE_BER := 0.05
  const PER_BIT_ALARM_THRESHOLD := 1.5

  function Max(x: real, y: real): real { if x > y then x else y }

  function FlipCount(delta: seq<bool>): (n: nat)
    ensures n <= |delta|
  {
    if delta == [] then 0
    else FlipCount(delta[..|delta| - 1]) + (if delta[|delta| - 1] then 1 else 0)
  }

  /** Slack of one bit's detector with enrolled error rate p. */
  function BitSlack(p: real): (k: real)
    ensures k >= 0.01
  {
    var p0 := if p < 0.001 then 0.001 else p;
    var k := (PER_BIT_ALTERNATIVE_BER - p0) / 2.0;
    if k < 0.01 then 0.01 else k
  }

  function Indicator(b: bool): real { if b then 1.0 else 0.0 }

  // Increments of the four kinds of sum in one cycle

  function PlusIncrement(cal: Calibration, delta: seq<bool>): real {
    FlipCount(delta) as real - cal.mu - cal.k
  }

  function MinusIncrement(cal: Calibration, delta: seq<bool>): real {
    -(FlipCount(delta) as real - cal.mu) - cal.k
  }

  function BitPlusIncrement(p: real, flipped: bool): real {
    Indicator(flipped) - p - BitSlack(p)
  }

  function BitMinusIncrement(p: real, flipped: bool): real {
    -(Indicator(flipped) - p) - BitSlack(p)
  }

  ghost predicate Fits(cal: Calibration, s: State) {
    |s.plusBits| == |s.minusBits| == |cal.perBitBER|
  }

  ghost function PlusBitsAfter(cal: Calibration, bits: seq<real>, delta: seq<bool>): (r: seq<real>)
    requires |bits| == |delta| == |cal.perBitBER|
    ensures |r| == |bits|
  {
    seq(|delta|, i requires 0 <= i < |delta| => Max(0.0, bits[i] + BitPlusIncrement(cal.perBitBER[i], delta[i])))
  }

  ghost function MinusBitsAfter(cal: Calibration, bits: seq<real>, delta: seq<bool>): (r: seq<real>)
    requires |bits| == |delta| == |cal.perBitBER|
    ensures |r| == |bits|
  {
    seq(|delta|, i requires 0 <= i < |delta| => Max(0.0, bits[i] + BitMinusIncrement(cal.perBitBER[i], delta[i])))
  }

  ghost function Step(cal: Calibration, s: State, delta: seq<bool>): (r: State)
    requires Fits(cal, s) && |delta| == |cal.perBitBER|
    ensures Fits(cal, r)
  {
    State(
      Max(0.0, s.plusAgg + PlusIncrement(cal, delta)),
      Max(0.0, s.minusAgg + MinusIncrement(cal, delta)),
      PlusBitsAfter(cal, s.plusBits, delta),
      MinusBitsAfter(cal, s.minusBits, delta),
      s.observations + 1)
  }

  // The verdict

  function Drifting(plus: real, minus: real): bool {
    plus > PER_BIT_ALARM_THRESHOLD || minus > PER_BIT_ALARM_THRESHOLD
  }

  function DriftCount(plus: seq<real>, minus: seq<real>, n: nat): (c: nat)
    requires n <= |plus| == |minus|
  {
    if n == 0 then 0
    else DriftCount(plus, minus, n - 1) + (if Drifting(plus[n - 1], minus[n - 1]) then 1 else 0)
  }

  /** Largest positive value among the first n and the first place it occurs; 0 at place 0 if none is positive. */
  function Peak(xs: seq<real>, n: nat): (p: (real, nat))
    requires n <= |xs|
  {
    if n == 0 then (0.0, 0)
    else
      var before := Peak(xs, n - 1);
      if xs[n - 1] > before.0 then (xs[n - 1], n - 1) else before
  }

  function LevelOf(aggregate: bool, perBit: bool): Level {
    if aggregate && perBit then Critical else if aggregate then BroadDrift else if perBit then TargetedDrift else OK
  }

  datatype BitSummary = BitSummary(plus: (real, nat), minus: (real, nat), drifting: nat)

  ghost function SummaryOf(plus: seq<real>, minus: seq<real>): BitSummary
    requires |plus| == |minus|
  {
    BitSummary(Peak(plus, |plus|), Peak(minus, |minus|), DriftCount(plus, minus, |plus|))
  }

  ghost function Verdict(cal: Calibration, s: State, delta: seq<bool>): DriftVerdict
    requires Fits(cal, s)
  {
    var bits := SummaryOf(s.plusBits, s.minusBits);
    var fired := s.plusAgg > cal.h || s.minusAgg > cal.h;
    DriftVerdict(FlipCount(delta), s.plusAgg, s.minusAgg, bits.plus.0, bits.minus.0, bits.plus.1, bits.minus.1,
                 bits.drifting, fired, bits.drifting > 0, LevelOf(fired, bits.drifting > 0))
  }

  class Detector {
    const cal: Calibration
    var sPlusAgg: real
    var sMinusAgg: real
    const sPlusBits: array<real>
    const sMinusBits: array<real>
    var observations: nat

    ghost predicate Valid() {
      sPlusBits != sMinusBits && sPlusBits.Length == sMinusBits.Length == |cal.perBitBER|
    }

    ghost function Sums(): State
      reads this, sPlusBits, sMinusBits
    {
      State(sPlusAgg, sMinusAgg, sPlusBits[..], sMinusBits[..], observations)
    }

    constructor (c: Calibration)
      ensures Valid() && cal == c && Sums() == Zero(c)
      ensures fresh(sPlusBits) && fresh(sMinusBits)
    {
      cal, sPlusAgg, sMinusAgg, observations := c, 0.0, 0.0, 0;
      sPlusBits := new real[|c.perBitBER|](_ => 0.0);
      sMinusBits := new real[|c.perBitBER|](_ => 0.0);
    }

    method Observe(bitDelta: seq<bool>) returns (r: Result<DriftVerdict, CusumError>)
      requires Valid()
      modifies this, sPlusBits, sMinusBits
      ensures Valid()
      ensures |bitDelta| != |cal.perBitBER| ==> r == Err(WrongWidth) && Sums() == old(Sums())
      ensures |bitDelta| == |cal.perBitBER| ==>
                && Sums() == Step(cal, old(Sums()), bitDelta)
                && r == Ok(Verdict(cal, Sums(), bitDelta))
    {
      var n := |cal.perBitBER|;
      if |bitDelta| != n {
        return Err(WrongWidth);
      }
      var h := CountFlips(bitDelta);
      var delta := h as real - cal.mu;
      sPlusAgg := Max(0.0, sPlusAgg + delta - cal.k);
      sMinusAgg := Max(0.0, sMinusAgg - delta - cal.k);
      var bits := ObserveBits(bitDelta);
      observations := observations + 1;
      var fired := sPlusAgg > cal.h || sMinusAgg > cal.h;
      r := Ok(DriftVerdict(h, sPlusAgg, sMinusAgg, bits.plus.0, bits.minus.0, bits.plus.1, bits.minus.1, bits.drifting,
                           fired, bits.drifting > 0, LevelOf(fired, bits.drifting > 0)));
    }

    /** The per-bit loop of Observe. */
    method ObserveBits(bitDelta: seq<bool>) returns (r: BitSummary)
      requires Valid() && |bitDelta| == |cal.perBitBER|
      modifies sPlusBits, sMinusBits
      ensures sPlusBits[..] == PlusBitsAfter(cal, old(sPlusBits[..]), bitDelta)
      ensures sMinusBits[..] == MinusBitsAfter(cal, old(sMinusBits[..]), bitDelta)
      ensures r == SummaryOf(sPlusBits[..], sMinusBits[..])
    {
      hide BitSlack, Drifting;
      var n := |cal.perBitBER|;
      ghost var plus := PlusBitsAfter(cal, sPlusBits[..], bitDelta);
      ghost var minus := MinusBitsAfter(cal, sMinusBits[..], bitDelta);
      var driftingBits := 0;
      var maxSPlus, maxSMinus := 0.0, 0.0;
      var argmaxPlus, argmaxMinus := 0, 0;
      for i := 0 to n
        invariant forall j :: 0 <= j < i ==> sPlusBits[j] == plus[j] && sMinusBits[j] == minus[j]
        invariant forall j :: i <= j < n ==> sPlusBits[j] == old(sPlusBits[j]) && sMinusBits[j] == old(sMinusBits[j])
        invariant driftingBits == DriftCount(plus, minus, i)
        invariant (maxSPlus, argmaxPlus) == Peak(plus, i)
        invariant (maxSMinus, argmaxMinus) == Peak(minus, i)
      {
        var obs := if bitDelta[i] then 1.0 else 0.0;
        var d := obs - cal.perBitBER[i];
        var kI := BitSlack(cal.perBitBER[i]);
        sPlusBits[i] := Max(0.0, sPlusBits[i] + d - kI);
        sMinusBits[i] := Max(0.0, sMinusBits[i] - d - kI);
        if Drifting(sPlusBits[i], sMinusBits[i]) {
          driftingBits := driftingBits + 1;
        }
        if sPlusBits[i] > maxSPlus {
          maxSPlus, argmaxPlus := sPlusBits[i], i;
        }
        if sMinusBits[i] > maxSMinus {
          maxSMinus, argmaxMinus := sMinusBits[i], i;
        }
      }
      assert sPlusBits[..] == plus && sMinusBits[..] == minus;
      r := BitSummary((maxSPlus, argmaxPlus), (maxSMinus, argmaxMinus), driftingBits);
    }

    method Reset()
      requires Valid()
      modifies this, sPlusBits, sMinusBits
      ensures Valid() && Sums() == Zero(cal)
    {
      sPlusAgg, sMinusAgg := 0.0, 0.0;
      observations := 0;
      for i := 0 to sPlusBits.Length
        invariant sPlusAgg == sMinusAgg == 0.0 && observations == 0
        invariant forall j :: 0 <= j < i ==> sPlusBits[j] == sMinusBits[j] == 0.0
      {
        sPlusBits[i] := 0.0;
        sMinusBits[i] := 0.0;
      }
    }
  }

  // Calibration

  /** Cycles in which bit i flipped. */
  function ColumnCount(rows: seq<seq<bool>>, i: nat): (n: nat)
    requires forall t :: 0 <= t < |rows| ==> i < |rows[t]|
    ensures n <= |rows|
  {
    if rows == [] then 0
    else ColumnCount(rows[..|rows| - 1], i) + (if rows[|rows| - 1][i] then 1 else 0)
  }

  function HammingDistances(rows: seq<seq<bool>>): (hs: seq<real>)
    ensures |hs| == |rows|
  {
    seq(|rows|, t requires 0 <= t < |rows| => FlipCount(rows[t]) as real)
  }

  ghost predicate Rectangular(rows: seq<seq<bool>>, n: nat) {
    forall t :: 0 <= t < |rows| ==> |rows[t]| == n
  }

  function ErrorRates(rows: seq<seq<bool>>, n: nat): (rates: seq<real>)
    requires rows != [] && Rectangular(rows, n)
    ensures |rates| == n
  {
    seq(n, i requires 0 <= i < n => ColumnCount(rows, i) as real / |rows| as real)
  }

  function CalibrationOf(rows: seq<seq<bool>>, n: nat, sqrt: real -> real): (cal: Calibration)
    requires rows != [] && Rectangular(rows, n)
    ensures |cal.perBitBER| == n
  {
    var mu := Statistics.MeanOf(HammingDistances(rows));
    var measured := Statistics.DeviationOf(HammingDistances(rows), mu, sqrt);
    var sigma := if measured < 0.5 then 0.5 else measured;
    Calibration(mu, sigma, 0.5 * sigma, 5.0 * sigma, ErrorRates(rows, n))
  }

  method Calibrate(rows: seq<seq<bool>>, sqrt: real -> real) returns (r: Option<CusumError>, c: Detector?)
    ensures r.None? <==> |rows| >= 8 && |rows[0]| > 0 && Rectangular(rows, |rows[0]|)
    ensures |rows| < 8 ==> r == Some(TooFewCycles)
    ensures |rows| >= 8 && |rows[0]| == 0 ==> r == Some(EmptyVector)
    ensures |rows| >= 8 && |rows[0]| > 0 && !Rectangular(rows, |rows[0]|) ==> r == Some(RaggedVectors)
    ensures r.None? ==> c != null && fresh(c) && c.Valid()
    ensures r.None? ==> c.cal == CalibrationOf(rows, |rows[0]|, sqrt) && c.Sums() == Zero(c.cal)
  {
    c := null;
    if |rows| < 8 {
      return Some(TooFewCycles), null;
    }
    var n := |rows[0]|;
    if n == 0 {
      return Some(EmptyVector), null;
    }
    for i := 0 to |rows|
      invariant Rectangular(rows[..i], n)
    {
      if |rows[i]| != n {
        return Some(RaggedVectors), null;
      }
    }
    assert rows[..|rows|] == rows;
    var rates, hamming := CountRates(rows, n);
    var mu := Statistics.Mean(hamming);
    var sigma := Statistics.StdDev(hamming, mu, sqrt);
    if sigma < 0.5 {
      sigma := 0.5;
    }
    c := new Detector(Calibration(mu, sigma, 0.5 * sigma, 5.0 * sigma, rates));
    r := None;
  }

  /** The counting loops of Calibrate: flips per bit and per cycle. */
  method CountRates(rows: seq<seq<bool>>, n: nat) returns (rates: seq<real>, hamming: seq<real>)
    requires rows != [] && Rectangular(rows, n)
    ensures rates == ErrorRates(rows, n) && hamming == HammingDistances(rows)
  {
    var berPerBit := new nat[n](_ => 0);
    hamming := [];
    for t := 0 to |rows|
      invariant hamming == HammingDistances(rows)[..t]
      invariant forall i :: 0 <= i < n ==> berPerBit[i] == ColumnCount(rows[..t], i)
    {
      assert rows[..t + 1][..t] == rows[..t];
      var h := CountRow(rows[t], berPerBit);
      hamming := hamming + [h as real];
    }
    assert rows[..|rows|] == rows;
    rates := seq(n, i requires 0 <= i < n reads berPerBit => berPerBit[i] as real / |rows| as real);
  }

  method CountRow(row: seq<bool>, counts: array<nat>) returns (h: nat)
    requires counts.Length == |row|
    modifies counts
    ensures h == FlipCount(row)
    ensures forall i :: 0 <= i < |row| ==> counts[i] == old(counts[i]) + (if row[i] then 1 else 0)
  {
    h := 0;
    for i := 0 to |row|
      invariant h == FlipCount(row[..i])
      invariant forall m :: 0 <= m < i ==> counts[m] == old(counts[m]) + (if row[m] then 1 else 0)
      invariant forall m :: i <= m < |row| ==> counts[m] == old(counts[m])
    {
      assert row[..i + 1][..i] == row[..i];
      if row[i] {
        counts[i] := counts[i] + 1;
        h := h + 1;
      }
    }
    assert row[..|row|] == row;
  }

  // Exchanging the sums over rows and columns

  ghost function ColumnTotal(rows: seq<seq<bool>>, n: nat): nat
    requires forall t :: 0 <= t < |rows| ==> n <= |rows[t]|
  {
    if n == 0 then 0 else ColumnTotal(rows, n - 1) + ColumnCount(rows, n - 1)
  }

  lemma {:induction false} AddRow(rows: seq<seq<bool>>, row: seq<bool>, n: nat)
    requires forall t :: 0 <= t < |rows| ==> n <= |rows[t]|
    requires n <= |row|
    ensures ColumnTotal(rows + [row], n) == ColumnTotal(rows, n) + FlipCount(row[..n])
  {
    if n > 0 {
      AddRow(rows, row, n - 1);
      assert (rows + [row])[..|rows|] == rows;
      assert row[..n][..n - 1] == row[..n - 1];
    }
  }

  lemma {:induction false} NoRows(n: nat)
    ensures ColumnTotal([], n) == 0
  {
    if n > 0 {
      NoRows(n - 1);
    }
  }

  lemma {:induction false} TotalsAgree(rows: seq<seq<bool>>, n: nat)
    requires Rectangular(rows, n)
    ensures ColumnTotal(rows, n) as real == Statistics.Sum(HammingDistances(rows))
  {
    if rows == [] {
      NoRows(n);
    } else {
      var front, row := rows[..|rows| - 1], rows[|rows| - 1];
      TotalsAgree(front, n);
      AddRow(front, row, n);
      assert rows == front + [row];
      assert row[..n] == row;
      assert HammingDistances(rows)[..|front|] == HammingDistances(front);
    }
  }

  lemma {:induction false} RatesSum(rows: seq<seq<bool>>, n: nat, m: nat)
    requires rows != [] && Rectangular(rows, n) && m <= n
    ensures Statistics.Sum(ErrorRates(rows, n)[..m]) == ColumnTotal(rows, m) as real / |rows| as real
  {
    var rates := ErrorRates(rows, n);
    if m > 0 {
      RatesSum(rows, n, m - 1);
      assert rates[..m][..m - 1] == rates[..m - 1];
      AddQuotients(ColumnTotal(rows, m - 1) as real, ColumnCount(rows, m - 1) as real, |rows| as real);
    }
  }

  lemma {:induction false} AddQuotients(a: real, b: real, c: real)
    requires c != 0.0
    ensures a / c + b / c == (a + b) / c
  {
  }

  /** The calibrated mean distance is the sum of the per-bit error rates. */
  lemma {:induction false} MeanIsSumOfRates(rows: seq<seq<bool>>, n: nat, sqrt: real -> real)
    requires rows != [] && Rectangular(rows, n)
    ensures var cal := CalibrationOf(rows, n, sqrt);
            cal.mu == Statistics.Sum(cal.perBitBER) && cal.k >= 0.25 && cal.h >= 2.5
  {
    RatesSum(rows, n, n);
    TotalsAgree(rows, n);
    assert ErrorRates(rows, n)[..n] == ErrorRates(rows, n);
  }

  method CountFlips(delta: seq<bool>) returns (h: nat)
    ensures h == FlipCount(delta)
  {
    h := 0;
    for i := 0 to |delta|
      invariant h == FlipCount(delta[..i])
    {
      assert delta[..i + 1][..i] == delta[..i];
      if delta[i] {
        h := h + 1;
      }
    }
    assert delta[..|delta|] == delta;
  }

  ghost function Zero(cal: Calibration): (s: State)
    ensures Fits(cal, s)
  {
    var n := |cal.perBitBER|;
    State(0.0, 0.0, seq(n, i => 0.0), seq(n, i => 0.0), 0)
  }

  // Whole runs

  ghost predicate FitsAll(cal: Calibration, deltas: seq<seq<bool>>) {
    forall t :: 0 <= t < |deltas| ==> |deltas[t]| == |cal.perBitBER|
  }

  /** State after observing the given cycles in order. */
  ghost function Run(cal: Calibration, s: State, deltas: seq<seq<bool>>): (r: State)
    requires Fits(cal, s) && FitsAll(cal, deltas)
    ensures Fits(cal, r)
  {
    if deltas == [] then s
    else Step(cal, Run(cal, s, deltas[..|deltas| - 1]), deltas[|deltas| - 1])
  }

  /** Page's recursion over a list of increments. */
  ghost function Page(start: real, xs: seq<real>): real {
    if xs == [] then start else Max(0.0, Page(start, xs[..|xs| - 1]) + xs[|xs| - 1])
  }

  ghost function SumFrom(xs: seq<real>, j: nat): real
    requires j <= |xs|
    decreases |xs|
  {
    if j == |xs| then 0.0 else SumFrom(xs[..|xs| - 1], j) + xs[|xs| - 1]
  }

  /** From zero, the recursion computes the largest sum over any final stretch, the empty one included. */
  lemma {:induction false} PageIsLargestSuffix(xs: seq<real>) returns (j: nat)
    ensures j <= |xs| && Page(0.0, xs) == SumFrom(xs, j)
    ensures forall i :: 0 <= i <= |xs| ==> SumFrom(xs, i) <= Page(0.0, xs)
  {
    if xs == [] {
      j := 0;
    } else {
      var front, x := xs[..|xs| - 1], xs[|xs| - 1];
      j := PageIsLargestSuffix(front);
      if Page(0.0, front) + x <= 0.0 {
        j := |xs|;
      }
      forall i | 0 <= i <= |xs| ensures SumFrom(xs, i) <= Page(0.0, xs) {
        if i < |xs| {
          assert SumFrom(xs, i) == SumFrom(front, i) + x;
        }
      }
    }
  }

  /** From any non-negative start the recursion stays above the plain sum. */
  lemma {:induction false} PageAboveSum(start: real, xs: seq<real>)
    requires start >= 0.0
    ensures Page(start, xs) >= start + SumFrom(xs, 0)
    ensures Page(start, xs) >= 0.0
  {
    if xs != [] {
      PageAboveSum(start, xs[..|xs| - 1]);
    }
  }

  // The increments of a run

  ghost function PlusIncrements(cal: Calibration, deltas: seq<seq<bool>>): (xs: seq<real>)
    ensures |xs| == |deltas|
  {
    seq(|deltas|, t requires 0 <= t < |deltas| => PlusIncrement(cal, deltas[t]))
  }

  ghost function MinusIncrements(cal: Calibration, deltas: seq<seq<bool>>): (xs: seq<real>)
    ensures |xs| == |deltas|
  {
    seq(|deltas|, t requires 0 <= t < |deltas| => MinusIncrement(cal, deltas[t]))
  }

  ghost function BitPlusIncrements(cal: Calibration, deltas: seq<seq<bool>>, i: nat): (xs: seq<real>)
    requires FitsAll(cal, deltas) && i < |cal.perBitBER|
    ensures |xs| == |deltas|
  {
    seq(|deltas|, t requires 0 <= t < |deltas| => BitPlusIncrement(cal.perBitBER[i], deltas[t][i]))
  }

  ghost function BitMinusIncrements(cal: Calibration, deltas: seq<seq<bool>>, i: nat): (xs: seq<real>)
    requires FitsAll(cal, deltas) && i < |cal.perBitBER|
    ensures |xs| == |deltas|
  {
    seq(|deltas|, t requires 0 <= t < |deltas| => BitMinusIncrement(cal.perBitBER[i], deltas[t][i]))
  }

  lemma {:induction false} RunIsPage(cal: Calibration, s: State, deltas: seq<seq<bool>>)
    requires Fits(cal, s) && FitsAll(cal, deltas)
    ensures Run(cal, s, deltas).plusAgg == Page(s.plusAgg, PlusIncrements(cal, deltas))
    ensures Run(cal, s, deltas).minusAgg == Page(s.minusAgg, MinusIncrements(cal, deltas))
    ensures Run(cal, s, deltas).observations == s.observations + |deltas|
  {
    hide PlusIncrement, MinusIncrement;
    if deltas != [] {
      var front := deltas[..|deltas| - 1];
      RunIsPage(cal, s, front);
      assert PlusIncrements(cal, deltas)[..|front|] == PlusIncrements(cal, front);
      assert MinusIncrements(cal, deltas)[..|front|] == MinusIncrements(cal, front);
    }
  }

  lemma {:induction false} RunIsPageBits(cal: Calibration, s: State, deltas: seq<seq<bool>>, i: nat)
    requires Fits(cal, s) && FitsAll(cal, deltas) && i < |cal.perBitBER|
    ensures Run(cal, s, deltas).plusBits[i] == Page(s.plusBits[i], BitPlusIncrements(cal, deltas, i))
    ensures Run(cal, s, deltas).minusBits[i] == Page(s.minusBits[i], BitMinusIncrements(cal, deltas, i))
  {
    hide BitPlusIncrement, BitMinusIncrement;
    if deltas != [] {
      var front := deltas[..|deltas| - 1];
      RunIsPageBits(cal, s, front, i);
      assert BitPlusIncrements(cal, deltas, i)[..|front|] == BitPlusIncrements(cal, front, i);
      assert BitMinusIncrements(cal, deltas, i)[..|front|] == BitMinusIncrements(cal, front, i);
    }
  }

  /**
   After any run from a fresh or reset detector the aggregate alarm holds exactly when, over some final
   stretch of cycles, the slack-adjusted deviations in one direction add up to more than H.
   */
  lemma {:induction false} AggregateFiresIff(cal: Calibration, deltas: seq<seq<bool>>)
    requires FitsAll(cal, deltas) && deltas != []
    ensures Verdict(cal, Run(cal, Zero(cal), deltas), deltas[|deltas| - 1]).aggregateFired
       <==> exists j :: 0 <= j <= |deltas| && (SumFrom(PlusIncrements(cal, deltas), j) > cal.h
                                               || SumFrom(MinusIncrements(cal, deltas), j) > cal.h)
  {
    RunIsPage(cal, Zero(cal), deltas);
    var j := PageIsLargestSuffix(PlusIncrements(cal, deltas));
    var i := PageIsLargestSuffix(MinusIncrements(cal, deltas));
  }

  /** Flips of bit i in the cycles from j on. */
  ghost function FlipsFrom(deltas: seq<seq<bool>>, i: nat, j: nat): (f: nat)
    requires j <= |deltas| && forall t :: 0 <= t < |deltas| ==> i < |deltas[t]|
    ensures f <= |deltas| - j
    decreases |deltas|
  {
    if j == |deltas| then 0
    else FlipsFrom(deltas[..|deltas| - 1], i, j) + (if deltas[|deltas| - 1][i] then 1 else 0)
  }

  /** n cycles' worth of x. */
  function Cycles(n: nat, x: real): real { n as real * x }

  lemma {:induction false} CyclesStep(n: nat, x: real)
    ensures Cycles(0, x) == 0.0
    ensures Cycles(n + 1, x) == Cycles(n, x) + x
  {
    Distribute(n as real, x);
  }

  lemma {:induction false} Distribute(n: real, x: real)
    ensures (n + 1.0) * x == n * x + x
  {
  }

  lemma {:induction false} CyclesNonNegative(n: nat, x: real)
    requires x >= 0.0
    ensures Cycles(n, x) >= 0.0
  {
  }

  /** What f flips in a window of w cycles add to the upward sum of a bit with enrolled error rate p. */
  function PlusBurst(p: real, f: nat, w: nat): real { f as real - Cycles(w, p + BitSlack(p)) }

  function MinusBurst(p: real, f: nat, w: nat): real { Cycles(w, p - BitSlack(p)) - f as real }

  lemma {:induction false} BitSuffix(cal: Calibration, deltas: seq<seq<bool>>, i: nat, j: nat)
    requires FitsAll(cal, deltas) && i < |cal.perBitBER| && j <= |deltas|
    ensures SumFrom(BitPlusIncrements(cal, deltas, i), j)
         == PlusBurst(cal.perBitBER[i], FlipsFrom(deltas, i, j), |deltas| - j)
    ensures SumFrom(BitMinusIncrements(cal, deltas, i), j)
         == MinusBurst(cal.perBitBER[i], FlipsFrom(deltas, i, j), |deltas| - j)
    decreases |deltas|
  {
    hide BitSlack, Cycles;
    var p := cal.perBitBER[i];
    if j == |deltas| {
      CyclesStep(0, p + BitSlack(p));
      CyclesStep(0, p - BitSlack(p));
    } else {
      var front := deltas[..|deltas| - 1];
      BitSuffix(cal, front, i, j);
      CyclesStep(|front| - j, p + BitSlack(p));
      CyclesStep(|front| - j, p - BitSlack(p));
      assert BitPlusIncrements(cal, deltas, i)[..|front|] == BitPlusIncrements(cal, front, i);
      assert BitMinusIncrements(cal, deltas, i)[..|front|] == BitMinusIncrements(cal, front, i);
    }
  }

  /**
   A bit's detector crosses the alarm threshold upward exactly when in some final window of cycles it flipped
   more often, by more than the threshold, than the window allows; downward exactly when it flipped too rarely.
   */
  lemma {:induction false} BitFiresIff(cal: Calibration, deltas: seq<seq<bool>>, i: nat)
    requires FitsAll(cal, deltas) && i < |cal.perBitBER|
    ensures Run(cal, Zero(cal), deltas).plusBits[i] > PER_BIT_ALARM_THRESHOLD
       <==> exists j :: 0 <= j <= |deltas|
              && PlusBurst(cal.perBitBER[i], FlipsFrom(deltas, i, j), |deltas| - j) > PER_BIT_ALARM_THRESHOLD
    ensures Run(cal, Zero(cal), deltas).minusBits[i] > PER_BIT_ALARM_THRESHOLD
       <==> exists j :: 0 <= j <= |deltas|
              && MinusBurst(cal.perBitBER[i], FlipsFrom(deltas, i, j), |deltas| - j) > PER_BIT_ALARM_THRESHOLD
  {
    hide BitPlusIncrements, BitMinusIncrements, SumFrom, PlusBurst, MinusBurst, FlipsFrom, Run;
    RunIsPageBits(cal, Zero(cal), deltas, i);
    var best := PageIsLargestSuffix(BitPlusIncrements(cal, deltas, i));
    var least := PageIsLargestSuffix(BitMinusIncrements(cal, deltas, i));
    BitSuffix(cal, deltas, i, best);
    BitSuffix(cal, deltas, i, least);
    forall j | 0 <= j <= |deltas|
      ensures PlusBurst(cal.perBitBER[i], FlipsFrom(deltas, i, j), |deltas| - j)
           <= Run(cal, Zero(cal), deltas).plusBits[i]
      ensures MinusBurst(cal.perBitBER[i], FlipsFrom(deltas, i, j), |deltas| - j)
           <= Run(cal, Zero(cal), deltas).minusBits[i]
    {
      BitSuffix(cal, deltas, i, j);
    }
  }

  lemma {:induction false} BurstNeedsTwoFlips(p: real, f: nat, w: nat)
    requires p >= 0.0 && PlusBurst(p, f, w) > PER_BIT_ALARM_THRESHOLD
    ensures f >= 2
  {
    hide Cycles;
    CyclesNonNegative(w, p + BitSlack(p));
  }

  /**
   An isolated flip never alarms: behind an upward alarm there is a final window with at least two flips, so short
   that the slack of all its cycles stays below the flips by more than the threshold. Flips that lie too far apart
   share no such window.
   */
  lemma {:induction false} AlarmNeedsTwoFlips(cal: Calibration, deltas: seq<seq<bool>>, i: nat) returns (j: nat)
    requires FitsAll(cal, deltas) && i < |cal.perBitBER| && cal.perBitBER[i] >= 0.0
    requires Run(cal, Zero(cal), deltas).plusBits[i] > PER_BIT_ALARM_THRESHOLD
    ensures j <= |deltas| && FlipsFrom(deltas, i, j) >= 2
    ensures var p := cal.perBitBER[i];
            Cycles(|deltas| - j, p + BitSlack(p)) < FlipsFrom(deltas, i, j) as real - PER_BIT_ALARM_THRESHOLD
  {
    hide Run, FlipsFrom, MinusBurst, Cycles, BitSlack;
    BitFiresIff(cal, deltas, i);
    j :| 0 <= j <= |deltas|
      && PlusBurst(cal.perBitBER[i], FlipsFrom(deltas, i, j), |deltas| - j) > PER_BIT_ALARM_THRESHOLD;
    BurstNeedsTwoFlips(cal.perBitBER[i], FlipsFrom(deltas, i, j), |deltas| - j);
  }

  /** The slack covers the enrolled rate up to one sixtieth. */
  lemma {:induction false} SlackCoversRate(p: real)
    ensures p <= BitSlack(p) <==> p <= 1.0 / 60.0
  {
  }

  /** A bit enrolled with error rate at most 1/60 has a downward detector that never leaves zero. */
  lemma {:induction false} DownwardStaysZero(cal: Calibration, deltas: seq<seq<bool>>, i: nat)
    requires FitsAll(cal, deltas) && i < |cal.perBitBER| && cal.perBitBER[i] <= BitSlack(cal.perBitBER[i])
    ensures Run(cal, Zero(cal), deltas).minusBits[i] == 0.0
  {
    hide BitSlack;
    if deltas != [] {
      DownwardStaysZero(cal, deltas[..|deltas| - 1], i);
    }
  }

  /** Cycles without any flip. */
  ghost function Silence(n: nat, w: nat): (deltas: seq<seq<bool>>)
    ensures |deltas| == w
  {
    seq(w, t => seq(n, i => false))
  }

  lemma {:induction false} SilenceRun(cal: Calibration, i: nat, w: nat)
    requires i < |cal.perBitBER| && cal.perBitBER[i] >= BitSlack(cal.perBitBER[i])
    ensures var deltas, p := Silence(|cal.perBitBER|, w), cal.perBitBER[i];
            FitsAll(cal, deltas) && Run(cal, Zero(cal), deltas).minusBits[i] == Cycles(w, p - BitSlack(p))
  {
    hide BitSlack, Cycles;
    var n, p := |cal.perBitBER|, cal.perBitBER[i];
    if w == 0 {
      CyclesStep(0, p - BitSlack(p));
    } else {
      SilenceRun(cal, i, w - 1);
      CyclesStep(w - 1, p - BitSlack(p));
      CyclesNonNegative(w, p - BitSlack(p));
      assert Silence(n, w)[..w - 1] == Silence(n, w - 1);
    }
  }

  lemma {:induction false} EnoughCycles(x: real, bound: real) returns (w: nat)
    requires x > 0.0 && bound > 0.0
    ensures Cycles(w, x) > bound
  {
    var q := bound / x;
    Ratio(bound, x);
    w := q.Floor + 1;
    Scale(q, w as real, x);
  }

  lemma {:induction false} Ratio(a: real, x: real)
    requires x > 0.0 && a > 0.0
    ensures a / x * x == a && a / x > 0.0
  {
  }

  lemma {:induction false} Scale(a: real, b: real, x: real)
    requires a < b && x > 0.0
    ensures a * x < b * x
  {
  }

  /** Some run makes a bit's downward detector alarm exactly when its enrolled error rate is above 1/60. */
  lemma {:induction false} DownwardCanFireIff(cal: Calibration, i: nat)
    requires i < |cal.perBitBER|
    ensures (exists deltas :: FitsAll(cal, deltas)
                              && Run(cal, Zero(cal), deltas).minusBits[i] > PER_BIT_ALARM_THRESHOLD)
       <==> cal.perBitBER[i] > 1.0 / 60.0
  {
    hide BitSlack, Cycles, Run, FitsAll;
    var p := cal.perBitBER[i];
    SlackCoversRate(p);
    if p > 1.0 / 60.0 {
      var w := EnoughCycles(p - BitSlack(p), PER_BIT_ALARM_THRESHOLD);
      SilenceRun(cal, i, w);
    } else if deltas :| FitsAll(cal, deltas) && Run(cal, Zero(cal), deltas).minusBits[i] > PER_BIT_ALARM_THRESHOLD {
      DownwardStaysZero(cal, deltas, i);
      assert false;
    }
  }

  /** Sustained drift always alarms: from any state, m cycles at least eps above the slack, m * eps > H. */
  lemma {:induction false} SustainedDriftFires(cal: Calibration, s: State, deltas: seq<seq<bool>>, eps: real)
    requires Fits(cal, s) && FitsAll(cal, deltas) && s.plusAgg >= 0.0
    requires deltas != [] && Cycles(|deltas|, eps) > cal.h
    requires forall t :: 0 <= t < |deltas| ==> FlipCount(deltas[t]) as real >= cal.mu + cal.k + eps
    ensures Verdict(cal, Run(cal, s, deltas), deltas[|deltas| - 1]).aggregateFired
  {
    hide FlipCount, Cycles, Run, SummaryOf;
    var xs := PlusIncrements(cal, deltas);
    RunIsPage(cal, s, deltas);
    PageAboveSum(s.plusAgg, xs);
    SumAtLeast(xs, eps);
  }

  lemma {:induction false} SumAtLeast(xs: seq<real>, eps: real)
    requires forall t :: 0 <= t < |xs| ==> xs[t] >= eps
    ensures SumFrom(xs, 0) >= Cycles(|xs|, eps)
  {
    hide Cycles;
    CyclesStep(0, eps);
    if xs != [] {
      SumAtLeast(xs[..|xs| - 1], eps);
      CyclesStep(|xs| - 1, eps);
    }
  }

  /** Noise within the slack never raises the upward sum, however long the run. */
  lemma {:induction false} QuietRunStaysZero(cal: Calibration, deltas: seq<seq<bool>>)
    requires FitsAll(cal, deltas)
    requires forall t :: 0 <= t < |deltas| ==> FlipCount(deltas[t]) as real <= cal.mu + cal.k
    ensures Run(cal, Zero(cal), deltas).plusAgg == 0.0
  {
    hide FlipCount;
    if deltas != [] {
      QuietRunStaysZero(cal, deltas[..|deltas| - 1]);
    }
  }

  lemma {:induction false} PeakMeaning(xs: seq<real>, n: nat)
    requires n <= |xs|
    ensures var p := Peak(xs, n);
            && p.0 >= 0.0 && (forall i :: 0 <= i < n ==> xs[i] <= p.0)
            && (p.0 > 0.0 ==> p.1 < n && xs[p.1] == p.0 && forall i :: 0 <= i < p.1 ==> xs[i] < p.0)
            && (p.0 == 0.0 ==> p.1 == 0)
  {
    if n > 0 {
      PeakMeaning(xs, n - 1);
    }
  }

  lemma {:induction false} DriftCountMeaning(plus: seq<real>, minus: seq<real>, n: nat)
    requires n <= |plus| == |minus|
    ensures DriftCount(plus, minus, n) > 0 <==> exists i :: 0 <= i < n && Drifting(plus[i], minus[i])
  {
    if n > 0 {
      DriftCountMeaning(plus, minus, n - 1);
    }
  }
}
