/** The detector's slack, its alarms and its calibration in plain numbers, with flips counted as sets of cycles. */
module CusumAlarms {
  import opened Cusum
  import Statistics

  // Flips, counted

  ghost function TrueAt(delta: seq<bool>): set<int> { set i | 0 <= i < |delta| && delta[i] }

  lemma {:induction false} FlipCountIsSize(delta: seq<bool>)
    ensures FlipCount(delta) == |TrueAt(delta)|
  {
    if delta != [] {
      var front, last := delta[..|delta| - 1], |delta| - 1;
      FlipCountIsSize(front);
      assert TrueAt(delta) == TrueAt(front) + if delta[last] then {last} else {};
    }
  }

  /** The cycles from j on in which bit i flipped. */
  ghost function FlipCycles(deltas: seq<seq<bool>>, i: nat, j: nat): set<int>
    requires forall t :: 0 <= t < |deltas| ==> i < |deltas[t]|
  {
    set t | j <= t < |deltas| && deltas[t][i]
  }

  lemma {:induction false} FlipsAreCycles(deltas: seq<seq<bool>>, i: nat, j: nat)
    requires j <= |deltas| && forall t :: 0 <= t < |deltas| ==> i < |deltas[t]|
    ensures FlipsFrom(deltas, i, j) == |FlipCycles(deltas, i, j)|
    decreases |deltas|
  {
    if j == |deltas| {
      assert FlipCycles(deltas, i, j) == {};
    } else {
      var front, last := deltas[..|deltas| - 1], |deltas| - 1;
      FlipsAreCycles(front, i, j);
      assert FlipCycles(deltas, i, j) == FlipCycles(front, i, j) + if deltas[last][i] then {last} else {};
      assert last !in FlipCycles(front, i, j);
      hide FlipCycles;
    }
  }

  lemma {:induction false} ColumnIsCycles(rows: seq<seq<bool>>, i: nat)
    requires forall t :: 0 <= t < |rows| ==> i < |rows[t]|
    ensures ColumnCount(rows, i) == |FlipCycles(rows, i, 0)|
  {
    if rows != [] {
      var front, last := rows[..|rows| - 1], |rows| - 1;
      ColumnIsCycles(front, i);
      assert FlipCycles(rows, i, 0) == FlipCycles(front, i, 0) + if rows[last][i] then {last} else {};
    }
  }

  /** The flips of all bits from cycle j on, as pairs of cycle and bit. */
  ghost function AllFlips(deltas: seq<seq<bool>>, j: nat): set<(int, int)> {
    set t, i | j <= t < |deltas| && 0 <= i < |deltas[t]| && deltas[t][i] :: (t, i)
  }

  ghost function FlipsOf(t: int, delta: seq<bool>): set<(int, int)> {
    set i | 0 <= i < |delta| && delta[i] :: (t, i)
  }

  lemma {:induction false} RowFlips(t: int, delta: seq<bool>)
    ensures |FlipsOf(t, delta)| == FlipCount(delta)
  {
    if delta != [] {
      var front, last := delta[..|delta| - 1], |delta| - 1;
      RowFlips(t, front);
      assert FlipsOf(t, delta) == FlipsOf(t, front) + if delta[last] then {(t, last)} else {};
    }
  }

  lemma {:induction false} LastCycleFlips(deltas: seq<seq<bool>>, j: nat)
    requires j < |deltas|
    ensures |AllFlips(deltas, j)| == |AllFlips(deltas[..|deltas| - 1], j)| + FlipCount(deltas[|deltas| - 1])
  {
    var front, last := deltas[..|deltas| - 1], |deltas| - 1;
    RowFlips(last, deltas[last]);
    assert AllFlips(deltas, j) == AllFlips(front, j) + FlipsOf(last, deltas[last]);
    assert AllFlips(front, j) * FlipsOf(last, deltas[last]) == {};
  }

  // The slack

  /** Half the way from the enrolled rate to five per cent; the rate counts as a tenth of a per cent at least. */
  lemma {:induction false} BitSlackMeaning(p: real)
    ensures p <= 0.001 ==> BitSlack(p) == 0.0245
    ensures 0.001 <= p <= 0.03 ==> 2.0 * BitSlack(p) == 0.05 - p
    ensures p >= 0.03 ==> BitSlack(p) == 0.01
  {
  }

  // When a bit alarms

  lemma {:induction false} Doubled(w: nat, x: real, y: real)
    requires y == 2.0 * x
    ensures w as real * y == 2.0 * Cycles(w, x)
  {
  }

  /** So many flips of a bit with enrolled rate p in a window of w cycles are too many. */
  ghost predicate TooMany(p: real, f: nat, w: nat) {
    if p <= 0.001 then f as real > 1.5 + w as real * (p + 0.0245)
    else if p <= 0.03 then 2.0 * f as real > 3.0 + w as real * (p + 0.05)
    else f as real > 1.5 + w as real * (p + 0.01)
  }

  /** And so many are too few. */
  ghost predicate TooFew(p: real, f: nat, w: nat) {
    if p <= 1.0 / 60.0 then false
    else if p <= 0.03 then w as real * (3.0 * p - 0.05) > 3.0 + 2.0 * f as real
    else w as real * (p - 0.01) > 1.5 + f as real
  }

  lemma {:induction false} WindowMeaning(p: real, f: nat, w: nat)
    ensures PlusBurst(p, f, w) > 1.5 <==> TooMany(p, f, w)
    ensures MinusBurst(p, f, w) > 1.5 <==> TooFew(p, f, w)
  {
    BitSlackMeaning(p);
    var k := BitSlack(p);
    hide BitSlack;
    if p <= 1.0 / 60.0 {
      NothingGained(w, p - k);
    }
    if 0.001 < p <= 0.03 {
      Doubled(w, p + k, p + 0.05);
      Doubled(w, p - k, 3.0 * p - 0.05);
    }
  }

  lemma {:induction false} NothingGained(w: nat, x: real)
    ensures x <= 0.0 ==> Cycles(w, x) <= 0.0
  {
  }

  /** A bit alarms exactly when it flipped too often, or too rarely, in some final window of cycles. */
  lemma {:induction false} BitAlarmIff(cal: Calibration, deltas: seq<seq<bool>>, i: nat)
    requires FitsAll(cal, deltas) && i < |cal.perBitBER|
    ensures Run(cal, Zero(cal), deltas).plusBits[i] > 1.5 <==>
              exists j: nat :: j <= |deltas| && TooMany(cal.perBitBER[i], |FlipCycles(deltas, i, j)|, |deltas| - j)
    ensures Run(cal, Zero(cal), deltas).minusBits[i] > 1.5 <==>
              exists j: nat :: j <= |deltas| && TooFew(cal.perBitBER[i], |FlipCycles(deltas, i, j)|, |deltas| - j)
  {
    hide Run, FlipsFrom, FlipCycles, PlusBurst, MinusBurst, TooMany, TooFew;
    var p, n := cal.perBitBER[i], |deltas|;
    BitFiresIff(cal, deltas, i);
    forall j: nat | j <= n ensures FlipsFrom(deltas, i, j) == |FlipCycles(deltas, i, j)| {
      FlipsAreCycles(deltas, i, j);
    }
    forall f: nat, w: nat
      ensures (PlusBurst(p, f, w) > 1.5 <==> TooMany(p, f, w)) && (MinusBurst(p, f, w) > 1.5 <==> TooFew(p, f, w))
    {
      WindowMeaning(p, f, w);
    }
    forall j: nat | j <= n
      ensures PlusBurst(p, FlipsFrom(deltas, i, j), n - j) > 1.5 <==> TooMany(p, |FlipCycles(deltas, i, j)|, n - j)
      ensures MinusBurst(p, FlipsFrom(deltas, i, j), n - j) > 1.5 <==> TooFew(p, |FlipCycles(deltas, i, j)|, n - j)
    {
    }
    if j: nat :| j <= n && TooMany(p, |FlipCycles(deltas, i, j)|, n - j) {
      assert PlusBurst(p, FlipsFrom(deltas, i, j), n - j) > 1.5;
    }
    if j: nat :| j <= n && TooFew(p, |FlipCycles(deltas, i, j)|, n - j) {
      assert MinusBurst(p, FlipsFrom(deltas, i, j), n - j) > 1.5;
    }
  }

  /** For a bit that never flipped in calibration, in whole numbers. */
  lemma {:induction false} StableBitAlarmIff(cal: Calibration, deltas: seq<seq<bool>>, i: nat)
    requires FitsAll(cal, deltas) && i < |cal.perBitBER| && cal.perBitBER[i] == 0.0
    ensures Run(cal, Zero(cal), deltas).plusBits[i] > 1.5 <==>
              exists j: nat :: j <= |deltas| && 10000 * |FlipCycles(deltas, i, j)| > 15000 + 245 * (|deltas| - j)
    ensures Run(cal, Zero(cal), deltas).minusBits[i] <= 1.5
  {
    hide Run, FlipCycles;
    BitAlarmIff(cal, deltas, i);
    forall f: nat, w: nat ensures TooMany(0.0, f, w) <==> 10000 * f > 15000 + 245 * w {
    }
  }

  /** Two flips and no more: the alarm holds at the second exactly when both lie within twenty cycles. */
  lemma {:induction false} TwoFlipsAlarmIff(cal: Calibration, deltas: seq<seq<bool>>, i: nat, first: nat)
    requires FitsAll(cal, deltas) && i < |cal.perBitBER| && cal.perBitBER[i] == 0.0
    requires first < |deltas| - 1 && FlipCycles(deltas, i, 0) == {first, |deltas| - 1}
    ensures Run(cal, Zero(cal), deltas).plusBits[i] > 1.5 <==> |deltas| - first <= 20
  {
    hide Run;
    var n := |deltas|;
    StableBitAlarmIff(cal, deltas, i);
    forall j: nat | j <= n
      ensures if j <= first then |FlipCycles(deltas, i, j)| == 2 else |FlipCycles(deltas, i, j)| <= 1
    {
      LaterFlips(deltas, i, j);
      if j <= first {
        assert FlipCycles(deltas, i, j) == {first, n - 1};
      } else {
        AtMostOne(FlipCycles(deltas, i, j), n - 1);
      }
    }
    hide FlipCycles;
    if j: nat :| j <= n && 10000 * |FlipCycles(deltas, i, j)| > 15000 + 245 * (n - j) {
      assert j <= first;
    } else {
      assert 10000 * |FlipCycles(deltas, i, first)| <= 15000 + 245 * (n - first);
    }
  }

  lemma {:induction false} LaterFlips(deltas: seq<seq<bool>>, i: nat, j: nat)
    requires forall t :: 0 <= t < |deltas| ==> i < |deltas[t]|
    ensures forall t :: t in FlipCycles(deltas, i, j) <==> t in FlipCycles(deltas, i, 0) && t >= j
  {
  }

  lemma {:induction false} AtMostOne(s: set<int>, x: int)
    requires s <= {x}
    ensures |s| <= 1
  {
    if x in s {
      assert s == {x};
    }
  }

  // When the aggregate alarms

  lemma {:induction false} FlipsInStretch(cal: Calibration, deltas: seq<seq<bool>>, j: nat)
    requires j <= |deltas|
    ensures SumFrom(PlusIncrements(cal, deltas), j)
         == |AllFlips(deltas, j)| as real - Cycles(|deltas| - j, cal.mu + cal.k)
    ensures SumFrom(MinusIncrements(cal, deltas), j)
         == Cycles(|deltas| - j, cal.mu - cal.k) - |AllFlips(deltas, j)| as real
    decreases |deltas|
  {
    hide Cycles;
    if j == |deltas| {
      assert AllFlips(deltas, j) == {};
      CyclesStep(0, cal.mu + cal.k);
      CyclesStep(0, cal.mu - cal.k);
    } else {
      var front := deltas[..|deltas| - 1];
      FlipsInStretch(cal, front, j);
      LastCycleFlips(deltas, j);
      CyclesStep(|front| - j, cal.mu + cal.k);
      CyclesStep(|front| - j, cal.mu - cal.k);
      assert PlusIncrements(cal, deltas)[..|front|] == PlusIncrements(cal, front);
      assert MinusIncrements(cal, deltas)[..|front|] == MinusIncrements(cal, front);
    }
  }

  /**
   The aggregate alarm of a run from a fresh or reset detector: in some final window of w cycles the flips of all
   bits number more than w * (mu + k) + h, or fewer than w * (mu - k) - h.
   */
  lemma {:induction false} AggregateAlarmIff(cal: Calibration, deltas: seq<seq<bool>>)
    requires FitsAll(cal, deltas) && deltas != []
    ensures Verdict(cal, Run(cal, Zero(cal), deltas), deltas[|deltas| - 1]).aggregateFired <==>
              exists j: nat :: j <= |deltas| && OutOfBand(cal, |AllFlips(deltas, j)|, |deltas| - j)
  {
    hide Run, Cycles, AllFlips, SumFrom, PlusIncrements, MinusIncrements, OutOfBand, FlipCount, SummaryOf;
    AggregateFiresIff(cal, deltas);
    var s := Run(cal, Zero(cal), deltas);
    if s.plusAgg > cal.h || s.minusAgg > cal.h {
      var j :| 0 <= j <= |deltas| && (SumFrom(PlusIncrements(cal, deltas), j) > cal.h
                                      || SumFrom(MinusIncrements(cal, deltas), j) > cal.h);
      StretchMeaning(cal, deltas, j);
    } else if j: nat :| j <= |deltas| && OutOfBand(cal, |AllFlips(deltas, j)|, |deltas| - j) {
      StretchMeaning(cal, deltas, j);
      assert false;
    }
  }

  lemma {:induction false} StretchMeaning(cal: Calibration, deltas: seq<seq<bool>>, j: nat)
    requires j <= |deltas|
    ensures OutOfBand(cal, |AllFlips(deltas, j)|, |deltas| - j)
       <==> SumFrom(PlusIncrements(cal, deltas), j) > cal.h || SumFrom(MinusIncrements(cal, deltas), j) > cal.h
  {
    hide Cycles, AllFlips, SumFrom;
    FlipsInStretch(cal, deltas, j);
    CyclesProduct(|deltas| - j, cal.mu + cal.k);
    CyclesProduct(|deltas| - j, cal.mu - cal.k);
  }

  ghost predicate OutOfBand(cal: Calibration, f: nat, w: nat) {
    || f as real > w as real * (cal.mu + cal.k) + cal.h
    || f as real < w as real * (cal.mu - cal.k) - cal.h
  }

  lemma {:induction false} CyclesProduct(w: nat, x: real)
    ensures Cycles(w, x) == w as real * x
  {
  }

  // The verdict

  ghost function AlarmedBits(s: State): set<int>
    requires |s.plusBits| == |s.minusBits|
  {
    AlarmedBelow(s.plusBits, s.minusBits, |s.plusBits|)
  }

  ghost function AlarmedBelow(plus: seq<real>, minus: seq<real>, n: nat): set<int>
    requires n <= |plus| == |minus|
  {
    set i | 0 <= i < n && (plus[i] > 1.5 || minus[i] > 1.5)
  }

  lemma {:induction false} DriftCountIsSize(plus: seq<real>, minus: seq<real>, n: nat)
    requires n <= |plus| == |minus|
    ensures DriftCount(plus, minus, n) == |AlarmedBelow(plus, minus, n)|
  {
    if n > 0 {
      DriftCountIsSize(plus, minus, n - 1);
      var drifts := plus[n - 1] > 1.5 || minus[n - 1] > 1.5;
      assert AlarmedBelow(plus, minus, n) == AlarmedBelow(plus, minus, n - 1) + if drifts then {n - 1} else {};
      hide AlarmedBelow;
      assert n - 1 !in AlarmedBelow(plus, minus, n - 1);
    }
  }

  /** best is the first place of the largest of the sums, and max that sum; both are 0 while no sum is positive. */
  ghost predicate LargestAt(sums: seq<real>, max: real, best: nat) {
    && (forall i :: 0 <= i < |sums| ==> sums[i] <= max) && max >= 0.0
    && (max > 0.0 ==> best < |sums| && sums[best] == max && forall i :: 0 <= i < best ==> sums[i] < max)
    && (max == 0.0 ==> best == 0)
  }

  /** What the fields of a verdict say about the sums it was made from. */
  lemma {:induction false} VerdictMeaning(cal: Calibration, s: State, delta: seq<bool>)
    requires Fits(cal, s)
    ensures var v := Verdict(cal, s, delta);
            && v.hammingDistance == |TrueAt(delta)|
            && v.aggregatePlus == s.plusAgg && v.aggregateMinus == s.minusAgg
            && LargestAt(s.plusBits, v.maxPerBitPlus, v.argmaxPlus)
            && LargestAt(s.minusBits, v.maxPerBitMinus, v.argmaxMinus)
            && v.driftingBitCount == |AlarmedBits(s)|
            && (v.aggregateFired <==> s.plusAgg > cal.h || s.minusAgg > cal.h)
            && (v.perBitFired <==> AlarmedBits(s) != {})
    ensures var v := Verdict(cal, s, delta);
            && (v.level == Critical <==> v.aggregateFired && v.perBitFired)
            && (v.level == BroadDrift <==> v.aggregateFired && !v.perBitFired)
            && (v.level == TargetedDrift <==> !v.aggregateFired && v.perBitFired)
  {
    hide Peak, DriftCount, FlipCount;
    FlipCountIsSize(delta);
    PeakMeaning(s.plusBits, |s.plusBits|);
    PeakMeaning(s.minusBits, |s.minusBits|);
    DriftCountIsSize(s.plusBits, s.minusBits, |s.plusBits|);
  }

  // Calibration

  lemma {:induction false} DistancesAddUp(rows: seq<seq<bool>>)
    ensures Statistics.Sum(HammingDistances(rows)) == |AllFlips(rows, 0)| as real
  {
    if rows == [] {
      assert AllFlips(rows, 0) == {};
    } else {
      var front := rows[..|rows| - 1];
      DistancesAddUp(front);
      LastCycleFlips(rows, 0);
      assert HammingDistances(rows)[..|front|] == HammingDistances(front);
    }
  }

  /**
   What calibration learns: flips per cycle and per bit and cycle, the deviation of the distances with its floor of
   a half, and from it the slack and the alarm threshold.
   */
  lemma {:induction false} CalibrationMeaning(rows: seq<seq<bool>>, n: nat, sqrt: real -> real)
    requires rows != [] && Rectangular(rows, n)
    ensures var cal, measured := CalibrationOf(rows, n, sqrt),
                                 Statistics.DeviationOf(HammingDistances(rows), CalibrationOf(rows, n, sqrt).mu, sqrt);
            && cal.mu * |rows| as real == |AllFlips(rows, 0)| as real
            && (forall i :: 0 <= i < n ==>
                  cal.perBitBER[i] * |rows| as real == |FlipCycles(rows, i, 0)| as real)
            && cal.sigma >= 0.5 && cal.sigma >= measured && (cal.sigma == 0.5 || cal.sigma == measured)
            && 2.0 * cal.k == cal.sigma && cal.h == 5.0 * cal.sigma
    ensures forall t :: 0 <= t < |rows| ==> HammingDistances(rows)[t] == |TrueAt(rows[t])| as real
  {
    hide Statistics.DeviationOf, Statistics.MeanOf, ErrorRates, FlipCycles, AllFlips, TrueAt;
    MeanMeaning(rows);
    forall i | 0 <= i < n
      ensures ErrorRates(rows, n)[i] * |rows| as real == |FlipCycles(rows, i, 0)| as real
    {
      RateMeaning(rows, n, i);
    }
    forall t | 0 <= t < |rows| ensures HammingDistances(rows)[t] == |TrueAt(rows[t])| as real {
      FlipCountIsSize(rows[t]);
    }
  }

  lemma {:induction false} MeanMeaning(rows: seq<seq<bool>>)
    ensures Statistics.MeanOf(HammingDistances(rows)) * |rows| as real == |AllFlips(rows, 0)| as real
  {
    hide AllFlips, Statistics.MeanOf, HammingDistances;
    Statistics.MeanTimesCount(HammingDistances(rows));
    DistancesAddUp(rows);
  }

  lemma {:induction false} RateMeaning(rows: seq<seq<bool>>, n: nat, i: nat)
    requires rows != [] && Rectangular(rows, n) && i < n
    ensures ErrorRates(rows, n)[i] * |rows| as real == |FlipCycles(rows, i, 0)| as real
  {
    hide FlipCycles;
    ColumnIsCycles(rows, i);
    Statistics.QuotientTimes(ColumnCount(rows, i) as real, |rows| as real);
  }
}
