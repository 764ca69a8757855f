/** `calculate_weighted_averages`: the length-weighted average of every
    averaged column over the horizons that overlap one depth bin. */
module WeightedAverage {
  import opened Wrappers
  import opened Seqs
  import opened Horizons
  import opened DepthBins

  function Min(a: real, b: real): real { if a <= b then a else b }
  function Max(a: real, b: real): real { if a >= b then a else b }

  /** The mask `deptht < upper & depthb > lower`; a missing depth compares
      false, so such a row never overlaps. For a horizon whose top is above its
      bottom and a bin of positive width, the mask holds exactly when the two
      intervals share a stretch of depth. */
  predicate Overlaps(h: Horizon, b: Bin): (r: bool)
    ensures r ==> h.fields[DeptT].Some? && h.fields[DeptB].Some?
    ensures Proper(h) && b.lower < b.upper ==>
      (r <==> Max(h.fields[DeptT].value, b.lower) < Min(h.fields[DeptB].value, b.upper))
  {
    match (h.fields[DeptT], h.fields[DeptB])
    case (Some(t), Some(d)) => t < b.upper && d > b.lower
    case _ => false
  }

  /** Both depths present and the top above the bottom. */
  predicate Proper(h: Horizon)
  {
    match (h.fields[DeptT], h.fields[DeptB])
    case (Some(t), Some(d)) => t < d
    case _ => false
  }

  /** The overlap is strict: a horizon that only touches the bin at one of
      its edges is not selected. */
  lemma TouchingIsNotOverlap(h: Horizon, b: Bin)
    requires h.fields[DeptT].Some? && h.fields[DeptB].Some?
    requires h.fields[DeptB].value == b.lower || h.fields[DeptT].value == b.upper
    ensures !Overlaps(h, b)
  {
  }

  /** `min(depthb, upper) - max(deptht, lower)`: never longer than the bin,
      and positive exactly for a horizon whose top is above its bottom. */
  function Intersect(h: Horizon, b: Bin): (r: real)
    requires Overlaps(h, b)
    ensures r <= b.upper - b.lower
    ensures b.lower < b.upper ==> (r > 0.0 <==> Proper(h))
  {
    Min(h.fields[DeptB].value, b.upper) - Max(h.fields[DeptT].value, b.lower)
  }

  /** `df[mask]`, in the order of the input rows. */
  function Overlapping(rows: seq<Horizon>, b: Bin): (sub: seq<Horizon>)
    ensures forall h :: h in sub ==> h in rows && Overlaps(h, b)
    ensures forall h :: multiset(sub)[h] == if Overlaps(h, b) then multiset(rows)[h] else 0
  {
    Filter(rows, (h: Horizon) => Overlaps(h, b))
  }

  /** A selected row with its `intersect` column. */
  datatype Weighted = Weighted(row: Horizon, intersect: real)

  /** `subset['intersect'] = np.minimum(...) - np.maximum(...)`. */
  function WithIntersect(sub: seq<Horizon>, b: Bin): (ws: seq<Weighted>)
    requires forall h :: h in sub ==> Overlaps(h, b)
    ensures |ws| == |sub|
    ensures forall i :: 0 <= i < |ws| ==> ws[i].row == sub[i] && ws[i].intersect == Intersect(sub[i], b)
    ensures forall w :: w in ws ==> w.row in sub && Overlaps(w.row, b) && w.intersect == Intersect(w.row, b)
  {
    seq(|sub|, i requires 0 <= i < |sub| => Weighted(sub[i], Intersect(sub[i], b)))
  }

  /** `subset['intersect'].sum()`. */
  function TotalIntersect(ws: seq<Weighted>): real
  {
    if ws == [] then 0.0 else ws[0].intersect + TotalIntersect(ws[1..])
  }

  /** One row's term of `(subset[column] * subset['intersect']).sum()`: a
      missing value makes the product missing, and the sum skips it. */
  function Contribution(w: Weighted, j: nat): real
    requires j < NumAveraged
  {
    match w.row.fields[j]
    case Some(v) => v * w.intersect
    case None => 0.0
  }

  /** `(subset[column] * subset['intersect']).sum()`. */
  function WeightedSum(ws: seq<Weighted>, j: nat): real
    requires j < NumAveraged
  {
    if ws == [] then 0.0 else Contribution(ws[0], j) + WeightedSum(ws[1..], j)
  }

  /** The selected rows of `rows` for bin `b`, with their intersection lengths. */
  function Selected(rows: seq<Horizon>, b: Bin): seq<Weighted>
  {
    WithIntersect(Overlapping(rows, b), b)
  }

  /** The bin gets no numeric result: nothing overlaps it, or the
      intersection lengths add up to zero. */
  ghost predicate NoCoverage(rows: seq<Horizon>, b: Bin)
  {
    var ws := Selected(rows, b);
    ws == [] || TotalIntersect(ws) == 0.0
  }

  /** The weighted average: the weighted sum over the total intersection length. */
  function Mean(sum: real, total: real): real
    requires total != 0.0
  {
    sum / total
  }

  /** The averaged columns, then `hzname` and `chkey`. */
  datatype Averages = Averages(values: seq<Option<real>>, hzname: Option<real>, chkey: Option<real>)

  /** Every averaged column is either missing throughout (the bin had no
      coverage) or present throughout. */
  function CalculateWeightedAverages(rows: seq<Horizon>, b: Bin): (r: Averages)
    ensures |r.values| == NumAveraged
    ensures forall j :: 0 <= j < NumAveraged ==> (r.values[j].None? <==> NoCoverage(rows, b))
    ensures NoCoverage(rows, b) ==> r.hzname.None? && r.chkey.None?
  {
    var ws := Selected(rows, b);
    if ws == [] then Averages(seq(NumAveraged, _ => None), None, None)
    else
      var total := TotalIntersect(ws);
      if total == 0.0 then Averages(seq(NumAveraged, _ => None), None, None)
      else
        Averages(
          seq(NumAveraged, j requires 0 <= j < NumAveraged => Some(Mean(WeightedSum(ws, j), total))),
          ws[0].row.hzname,
          ws[0].row.chkey)
  }

  // ---------------------------------------------------------------------------
  // What the averages mean
  // ---------------------------------------------------------------------------

  /** Unfolds the average of column `j` of a covered bin. */
  lemma AverageValue(rows: seq<Horizon>, b: Bin, j: nat)
    requires j < NumAveraged
    requires !NoCoverage(rows, b)
    ensures CalculateWeightedAverages(rows, b).values[j]
         == Some(Mean(WeightedSum(Selected(rows, b), j), TotalIntersect(Selected(rows, b))))
  {
  }

  lemma DivideOut(v: real, t: real)
    requires t != 0.0
    ensures Mean(v * t, t) == v
  {
  }

  lemma Scale(lo: real, v: real, hi: real, x: real)
    requires x >= 0.0 && lo <= v <= hi
    ensures lo * x <= v * x <= hi * x
  {
  }

  lemma AddScaled(c: real, x: real, s: real, t: real, lo: real, hi: real)
    requires lo * x <= c <= hi * x
    requires lo * t <= s <= hi * t
    ensures lo * (x + t) <= c + s <= hi * (x + t)
  {
  }

  lemma Distribute(v: real, x: real, y: real, s: real)
    requires s == x + y
    ensures v * x + v * y == v * s
  {
  }

  lemma {:induction false} WeightedSumOfConstant(ws: seq<Weighted>, j: nat, v: real)
    requires j < NumAveraged
    requires forall w :: w in ws ==> w.row.fields[j] == Some(v)
    ensures WeightedSum(ws, j) == v * TotalIntersect(ws)
  {
    if ws != [] {
      assert ws[0] in ws;
      WeightedSumOfConstant(ws[1..], j, v);
      Distribute(v, ws[0].intersect, TotalIntersect(ws[1..]), TotalIntersect(ws));
    }
  }

  /** A column with the same present value `v` in every overlapping horizon
      averages to exactly `v`. */
  lemma ConstantColumnAverage(rows: seq<Horizon>, b: Bin, j: nat, v: real)
    requires j < NumAveraged
    requires !NoCoverage(rows, b)
    requires forall h :: h in Overlapping(rows, b) ==> h.fields[j] == Some(v)
    ensures CalculateWeightedAverages(rows, b).values[j] == Some(v)
  {
    var ws := Selected(rows, b);
    ConstantRatio(ws, j, v);
    AverageValue(rows, b, j);
  }

  lemma ConstantRatio(ws: seq<Weighted>, j: nat, v: real)
    requires j < NumAveraged
    requires TotalIntersect(ws) != 0.0
    requires forall w :: w in ws ==> w.row.fields[j] == Some(v)
    ensures Mean(WeightedSum(ws, j), TotalIntersect(ws)) == v
  {
    WeightedSumOfConstant(ws, j, v);
    DivideOut(v, TotalIntersect(ws));
  }

  /** Adding one bounded term `v * x` to a bounded sum keeps it bounded. */
  lemma BoundsStep(lo: real, hi: real, v: real, x: real, s: real, t: real, sum: real, total: real)
    requires x >= 0.0 && lo <= v <= hi
    requires lo * t <= s <= hi * t
    requires sum == v * x + s && total == x + t
    ensures lo * total <= sum <= hi * total
  {
    Scale(lo, v, hi, x);
    AddScaled(v * x, x, s, t, lo, hi);
  }

  lemma {:induction false} WeightedSumBounds(ws: seq<Weighted>, j: nat, lo: real, hi: real)
    requires j < NumAveraged
    requires forall w :: w in ws ==> w.intersect >= 0.0
    requires forall w :: w in ws ==> w.row.fields[j].Some? && lo <= w.row.fields[j].value <= hi
    ensures lo * TotalIntersect(ws) <= WeightedSum(ws, j) <= hi * TotalIntersect(ws)
  {
    if ws != [] {
      var w := ws[0];
      assert w in ws;
      var s, t := WeightedSum(ws[1..], j), TotalIntersect(ws[1..]);
      assert lo * t <= s <= hi * t by {
        WeightedSumBounds(ws[1..], j, lo, hi);
      }
      BoundsStep(lo, hi, w.row.fields[j].value, w.intersect, s, t, WeightedSum(ws, j), TotalIntersect(ws));
    }
  }

  lemma {:induction false} TotalPositive(ws: seq<Weighted>)
    requires forall w :: w in ws ==> w.intersect > 0.0
    ensures ws != [] <==> TotalIntersect(ws) > 0.0
    ensures TotalIntersect(ws) >= 0.0
  {
    if ws != [] {
      assert ws[0] in ws;
      TotalPositive(ws[1..]);
    }
  }

  /** Every selected row of a proper horizon has a positive intersection length. */
  lemma ProperSelectedPositive(rows: seq<Horizon>, b: Bin)
    requires b.lower < b.upper
    requires forall h :: h in Overlapping(rows, b) ==> Proper(h)
    ensures forall w :: w in Selected(rows, b) ==> w.intersect > 0.0
  {
    var sub, ws := Overlapping(rows, b), Selected(rows, b);
  }

  /** With proper horizons (top above bottom), the zero-total case cannot
      arise: a bin has no numeric result exactly when nothing overlaps it. */
  lemma ProperRowsCover(rows: seq<Horizon>, b: Bin)
    requires b.lower < b.upper
    requires forall h :: h in rows ==> Proper(h)
    ensures NoCoverage(rows, b) <==> Overlapping(rows, b) == []
  {
    ProperSelectedPositive(rows, b);
    TotalPositive(Selected(rows, b));
  }

  /** When the overlapping horizons are proper and all have the column
      present, its average lies between the smallest and largest value. */
  lemma AverageWithinBounds(rows: seq<Horizon>, b: Bin, j: nat, lo: real, hi: real)
    requires j < NumAveraged && b.lower < b.upper
    requires Overlapping(rows, b) != []
    requires forall h :: h in Overlapping(rows, b) ==> Proper(h)
    requires forall h :: h in Overlapping(rows, b) ==> h.fields[j].Some? && lo <= h.fields[j].value <= hi
    ensures CalculateWeightedAverages(rows, b).values[j].Some?
    ensures lo <= CalculateWeightedAverages(rows, b).values[j].value <= hi
  {
    var ws := Selected(rows, b);
    ProperSelectedPositive(rows, b);
    TotalPositive(ws);
    RatioWithin(ws, j, lo, hi);
    AverageValue(rows, b, j);
  }

  lemma RatioWithin(ws: seq<Weighted>, j: nat, lo: real, hi: real)
    requires j < NumAveraged && TotalIntersect(ws) > 0.0
    requires forall w :: w in ws ==> w.intersect >= 0.0
    requires forall w :: w in ws ==> w.row.fields[j].Some? && lo <= w.row.fields[j].value <= hi
    ensures lo <= Mean(WeightedSum(ws, j), TotalIntersect(ws)) <= hi
  {
    WeightedSumBounds(ws, j, lo, hi);
    DivideBounds(WeightedSum(ws, j), TotalIntersect(ws), lo, hi);
  }

  lemma DivideBounds(s: real, t: real, lo: real, hi: real)
    requires t > 0.0
    requires lo * t <= s <= hi * t
    ensures lo <= Mean(s, t) <= hi
  {
    assert (s / t) * t == s;
  }

  /** The sum skips missing products: a column missing in every row sums to
      0, not to missing. */
  lemma {:induction false} WeightedSumOfMissing(ws: seq<Weighted>, j: nat)
    requires j < NumAveraged
    requires forall w :: w in ws ==> w.row.fields[j].None?
    ensures WeightedSum(ws, j) == 0.0
  {
    if ws != [] {
      assert ws[0] in ws;
      WeightedSumOfMissing(ws[1..], j);
    }
  }

  /** A column missing in every overlapping horizon of a covered bin
      averages to 0, not to missing. */
  lemma AllMissingAveragesZero(rows: seq<Horizon>, b: Bin, j: nat)
    requires j < NumAveraged
    requires !NoCoverage(rows, b)
    requires forall h :: h in Overlapping(rows, b) ==> h.fields[j].None?
    ensures CalculateWeightedAverages(rows, b).values[j] == Some(0.0)
  {
    var sub, ws := Overlapping(rows, b), Selected(rows, b);
    WeightedSumOfMissing(ws, j);
    AverageValue(rows, b, j);
  }

  /** Appending a row whose value is missing leaves the numerator as it was
      and adds the row's length to the denominator. */
  lemma {:induction false} MissingValueStillWeighs(ws: seq<Weighted>, w: Weighted, j: nat)
    requires j < NumAveraged
    requires w.row.fields[j].None?
    ensures WeightedSum(ws + [w], j) == WeightedSum(ws, j)
    ensures TotalIntersect(ws + [w]) == TotalIntersect(ws) + w.intersect
  {
    if ws == [] {
      assert [] + [w] == [w];
      assert [w][1..] == [];
    } else {
      assert (ws + [w])[0] == ws[0];
      assert (ws + [w])[1..] == ws[1..] + [w];
      MissingValueStillWeighs(ws[1..], w, j);
    }
  }

  /** `hzname` and `chkey` come from the first overlapping row of the input,
      however little of the bin it covers. */
  lemma FirstOverlappingNames(rows: seq<Horizon>, b: Bin, k: nat)
    requires k < |rows| && Overlaps(rows[k], b)
    requires forall i :: 0 <= i < k ==> !Overlaps(rows[i], b)
    requires !NoCoverage(rows, b)
    ensures CalculateWeightedAverages(rows, b).hzname == rows[k].hzname
    ensures CalculateWeightedAverages(rows, b).chkey == rows[k].chkey
  {
    FilterHead(rows, (h: Horizon) => Overlaps(h, b), k);
  }

  // ---------------------------------------------------------------------------
  // One horizon against all twenty bins
  // ---------------------------------------------------------------------------

  /** What horizon `h` adds to `total_intersect` for bin `b`. */
  function Covered(h: Horizon, b: Bin): real
  {
    if Overlaps(h, b) then Intersect(h, b) else 0.0
  }

  /** The sum of `Covered(h, BinAt(i))` over the first `n` bins. */
  function CoveredByBins(h: Horizon, n: nat): real
  {
    if n == 0 then 0.0 else CoveredByBins(h, n - 1) + Covered(h, BinAt(n - 1))
  }

  lemma {:induction false} CoveredByBinsPrefix(h: Horizon, n: nat, t: real, d: real)
    requires h.fields[DeptT] == Some(t) && h.fields[DeptB] == Some(d)
    requires 0.0 <= t <= d
    ensures CoveredByBins(h, n) == Min(d, (10 * n) as real) - Min(t, (10 * n) as real)
  {
    if n > 0 {
      CoveredByBinsPrefix(h, n - 1, t, d);
    }
  }

  /** A horizon lying within [0, 200] is split among the twenty bins without
      loss: its intersection lengths add up to its thickness. */
  lemma IntersectionsSumToThickness(h: Horizon, t: real, d: real)
    requires h.fields[DeptT] == Some(t) && h.fields[DeptB] == Some(d)
    requires 0.0 <= t <= d <= 200.0
    ensures CoveredByBins(h, 20) == d - t
  {
    CoveredByBinsPrefix(h, 20, t, d);
  }
}
