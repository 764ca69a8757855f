/** The per-coordinate script body: clean the rows, keep the dominant
    component, average it over the twenty depth bins, add available water
    storage, and forward-fill the table. */
module PriorityTable {
  import opened Wrappers
  import opened Horizons
  import opened DepthBins
  import opened WeightedAverage
  import opened ForwardFill

  // Positions of the cells that follow the averaged columns.
  const HzName: nat := 25
  const ChKey: nat := 26
  const AwsCell: nat := 27
  const NumCells: nat := 28

  /** A row of the per-bin table: its depth-bin label, its nullable cells
      (the averaged columns, `hzname`, `chkey`, then `aws` once added) and
      the coordinate. */
  datatype BinRow = BinRow(depthBin: string, cells: seq<Option<real>>, lat: real, lon: real)

  /** The tuple `(label, *averages, lat, lon)`. */
  function RowOf(text: string, a: Averages, lat: real, lon: real): BinRow
  {
    BinRow(text, a.values + [a.hzname, a.chkey], lat, lon)
  }

  /** The table the per-bin loop builds: row `i` is the averages over bin `i`. */
  function BinTable(priority: seq<Horizon>, lat: real, lon: real): (t: seq<BinRow>)
    ensures |t| == 20
    ensures forall i :: 0 <= i < 20 ==>
      |t[i].cells| == NumCells - 1
  {
    seq(20, i requires 0 <= i < 20 =>
      RowOf(Labels()[i], CalculateWeightedAverages(priority, BinAt(i)), lat, lon))
  }

  /** Row `i` of the table is built from label `i` and the bin it parses to. */
  lemma BinTableAt(priority: seq<Horizon>, lat: real, lon: real, i: nat)
    requires i < 20
    ensures ParseLabel(Labels()[i]).Some?
    ensures BinTable(priority, lat, lon)[i] ==
      RowOf(Labels()[i], CalculateWeightedAverages(priority, ParseLabel(Labels()[i]).value), lat, lon)
  {
    LabelParses(i);
  }

  /** Extending a prefix by one element. */
  lemma PrefixExtend<T>(s: seq<T>, i: nat)
    requires i <= |s|
    ensures i < |s| ==> s[..i + 1] == s[..i] + [s[i]]
    ensures i == |s| ==> s[..i] == s
  {
  }

  /** The per-bin loop: for each label, parse its bounds, average over them
      and append the row. */
  method ComputeBins(priority: seq<Horizon>, lat: real, lon: real) returns (results: seq<BinRow>)
    ensures results == BinTable(priority, lat, lon)
  {
    var labels := Labels();
    ghost var table := BinTable(priority, lat, lon);
    results := [];
    for i := 0 to |labels|
      invariant results == table[..i]
    {
      BinTableAt(priority, lat, lon, i);
      var bounds := ParseLabel(labels[i]);
      var averages := CalculateWeightedAverages(priority, bounds.value);
      var row := RowOf(labels[i], averages, lat, lon);
      assert row == table[i];
      PrefixExtend(table, i);
      results := results + [row];
    }
    PrefixExtend(table, |labels|);
  }

  // ---------------------------------------------------------------------------
  // Available water storage
  // ---------------------------------------------------------------------------

  /** `awc * (depthb - deptht) / 100` on a row's averaged cells, so with the
      averaged horizon depths rather than the bin bounds; missing as soon as
      one of the three is. */
  function Aws(cells: seq<Option<real>>): (r: Option<real>)
    requires |cells| >= NumAveraged
    ensures r.Some? <==> cells[Awc].Some? && cells[DeptB].Some? && cells[DeptT].Some?
  {
    if cells[Awc].Some? && cells[DeptB].Some? && cells[DeptT].Some? then
      Some(Storage(cells[Awc].value, cells[DeptT].value, cells[DeptB].value))
    else
      None
  }

  /** Water held by a layer from `top` to `bottom` cm with capacity `awc` cm/cm, in cm. */
  function Storage(awc: real, top: real, bottom: real): real
  {
    awc * (bottom - top) / 100.0
  }

  /** The table with the `aws` column appended to every row. */
  function WithAws(rows: seq<BinRow>): (r: seq<BinRow>)
    requires forall i :: 0 <= i < |rows| ==> |rows[i].cells| >= NumAveraged
    ensures |r| == |rows|
    ensures forall i :: 0 <= i < |rows| ==>
      r[i].depthBin == rows[i].depthBin && r[i].lat == rows[i].lat && r[i].lon == rows[i].lon &&
      r[i].cells == rows[i].cells + [Aws(rows[i].cells)]
  {
    seq(|rows|, i requires 0 <= i < |rows| =>
      rows[i].(cells := rows[i].cells + [Aws(rows[i].cells)]))
  }

  /** `priority_df['aws'] = ...`: compute the column row by row and add it. */
  method AddAwsColumn(rows: seq<BinRow>) returns (r: seq<BinRow>)
    requires forall i :: 0 <= i < |rows| ==> |rows[i].cells| >= NumAveraged
    ensures r == WithAws(rows)
  {
    r := [];
    for i := 0 to |rows|
      invariant r == WithAws(rows)[..i]
    {
      var aws := Aws(rows[i].cells);
      PrefixExtend(WithAws(rows), i);
      r := r + [rows[i].(cells := rows[i].cells + [aws])];
    }
    PrefixExtend(WithAws(rows), |rows|);
  }

  /** In a bin that lies where every overlapping horizon has the same depths
      `t`, `d` and the same `awc` `a`, the storage is `a * (d - t) / 100`:
      the horizon's thickness counts, not the bin's width. */
  lemma AwsUsesHorizonThickness(rows: seq<Horizon>, b: Bin, t: real, d: real, a: real)
    requires !NoCoverage(rows, b)
    requires forall h :: h in Overlapping(rows, b) ==>
      h.fields[DeptT] == Some(t) && h.fields[DeptB] == Some(d) && h.fields[Awc] == Some(a)
    ensures Aws(CalculateWeightedAverages(rows, b).values) == Some(Storage(a, t, d))
  {
    ConstantColumnAverage(rows, b, DeptT, t);
    ConstantColumnAverage(rows, b, DeptB, d);
    ConstantColumnAverage(rows, b, Awc, a);
    AwsOfPresent(CalculateWeightedAverages(rows, b).values, t, d, a);
  }

  lemma AwsOfPresent(cells: seq<Option<real>>, t: real, d: real, a: real)
    requires |cells| >= NumAveraged
    requires cells[DeptT] == Some(t) && cells[DeptB] == Some(d) && cells[Awc] == Some(a)
    ensures Aws(cells) == Some(Storage(a, t, d))
  {
  }

  // ---------------------------------------------------------------------------
  // Forward fill over the table
  // ---------------------------------------------------------------------------

  /** `ffill` over the rows, `prev` holding the values carried down so far;
      labels and coordinates are never missing and pass unchanged. */
  function FillBinRows(prev: seq<Option<real>>, rows: seq<BinRow>): (r: seq<BinRow>)
    ensures |r| == |rows|
    ensures forall i :: 0 <= i < |r| ==>
      r[i].depthBin == rows[i].depthBin && r[i].lat == rows[i].lat && r[i].lon == rows[i].lon &&
      |r[i].cells| == |rows[i].cells|
    decreases |rows|
  {
    if rows == [] then []
    else
      var c := Merge(prev, rows[0].cells);
      [rows[0].(cells := c)] + FillBinRows(c, rows[1..])
  }

  /** Top-to-bottom fill carrying the last present value of every column. */
  method ForwardFillRows(table: seq<BinRow>) returns (filled: seq<BinRow>)
    ensures filled == FillBinRows([], table)
  {
    var last: seq<Option<real>> := [];
    filled := [];
    for i := 0 to |table|
      invariant filled + FillBinRows(last, table[i..]) == FillBinRows([], table)
    {
      SuffixStep(table, i);
      FillBinRowsCons(last, table[i..]);
      var row := table[i].(cells := Merge(last, table[i].cells));
      AppendAssoc(filled, [row], FillBinRows(row.cells, table[i + 1..]));
      last := row.cells;
      filled := filled + [row];
    }
    assert table[|table|..] == [];
  }

  /** One step of the table fill. */
  lemma FillBinRowsCons(prev: seq<Option<real>>, rows: seq<BinRow>)
    requires rows != []
    ensures FillBinRows(prev, rows) ==
      [rows[0].(cells := Merge(prev, rows[0].cells))] + FillBinRows(Merge(prev, rows[0].cells), rows[1..])
  {
  }

  /** The suffix from `i` is element `i` followed by the suffix from `i + 1`. */
  lemma SuffixStep<T>(s: seq<T>, i: nat)
    requires i < |s|
    ensures s[i..] != [] && s[i..][0] == s[i] && s[i..][1..] == s[i + 1..]
  {
  }

  lemma AppendAssoc<T>(a: seq<T>, b: seq<T>, c: seq<T>)
    ensures (a + b) + c == a + (b + c)
  {
  }

  /** Column `j` of a table whose rows all have a cell `j`. */
  function Column(rows: seq<BinRow>, j: nat): (col: seq<Option<real>>)
    requires forall i :: 0 <= i < |rows| ==> j < |rows[i].cells|
    ensures |col| == |rows|
  {
    seq(|rows|, i requires 0 <= i < |rows| => rows[i].cells[j])
  }

  /** The table fill works column by column: each column of the result is
      that column filled on its own. */
  lemma {:induction false} FilledColumn(prev: seq<Option<real>>, rows: seq<BinRow>, j: nat)
    requires forall i :: 0 <= i < |rows| ==> j < |rows[i].cells|
    ensures Column(FillBinRows(prev, rows), j) == FillFrom(CarriedAt(prev, j), Column(rows, j))
    decreases |rows|
  {
    if rows != [] {
      var c := Merge(prev, rows[0].cells);
      FilledColumn(c, rows[1..], j);
      FillBinRowsCons(prev, rows);
      ColumnCons(rows[0].(cells := c), FillBinRows(c, rows[1..]), j);
      assert rows == [rows[0]] + rows[1..];
      ColumnCons(rows[0], rows[1..], j);
      FillFromCons(CarriedAt(prev, j), rows[0].cells[j], Column(rows[1..], j));
    }
  }

  /** Column `j` of a table with a first row. */
  lemma ColumnCons(row: BinRow, rows: seq<BinRow>, j: nat)
    requires j < |row.cells| && forall i :: 0 <= i < |rows| ==> j < |rows[i].cells|
    ensures Column([row] + rows, j) == [row.cells[j]] + Column(rows, j)
  {
    assert forall i :: 0 < i <= |rows| ==> ([row] + rows)[i] == rows[i - 1];
  }

  /** One step of the column fill. */
  lemma FillFromCons(last: Option<real>, x: Option<real>, col: seq<Option<real>>)
    ensures FillFrom(last, [x] + col) == [if x.Some? then x else last] + FillFrom(if x.Some? then x else last, col)
  {
    assert ([x] + col)[1..] == col;
  }

  /** Row `i > 0` of the fill merges row `i` into the filled row above it. */
  lemma {:induction false} FillBinRowsStep(prev: seq<Option<real>>, rows: seq<BinRow>, i: nat)
    requires 0 < i < |rows|
    ensures FillBinRows(prev, rows)[i].cells == Merge(FillBinRows(prev, rows)[i - 1].cells, rows[i].cells)
    decreases |rows|
  {
    var c := Merge(prev, rows[0].cells);
    if i > 1 {
      FillBinRowsStep(c, rows[1..], i - 1);
    }
  }

  // ---------------------------------------------------------------------------
  // The whole script body for one coordinate
  // ---------------------------------------------------------------------------

  /** The rows left once duplicates and rows without a texture are dropped
      and only the dominant component is kept. */
  function Priority(soil: seq<Horizon>): (r: seq<Horizon>)
    ensures forall h :: h in r ==> h in soil && HasTexture(h) && h.fields[Prcent].Some?
  {
    SelectPriority(DropDuplicates(soil))
  }

  /** The filled table the script appends for one coordinate. */
  function PriorityTable(soil: seq<Horizon>, lat: real, lon: real): (t: seq<BinRow>)
    ensures |t| == 20
    ensures forall i :: 0 <= i < 20 ==>
      t[i].depthBin == Labels()[i] && |t[i].cells| == NumCells && t[i].lat == lat && t[i].lon == lon
  {
    FillBinRows([], WithAws(BinTable(Priority(soil), lat, lon)))
  }

  method ProcessCoordinate(soil: seq<Horizon>, lat: real, lon: real) returns (table: seq<BinRow>)
    ensures table == PriorityTable(soil, lat, lon)
  {
    var priority := SelectPriority(DropDuplicates(soil));
    var results := ComputeBins(priority, lat, lon);
    var withAws := AddAwsColumn(results);
    table := ForwardFillRows(withAws);
  }

  /** Before the fill, a bin without coverage is missing in every cell. */
  lemma UncoveredRowMissing(priority: seq<Horizon>, lat: real, lon: real, i: nat)
    requires i < 20 && NoCoverage(priority, BinAt(i))
    ensures forall k :: 0 <= k < NumCells ==> WithAws(BinTable(priority, lat, lon))[i].cells[k].None?
  {
  }

  /** With no rows left after cleaning, every bin of the filled table is
      missing in every cell. */
  lemma EmptyPriorityAllMissing(soil: seq<Horizon>, lat: real, lon: real, i: nat)
    requires i < 20 && Priority(soil) == []
    ensures forall k :: 0 <= k < NumCells ==> PriorityTable(soil, lat, lon)[i].cells[k].None?
  {
    assert PriorityTable(soil, lat, lon) == FillBinRows([], WithAws(BinTable([], lat, lon)));
    EmptyTableMissing(lat, lon, i);
  }

  lemma {:induction false} EmptyTableMissing(lat: real, lon: real, i: nat)
    requires i < 20
    ensures forall k :: 0 <= k < NumCells ==> FillBinRows([], WithAws(BinTable([], lat, lon)))[i].cells[k].None?
  {
    assert Selected([], BinAt(i)) == [];
    UncoveredFilledRow([], lat, lon, i);
    if i > 0 {
      EmptyTableMissing(lat, lon, i - 1);
    }
  }

  /** After the fill, a bin without coverage repeats every cell of the bin
      above it, `aws` included: nothing is recomputed for it. The first bin,
      when uncovered, stays missing throughout. */
  lemma UncoveredBinRepeatsAbove(soil: seq<Horizon>, lat: real, lon: real, i: nat)
    requires i < 20 && NoCoverage(Priority(soil), BinAt(i))
    ensures i > 0 ==> PriorityTable(soil, lat, lon)[i].cells == PriorityTable(soil, lat, lon)[i - 1].cells
    ensures i == 0 ==> forall k :: 0 <= k < NumCells ==> PriorityTable(soil, lat, lon)[0].cells[k].None?
  {
    var filled := FillBinRows([], WithAws(BinTable(Priority(soil), lat, lon)));
    assert PriorityTable(soil, lat, lon) == filled;
    UncoveredFilledRow(Priority(soil), lat, lon, i);
  }

  lemma UncoveredFilledRow(priority: seq<Horizon>, lat: real, lon: real, i: nat)
    requires i < 20 && NoCoverage(priority, BinAt(i))
    ensures i > 0 ==>
      FillBinRows([], WithAws(BinTable(priority, lat, lon)))[i].cells ==
      FillBinRows([], WithAws(BinTable(priority, lat, lon)))[i - 1].cells
    ensures i == 0 ==> forall k :: 0 <= k < NumCells ==> FillBinRows([], WithAws(BinTable(priority, lat, lon)))[0].cells[k].None?
  {
    UncoveredRowMissing(priority, lat, lon, i);
    FillMissingRow(WithAws(BinTable(priority, lat, lon)), i);
  }

  /** Filling a row whose cells are all missing copies the filled row above
      it, or leaves it missing when it is the first. */
  lemma FillMissingRow(rows: seq<BinRow>, i: nat)
    requires i < |rows| && forall k :: 0 <= k < |rows[i].cells| ==> rows[i].cells[k].None?
    requires i > 0 ==> |rows[i - 1].cells| == |rows[i].cells|
    ensures i > 0 ==> FillBinRows([], rows)[i].cells == FillBinRows([], rows)[i - 1].cells
    ensures i == 0 ==> forall k :: 0 <= k < |rows[0].cells| ==> FillBinRows([], rows)[0].cells[k].None?
  {
    if i > 0 {
      FillBinRowsStep([], rows, i);
    } else {
      FillBinRowsCons([], rows);
    }
  }

  /** The end-to-end case of one horizon starting at the surface: every
      bin, covered or filled, reports the horizon's value for every
      averaged column. */
  lemma SingleHorizonFillsEveryBin(h: Horizon, lat: real, lon: real, j: nat, v: real, d: real)
    requires h.fields[DeptT] == Some(0.0) && h.fields[DeptB] == Some(d) && d > 0.0
    requires HasTexture(h) && h.fields[Prcent].Some?
    requires j < NumAveraged && h.fields[j] == Some(v)
    ensures forall i :: 0 <= i < 20 ==> PriorityTable([h], lat, lon)[i].cells[j] == Some(v)
  {
    SinglePriority(h);
    SingleHorizonColumn(h, lat, lon, j, v, d);
    FillConstantColumn(WithAws(BinTable([h], lat, lon)), j, v);
  }

  /** A column whose first cell is `v` and whose present cells are all `v`
      is `v` throughout once filled. */
  lemma FillConstantColumn(rows: seq<BinRow>, j: nat, v: real)
    requires forall i :: 0 <= i < |rows| ==> j < |rows[i].cells|
    requires rows != [] && Column(rows, j)[0] == Some(v)
    requires forall i :: 0 <= i < |rows| && Column(rows, j)[i].Some? ==> Column(rows, j)[i] == Some(v)
    ensures forall i :: 0 <= i < |rows| ==> FillBinRows([], rows)[i].cells[j] == Some(v)
  {
    var t := FillBinRows([], rows);
    FilledColumn([], rows, j);
    FillConstant(None, Column(rows, j), v);
    forall i | 0 <= i < |rows|
      ensures t[i].cells[j] == Some(v)
    {
      assert Column(t, j)[i] == t[i].cells[j];
    }
  }

  /** Before the fill, column `j` for the single horizon holds `v` wherever
      it is present, and in the first bin. */
  lemma SingleHorizonColumn(h: Horizon, lat: real, lon: real, j: nat, v: real, d: real)
    requires h.fields[DeptT] == Some(0.0) && h.fields[DeptB] == Some(d) && d > 0.0
    requires j < NumAveraged && h.fields[j] == Some(v)
    ensures Column(WithAws(BinTable([h], lat, lon)), j)[0] == Some(v)
    ensures forall i :: 0 <= i < 20 && Column(WithAws(BinTable([h], lat, lon)), j)[i].Some? ==>
      Column(WithAws(BinTable([h], lat, lon)), j)[i] == Some(v)
  {
    forall i | 0 <= i < 20
      ensures Column(WithAws(BinTable([h], lat, lon)), j)[i] == CalculateWeightedAverages([h], BinAt(i)).values[j]
    {
    }
    forall i | 0 <= i < 20
      ensures CalculateWeightedAverages([h], BinAt(i)).values[j].Some? ==>
        CalculateWeightedAverages([h], BinAt(i)).values[j] == Some(v)
      ensures i == 0 ==> CalculateWeightedAverages([h], BinAt(i)).values[j] == Some(v)
    {
      SingleHorizonBin(h, i, j, v, d);
    }
  }

  /** One 30 cm horizon with `awc` 0.2 from the surface: the first bin
      reports the storage of the whole horizon, 0.06, where the bin's own
      10 cm would give 0.02. */
  lemma AwsCountsHorizonNotBin(h: Horizon, lat: real, lon: real)
    requires h.fields[DeptT] == Some(0.0) && h.fields[DeptB] == Some(30.0) && h.fields[Awc] == Some(0.2)
    requires HasTexture(h) && h.fields[Prcent].Some?
    ensures PriorityTable([h], lat, lon)[0].cells[AwsCell] == Some(0.06)
  {
    SinglePriority(h);
    var b := BinAt(0);
    assert Proper(h);
    ProperRowsCover([h], b);
    assert Overlapping([h], b) == [h];
    AwsUsesHorizonThickness([h], b, 0.0, 30.0, 0.2);
    var pre := WithAws(BinTable([h], lat, lon));
    assert pre[0].cells[AwsCell] == Some(0.06);
    FillBinRowsCons([], pre);
  }

  /** A single row with a texture and a `prcent` survives cleaning alone. */
  lemma SinglePriority(h: Horizon)
    requires HasTexture(h) && h.fields[Prcent].Some?
    ensures Priority([h]) == [h]
  {
    DedupKeepsDistinct({}, [h]);
    assert DropMissingTexture([h]) == [h];
    assert MaxPrcent([h]) == h.fields[Prcent];
  }

  /** Bin `i` for the single horizon `h`: the value `v` where `h` overlaps,
      missing elsewhere, and the first bin is always overlapped. */
  lemma SingleHorizonBin(h: Horizon, i: nat, j: nat, v: real, d: real)
    requires h.fields[DeptT] == Some(0.0) && h.fields[DeptB] == Some(d) && d > 0.0
    requires j < NumAveraged && h.fields[j] == Some(v) && i < 20
    ensures CalculateWeightedAverages([h], BinAt(i)).values[j].Some? ==>
      CalculateWeightedAverages([h], BinAt(i)).values[j] == Some(v)
    ensures i == 0 ==> CalculateWeightedAverages([h], BinAt(i)).values[j] == Some(v)
  {
    var b := BinAt(i);
    if Overlaps(h, b) {
      assert Proper(h);
      ProperRowsCover([h], b);
      assert Overlapping([h], b) == [h];
      ConstantColumnAverage([h], b, j, v);
    }
  }
}
