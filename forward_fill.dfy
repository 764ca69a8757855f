/** `DataFrame.ffill()`: top to bottom, a missing cell takes the last present
    value above it in the same column. */
module ForwardFill {
  import opened Wrappers

  /** Fill one column, `last` being the last present value seen above it. */
  function FillFrom<T>(last: Option<T>, col: seq<Option<T>>): (r: seq<Option<T>>)
    ensures |r| == |col|
    decreases |col|
  {
    if col == [] then []
    else
      var v := if col[0].Some? then col[0] else last;
      [v] + FillFrom(v, col[1..])
  }

  /** Fill a whole column, starting with nothing seen. */
  function FillColumn<T>(col: seq<Option<T>>): seq<Option<T>>
  {
    FillFrom(None, col)
  }

  /** A present value is never changed. */
  lemma {:induction false} FillKeepsPresent<T>(last: Option<T>, col: seq<Option<T>>, i: nat)
    requires i < |col| && col[i].Some?
    ensures FillFrom(last, col)[i] == col[i]
    decreases |col|
  {
    if i > 0 {
      FillKeepsPresent(if col[0].Some? then col[0] else last, col[1..], i - 1);
    }
  }

  /** A missing cell takes the nearest present value above it. */
  lemma {:induction false} FillUsesNearestAbove<T>(last: Option<T>, col: seq<Option<T>>, j: nat, i: nat)
    requires j < i < |col| && col[j].Some?
    requires forall k :: j < k <= i ==> col[k].None?
    ensures FillFrom(last, col)[i] == col[j]
    decreases |col|
  {
    var v := if col[0].Some? then col[0] else last;
    if j > 0 {
      FillUsesNearestAbove(v, col[1..], j - 1, i - 1);
    } else {
      FillCarriesLast(v, col[1..], i - 1);
    }
  }

  /** With nothing present up to row `i`, row `i` gets `last`. */
  lemma {:induction false} FillCarriesLast<T>(last: Option<T>, col: seq<Option<T>>, i: nat)
    requires i < |col|
    requires forall k :: 0 <= k <= i ==> col[k].None?
    ensures FillFrom(last, col)[i] == last
    decreases |col|
  {
    if i > 0 {
      FillCarriesLast(last, col[1..], i - 1);
    }
  }

  /** Leading missing cells stay missing. */
  lemma FillLeavesLeadingMissing<T>(col: seq<Option<T>>, i: nat)
    requires i < |col|
    requires forall k :: 0 <= k <= i ==> col[k].None?
    ensures FillColumn(col)[i].None?
  {
    FillCarriesLast(None, col, i);
  }

  /** A missing cell below the first repeats the filled cell above it. */
  lemma {:induction false} FillRepeatsAbove<T>(last: Option<T>, col: seq<Option<T>>, i: nat)
    requires 0 < i < |col| && col[i].None?
    ensures FillFrom(last, col)[i] == FillFrom(last, col)[i - 1]
    decreases |col|
  {
    var v := if col[0].Some? then col[0] else last;
    if i > 1 {
      FillRepeatsAbove(v, col[1..], i - 1);
    }
  }

  /** Filling twice is filling once. */
  lemma {:induction false} FillIdempotent<T>(last: Option<T>, col: seq<Option<T>>)
    ensures FillFrom(last, FillFrom(last, col)) == FillFrom(last, col)
    decreases |col|
  {
    if col != [] {
      var v := if col[0].Some? then col[0] else last;
      var once := FillFrom(last, col);
      assert once[0] == v && once[1..] == FillFrom(v, col[1..]);
      FillIdempotent(v, col[1..]);
    }
  }

  /** When the first cell is `v` and every present cell is `v`, the filled
      column is `v` throughout. */
  lemma {:induction false} FillConstant<T>(last: Option<T>, col: seq<Option<T>>, v: T)
    requires col != [] && col[0] == Some(v)
    requires forall k :: 0 <= k < |col| && col[k].Some? ==> col[k] == Some(v)
    ensures forall k :: 0 <= k < |col| ==> FillFrom(last, col)[k] == Some(v)
    decreases |col|
  {
    if |col| > 1 {
      var rest := col[1..];
      if rest[0].Some? {
        FillConstant(Some(v), rest, v);
      } else {
        FillConstantAfter(rest, v);
      }
    }
  }

  lemma {:induction false} FillConstantAfter<T>(col: seq<Option<T>>, v: T)
    requires forall k :: 0 <= k < |col| && col[k].Some? ==> col[k] == Some(v)
    ensures forall k :: 0 <= k < |col| ==> FillFrom(Some(v), col)[k] == Some(v)
    decreases |col|
  {
    if col != [] {
      FillConstantAfter(col[1..], v);
    }
  }

  /** One row of a table fill: each cell present in `cells` stays, each
      missing one takes the value carried in `prev` for its column, so every
      cell is one step of its column's fill. */
  function Merge<T>(prev: seq<Option<T>>, cells: seq<Option<T>>): (r: seq<Option<T>>)
    ensures |r| == |cells|
    ensures forall j :: 0 <= j < |cells| ==> r[j] == FillFrom(CarriedAt(prev, j), [cells[j]])[0]
  {
    seq(|cells|, j requires 0 <= j < |cells| =>
      if cells[j].Some? then cells[j] else if j < |prev| then prev[j] else None)
  }

  /** The value carried for column `j` before the first row. */
  function CarriedAt<T>(prev: seq<Option<T>>, j: nat): Option<T>
  {
    if j < |prev| then prev[j] else None
  }
}
