/** Soil-horizon rows as the script holds them after numeric coercion, and the
    row-cleaning steps applied before depth binning: duplicate removal, dropping
    rows without a texture, and the dominant-component filter. */
module Horizons {
  import opened Wrappers
  import opened Seqs

  /** The columns averaged per depth bin: the script's numeric column list
      without `hzname` and `chkey`, in the same order. */
  const AveragedColumns: seq<string> :=
    ["deptht", "depthb", "sand", "silt", "clay", "cokey", "prcent", "awc", "om",
     "bulk_density", "th33", "ph", "sat_hidric_cond", "ec", "sar", "caco3",
     "k_factor", "t_factor", "rep_slope", "water_content_0_1bar",
     "water_content_15bar", "wind_erodibility_group", "wind_erodibility_index",
     "bulk_density_10", "water_content_10bar"]

  const NumAveraged: nat := |AveragedColumns|

  // Positions of the columns the aggregation reads by name.
  const DeptT: nat := 0
  const DeptB: nat := 1
  const Sand: nat := 2
  const Silt: nat := 3
  const Clay: nat := 4
  const Prcent: nat := 6
  const Awc: nat := 7

  /** One value per averaged column; `None` is a missing or non-numeric cell. */
  type Fields = s: seq<Option<real>> | |s| == NumAveraged
    witness seq(NumAveraged, _ => None)

  /** A horizon row. `hzname` and `chkey` pass through the same numeric
      coercion as the other columns, so a non-numeric name is `None`. */
  datatype Horizon = Horizon(
    fields: Fields,
    hzname: Option<real>,
    chkey: Option<real>,
    lat: real,
    lon: real)

  // ---------------------------------------------------------------------------
  // Duplicate removal: first occurrence per (lat, lon, deptht, depthb, sand, silt, clay)
  // ---------------------------------------------------------------------------

  /** The columns duplicate removal compares; two missing cells compare equal. */
  datatype Key = Key(
    lat: real, lon: real,
    deptht: Option<real>, depthb: Option<real>,
    sand: Option<real>, silt: Option<real>, clay: Option<real>)

  function KeyOf(h: Horizon): Key
  {
    Key(h.lat, h.lon, h.fields[DeptT], h.fields[DeptB],
        h.fields[Sand], h.fields[Silt], h.fields[Clay])
  }

  function Keys(rows: seq<Horizon>): set<Key>
  {
    set h | h in rows :: KeyOf(h)
  }

  /** No earlier row of `rows` has the key of `rows[i]`. */
  ghost predicate FirstWithKey(rows: seq<Horizon>, i: nat)
    requires i < |rows|
  {
    forall j :: 0 <= j < i ==> KeyOf(rows[j]) != KeyOf(rows[i])
  }

  ghost predicate DistinctKeys(rows: seq<Horizon>)
  {
    forall i, j :: 0 <= i < j < |rows| ==> KeyOf(rows[i]) != KeyOf(rows[j])
  }

  /** Scan `rows` in order, keeping a row only when its key is not in `seen`. */
  function DedupFrom(seen: set<Key>, rows: seq<Horizon>): (r: seq<Horizon>)
    ensures DistinctKeys(r)
    ensures forall h :: h in r ==> h in rows && KeyOf(h) !in seen
    ensures Keys(r) == Keys(rows) - seen
    ensures forall i :: 0 <= i < |rows| && KeyOf(rows[i]) !in seen && FirstWithKey(rows, i) ==> rows[i] in r
    decreases |rows|
  {
    if rows == [] then []
    else
      var k := KeyOf(rows[0]);
      assert rows == [rows[0]] + rows[1..];
      KeysCons(rows[0], rows[1..]);
      FirstWithKeyTail(rows);
      if k in seen then DedupFrom(seen, rows[1..])
      else
        var rest := DedupFrom(seen + {k}, rows[1..]);
        KeysCons(rows[0], rest);
        DistinctCons(rows[0], rest);
        [rows[0]] + rest
  }

  lemma KeysCons(h: Horizon, rest: seq<Horizon>)
    ensures Keys([h] + rest) == {KeyOf(h)} + Keys(rest)
  {
    assert forall g :: g in [h] + rest <==> g == h || g in rest;
  }

  /** A first occurrence after the head is a first occurrence in the tail,
      with a key other than the head's. */
  lemma FirstWithKeyTail(rows: seq<Horizon>)
    requires rows != []
    ensures forall i :: 1 <= i < |rows| && FirstWithKey(rows, i) ==>
      FirstWithKey(rows[1..], i - 1) && KeyOf(rows[i]) != KeyOf(rows[0])
  {
  }

  lemma DistinctCons(h: Horizon, rest: seq<Horizon>)
    requires DistinctKeys(rest)
    requires forall g :: g in rest ==> KeyOf(g) != KeyOf(h)
    ensures DistinctKeys([h] + rest)
  {
    var r := [h] + rest;
    forall i, j | 0 <= i < j < |r|
      ensures KeyOf(r[i]) != KeyOf(r[j])
    {
      assert r[j] == rest[j - 1];
      if i > 0 {
        assert r[i] == rest[i - 1];
      } else {
        assert rest[j - 1] in rest;
      }
    }
  }

  /** `drop_duplicates` on the key columns, keeping the first occurrence. */
  function DropDuplicates(rows: seq<Horizon>): (r: seq<Horizon>)
    ensures DistinctKeys(r)
    ensures Keys(r) == Keys(rows)
    ensures forall h :: h in r ==> h in rows
    ensures forall i :: 0 <= i < |rows| && FirstWithKey(rows, i) ==> rows[i] in r
  {
    DedupFrom({}, rows)
  }

  lemma {:induction false} DedupKeepsDistinct(seen: set<Key>, rows: seq<Horizon>)
    requires DistinctKeys(rows)
    requires Keys(rows) !! seen
    ensures DedupFrom(seen, rows) == rows
    decreases |rows|
  {
    if rows != [] {
      var k := KeyOf(rows[0]);
      var tail := rows[1..];
      forall i, j | 0 <= i < j < |tail|
        ensures KeyOf(tail[i]) != KeyOf(tail[j])
      {
        assert tail[i] == rows[i + 1] && tail[j] == rows[j + 1];
      }
      forall h | h in tail
        ensures KeyOf(h) != k && KeyOf(h) !in seen
      {
        var i :| 0 <= i < |tail| && tail[i] == h;
        assert rows[i + 1] == h;
      }
      assert k !in seen by {
        assert rows[0] in rows;
      }
      DedupKeepsDistinct(seen + {k}, tail);
      assert rows == [rows[0]] + tail;
    }
  }

  /** Removing duplicates twice removes nothing more. */
  lemma DropDuplicatesIdempotent(rows: seq<Horizon>)
    ensures DropDuplicates(DropDuplicates(rows)) == DropDuplicates(rows)
  {
    DedupKeepsDistinct({}, DropDuplicates(rows));
  }

  // ---------------------------------------------------------------------------
  // Texture filter and dominant component
  // ---------------------------------------------------------------------------

  predicate HasTexture(h: Horizon)
  {
    h.fields[Sand].Some? && h.fields[Silt].Some? && h.fields[Clay].Some?
  }

  /** `dropna(subset=['sand', 'silt', 'clay'])`. */
  function DropMissingTexture(rows: seq<Horizon>): (r: seq<Horizon>)
    ensures forall h :: multiset(r)[h] == if HasTexture(h) then multiset(rows)[h] else 0
  {
    Filter(rows, HasTexture)
  }

  /** The largest present `prcent`, skipping missing cells; `None` when there is none. */
  function MaxPrcent(rows: seq<Horizon>): (m: Option<real>)
    ensures m.None? <==> forall h :: h in rows ==> h.fields[Prcent].None?
    ensures m.Some? ==> exists h :: h in rows && h.fields[Prcent] == m
    ensures m.Some? ==> forall h :: h in rows && h.fields[Prcent].Some? ==> h.fields[Prcent].value <= m.value
  {
    if rows == [] then None
    else
      assert rows == [rows[0]] + rows[1..];
      var rest := MaxPrcent(rows[1..]);
      match rows[0].fields[Prcent]
      case None => rest
      case Some(p) => if rest.Some? && rest.value > p then rest else Some(p)
  }

  /** `h` has a present `prcent` at least as large as every present `prcent` in `rows`. */
  ghost predicate IsDominant(h: Horizon, rows: seq<Horizon>)
  {
    h.fields[Prcent].Some? &&
    forall g :: g in rows && g.fields[Prcent].Some? ==> g.fields[Prcent].value <= h.fields[Prcent].value
  }

  /** Rows whose `prcent` equals the maximum. Ties are all kept, as are
      duplicates; rows with a missing `prcent` never are, and an input with
      no present `prcent` (the empty input among them) gives nothing. */
  function Dominant(rows: seq<Horizon>): (r: seq<Horizon>)
    ensures forall h :: multiset(r)[h] == if IsDominant(h, rows) then multiset(rows)[h] else 0
  {
    match MaxPrcent(rows)
    case None => []
    case Some(m) =>
      MaxIsDominance(rows, m);
      Filter(rows, (h: Horizon) => h.fields[Prcent] == Some(m))
  }

  /** Among the rows, having `prcent` equal to the maximum is being dominant. */
  lemma MaxIsDominance(rows: seq<Horizon>, m: real)
    requires MaxPrcent(rows) == Some(m)
    ensures forall h :: h in rows ==> (h.fields[Prcent] == Some(m) <==> IsDominant(h, rows))
  {
    var w :| w in rows && w.fields[Prcent] == Some(m);
    forall h | h in rows && IsDominant(h, rows)
      ensures h.fields[Prcent] == Some(m)
    {
      assert m <= h.fields[Prcent].value;
    }
  }

  /** Texture filter, then the dominant-component filter over what is left. */
  function SelectPriority(rows: seq<Horizon>): (r: seq<Horizon>)
    ensures forall h :: h in r ==> HasTexture(h)
    ensures forall h :: multiset(r)[h] == (if HasTexture(h) && IsDominant(h, DropMissingTexture(rows)) then multiset(rows)[h] else 0)
  {
    Dominant(DropMissingTexture(rows))
  }

  /** Nothing survives exactly when no row with a texture has a present
      `prcent`: the comparison with a NaN maximum keeps no row. */
  lemma SelectPriorityEmpty(rows: seq<Horizon>)
    ensures SelectPriority(rows) == [] <==>
      forall h :: h in rows && HasTexture(h) ==> h.fields[Prcent].None?
  {
    var r, textured := SelectPriority(rows), DropMissingTexture(rows);
    if r != [] {
      assert r[0] in r;
      assert multiset(r)[r[0]] > 0;
    }
    if g :| g in rows && HasTexture(g) && g.fields[Prcent].Some? {
      assert multiset(textured)[g] > 0;
      var w :| w in textured && w.fields[Prcent] == MaxPrcent(textured);
      assert multiset(textured)[w] > 0;
      assert multiset(r)[w] > 0;
    }
  }
}
