/** The fixed depth bins: edges from `np.arange(0, 210, 10)`, the labels
    `'0-10'` ... `'190-200'` built from them, and the parse of a label back into
    its bounds with `split('-')` and `float`. */
module DepthBins {
  import opened Wrappers

  /** A depth interval; a horizon counts for it when it overlaps strictly. */
  datatype Bin = Bin(lower: real, upper: real)

  /** `np.arange(start, stop, step)` for a positive integer step: the values
      `start + step * i` below `stop`, and no more. */
  function Arange(start: int, stop: int, step: nat): (r: seq<int>)
    requires step > 0
    ensures forall i :: 0 <= i < |r| ==> r[i] == start + step * i && r[i] < stop
    ensures start + step * |r| >= stop
    decreases stop - start
  {
    if start >= stop then []
    else
      var rest := Arange(start + step, stop, step);
      assert forall i :: 0 <= i < |rest| ==> start + step * (i + 1) == start + step + step * i;
      assert step * (|rest| + 1) == step * |rest| + step;
      [start] + rest
  }

  /** The 21 bin edges 0, 10, ..., 200. */
  function Edges(): (e: seq<int>)
    ensures |e| == 21
    ensures forall i :: 0 <= i < |e| ==> e[i] == 10 * i
  {
    var e := Arange(0, 210, 10);
    assert |e| >= 21;
    assert e[|e| - 1] < 210;
    e
  }

  // ---------------------------------------------------------------------------
  // Decimal formatting and parsing of non-negative integers
  // ---------------------------------------------------------------------------

  predicate IsDigit(c: char)
  {
    '0' <= c <= '9'
  }

  function DigitChar(d: nat): (c: char)
    requires d < 10
    ensures IsDigit(c) && c as int - '0' as int == d
  {
    ('0' as int + d) as char
  }

  /** The decimal text of `n`, as `str` (and an f-string) writes a non-negative integer. */
  function NatToString(n: nat): (s: string)
    ensures |s| >= 1
    ensures forall k :: 0 <= k < |s| ==> IsDigit(s[k])
  {
    if n < 10 then [DigitChar(n)]
    else NatToString(n / 10) + [DigitChar(n % 10)]
  }

  function DigitsValue(s: string): nat
    requires forall k :: 0 <= k < |s| ==> IsDigit(s[k])
  {
    if s == [] then 0
    else
      assert IsDigit(s[|s| - 1]);
      10 * DigitsValue(s[..|s| - 1]) + (s[|s| - 1] as int - '0' as int)
  }

  /** Reading back the decimal text of `n` gives `n`. */
  lemma {:induction false} DigitsRoundTrip(n: nat)
    ensures DigitsValue(NatToString(n)) == n
  {
    if n >= 10 {
      var s := NatToString(n);
      assert s[..|s| - 1] == NatToString(n / 10);
      DigitsRoundTrip(n / 10);
    }
  }

  /** `float` applied to a label part, for parts made of decimal digits; any
      other text (the empty one included) is rejected. */
  function ParseNat(s: string): (r: Option<nat>)
    ensures r.Some? <==> |s| >= 1 && forall k :: 0 <= k < |s| ==> IsDigit(s[k])
  {
    if |s| >= 1 && forall k :: 0 <= k < |s| ==> IsDigit(s[k]) then Some(DigitsValue(s)) else None
  }

  // ---------------------------------------------------------------------------
  // Splitting on a separator, as Python's `str.split(sep)` does
  // ---------------------------------------------------------------------------

  /** The pieces of `s` between occurrences of `sep`; there is always at
      least one piece. */
  function Split(s: string, sep: char): (parts: seq<string>)
    ensures |parts| >= 1
    ensures sep !in s ==> parts == [s]
  {
    if s == [] then [""]
    else
      var rest := Split(s[1..], sep);
      assert s == [s[0]] + s[1..];
      assert sep !in s ==> sep !in s[1..];
      if s[0] == sep then [""] + rest
      else [[s[0]] + rest[0]] + rest[1..]
  }

  /** Splitting `a + [sep] + b` gives back `a` and `b` when neither holds `sep`. */
  lemma {:induction false} SplitAround(a: string, sep: char, b: string)
    requires sep !in a && sep !in b
    ensures Split(a + [sep] + b, sep) == [a, b]
  {
    if a == [] {
      assert a + [sep] + b == [sep] + b;
      assert ([sep] + b)[1..] == b;
    } else {
      SplitAround(a[1..], sep, b);
      assert (a + [sep] + b)[1..] == a[1..] + [sep] + b;
      assert [a[0]] + a[1..] == a;
    }
  }

  // ---------------------------------------------------------------------------
  // Labels and bins
  // ---------------------------------------------------------------------------

  const BinWidth: nat := 10

  /** `f'{i}-{i+10}'`: `split('-')` gives back the two numerals. */
  function FormatLabel(n: nat): (s: string)
    ensures Split(s, '-') == [NatToString(n), NatToString(n + BinWidth)]
  {
    var a, b := NatToString(n), NatToString(n + BinWidth);
    assert '-' !in a && '-' !in b;
    SplitAround(a, '-', b);
    a + ['-'] + b
  }

  /** One label per edge but the last: `'0-10'`, `'10-20'`, ..., `'190-200'`. */
  function Labels(): (ls: seq<string>)
    ensures |ls| == 20
    ensures forall i :: 0 <= i < |ls| ==> ls[i] == FormatLabel(10 * i)
  {
    var e := Edges();
    seq(|e| - 1, i requires 0 <= i < |e| - 1 => FormatLabel(e[i]))
  }

  /** `lower, upper = map(float, label.split('-'))` on labels made of two
      digit strings; `None` for anything else. */
  function ParseLabel(text: string): (r: Option<Bin>)
    ensures r.Some? ==> r.value.lower >= 0.0 && r.value.upper >= 0.0
  {
    var parts := Split(text, '-');
    if |parts| != 2 then None
    else
      match (ParseNat(parts[0]), ParseNat(parts[1]))
      case (Some(lo), Some(hi)) => Some(Bin(lo as real, hi as real))
      case _ => None
  }

  /** The bin the `i`-th label stands for. */
  function BinAt(i: nat): Bin
  {
    Bin((10 * i) as real, (10 * i + 10) as real)
  }

  /** Formatting an edge and parsing the label gives the edge and the next one. */
  lemma FormatParseRoundTrip(n: nat)
    ensures ParseLabel(FormatLabel(n)) == Some(Bin(n as real, (n + BinWidth) as real))
  {
    DigitsRoundTrip(n);
    DigitsRoundTrip(n + BinWidth);
  }

  /** There are 20 labels; label `i` parses to the bin [10i, 10i + 10], so
      consecutive bins share an edge and together they run from 0 to 200. */
  lemma LabelsTileDepths()
    ensures |Labels()| == 20
    ensures forall i :: 0 <= i < 20 ==> ParseLabel(Labels()[i]) == Some(BinAt(i))
    ensures forall i :: 0 <= i < 19 ==> BinAt(i).upper == BinAt(i + 1).lower
    ensures BinAt(0).lower == 0.0 && BinAt(19).upper == 200.0
  {
    forall i | 0 <= i < 20
      ensures ParseLabel(Labels()[i]) == Some(BinAt(i))
    {
      LabelParses(i);
    }
  }

  /** The first and the last label, written out. */
  lemma FirstAndLastLabels()
    ensures Labels()[0] == "0-10" && Labels()[19] == "190-200"
  {
    assert NatToString(19) == "19";
    assert NatToString(190) == "190";
    assert NatToString(200) == "200";
  }

  /** Label `i` parses to bin `i`. */
  lemma LabelParses(i: nat)
    requires i < 20
    ensures ParseLabel(Labels()[i]) == Some(BinAt(i))
  {
    var n := 10 * i;
    assert Labels()[i] == FormatLabel(n);
    FormatParseRoundTrip(n);
    assert Bin(n as real, (n + BinWidth) as real) == BinAt(i);
  }

  /** Every depth in [0, 200) lies in exactly one bin. */
  function BinIndex(d: real): (i: nat)
    requires 0.0 <= d < 200.0
    ensures i < 20 && BinAt(i).lower <= d < BinAt(i).upper
    ensures forall k: nat :: k < 20 && BinAt(k).lower <= d < BinAt(k).upper ==> k == i
  {
    d.Floor / 10
  }
}
