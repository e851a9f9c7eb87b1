/** The stack layout over the period rows, with the given keys and no
    offset: with the default order the layers follow the key order, and each
    layer starts at the sum of the values below it. */
module Stacking {
  import opened Seqs
  import opened Mediums

  /** The vertical extent `[lo, hi)` of one layer at one x position. */
  datatype Band = Band(lo: nat, hi: nat)

  /** The bands of one row, built the way the stack layout builds them: a
      running total starting at `base`, each band ending where the next one
      starts. Its contract gives the closed form, the prefix sums of the
      values. */
  function StackFrom(values: seq<nat>, base: nat): (bands: seq<Band>)
    ensures |bands| == |values|
    ensures forall i {:trigger bands[i]} :: 0 <= i < |values| ==>
      bands[i] == Band(base + Sum(values[..i]), base + Sum(values[..i + 1]))
  {
    if values == [] then []
    else
      var rest := StackFrom(values[1..], base + values[0]);
      PrefixSumsOfTail(values);
      [Band(base, base + values[0])] + rest
  }

  lemma {:induction false} PrefixSumsOfTail(values: seq<nat>)
    requires values != []
    ensures forall i :: 1 <= i <= |values| ==> Sum(values[..i]) == values[0] + Sum(values[1..][..i - 1])
  {
    forall i | 1 <= i <= |values|
      ensures Sum(values[..i]) == values[0] + Sum(values[1..][..i - 1])
    {
      assert values[..i][1..] == values[1..][..i - 1];
    }
  }

  /** The bands of one row stacked from zero. */
  function StackRow(values: seq<nat>): (bands: seq<Band>)
    ensures |bands| == |values|
    ensures forall i {:trigger bands[i]} :: 0 <= i < |values| ==>
      bands[i] == Band(Sum(values[..i]), Sum(values[..i + 1]))
  {
    StackFrom(values, 0)
  }

  /** Each band is as tall as its value. */
  lemma {:induction false} StackRowWidths(values: seq<nat>)
    ensures forall i :: 0 <= i < |values| ==> StackRow(values)[i].hi == StackRow(values)[i].lo + values[i]
  {
    var bands := StackRow(values);
    forall i | 0 <= i < |values|
      ensures bands[i].hi == bands[i].lo + values[i]
    {
      SumPrefixStep(values, i);
    }
  }

  /** The first band starts at zero, each later one starts where the one
      below ends, and the last ends at the row's total. */
  lemma {:induction false} StackRowEnds(values: seq<nat>)
    ensures |values| > 0 ==> StackRow(values)[0].lo == 0
    ensures forall i :: 1 <= i < |values| ==> StackRow(values)[i].lo == StackRow(values)[i - 1].hi
    ensures |values| > 0 ==> StackRow(values)[|values| - 1].hi == Sum(values)
  {
    var bands := StackRow(values);
    assert values[..0] == [];
    assert values[..|values|] == values;
    forall i | 1 <= i < |values|
      ensures bands[i].lo == bands[i - 1].hi
    {
      var k := i - 1;
      assert bands[k].hi == Sum(values[..k + 1]);
    }
  }

  /** Every unit of height below the row's total lies in some band. */
  lemma {:induction false} StackCovers(values: seq<nat>, v: int)
    requires 0 <= v < Sum(values)
    ensures exists i :: 0 <= i < |values| && StackRow(values)[i].lo <= v < StackRow(values)[i].hi
  {
    var bands := StackRow(values);
    var i := PrefixBelow(values, v);
    assert bands[i].lo <= v < bands[i].hi;
  }

  /** Bands do not overlap: a lower band ends at or below where any higher
      one starts. */
  lemma {:induction false} StackDisjoint(values: seq<nat>, i: nat, j: nat)
    requires i < j < |values|
    ensures StackRow(values)[i].hi <= StackRow(values)[j].lo
  {
    var bands := StackRow(values);
    SumPrefixMonotone(values, i + 1, j);
    assert bands[i].hi == Sum(values[..i + 1]) && bands[j].lo == Sum(values[..j]);
  }

  /** The band that holds height `v`, found from the bottom. */
  lemma {:induction false} PrefixBelow(values: seq<nat>, v: int) returns (i: nat)
    requires 0 <= v < Sum(values)
    ensures i < |values| && Sum(values[..i]) <= v < Sum(values[..i + 1])
  {
    assert values != [];
    assert values[..1] == [values[0]];
    assert values[..0] == [];
    if v < values[0] {
      i := 0;
    } else {
      var k := PrefixBelow(values[1..], v - values[0]);
      i := k + 1;
      PrefixSumsOfTail(values);
    }
  }

  /** One point of a layer: the row's year and the layer's band there. */
  datatype Point = Point(year: int, lo: nat, hi: nat)

  /** One series of the stack: a key and its point at every row. */
  datatype Layer = Layer(key: string, points: seq<Point>)

  function PointOf(row: Row, i: nat): Point
    requires i < |row.values|
  {
    var band := StackRow(row.values)[i];
    Point(row.year, band.lo, band.hi)
  }

  function LayerPoints(rows: seq<Row>, i: nat): (points: seq<Point>)
    requires forall j :: 0 <= j < |rows| ==> i < |rows[j].values|
    ensures |points| == |rows|
    ensures forall j :: 0 <= j < |rows| ==> points[j] == PointOf(rows[j], i)
  {
    seq(|rows|, j requires 0 <= j < |rows| => PointOf(rows[j], i))
  }

  /** The stacked layers, one per key and in key order, each with one point
      per row: layer `i` at a row spans the sum of the row's first `i`
      values up to the sum of its first `i + 1`. */
  function Stack(rows: seq<Row>, keys: seq<string>): (layers: seq<Layer>)
    requires forall j :: 0 <= j < |rows| ==> |rows[j].values| == |keys|
    ensures |layers| == |keys|
    ensures forall i :: 0 <= i < |keys| ==> layers[i].key == keys[i] && |layers[i].points| == |rows|
    ensures forall i, j :: 0 <= i < |keys| && 0 <= j < |rows| ==>
      layers[i].points[j] == Point(rows[j].year, Sum(rows[j].values[..i]), Sum(rows[j].values[..i + 1]))
  {
    seq(|keys|, i requires 0 <= i < |keys| => Layer(keys[i], LayerPoints(rows, i)))
  }

  /** At each row, every layer is as tall as the row's value for its key. */
  lemma {:induction false} StackHeights(rows: seq<Row>, keys: seq<string>)
    requires forall j :: 0 <= j < |rows| ==> |rows[j].values| == |keys|
    ensures forall i, j :: 0 <= i < |keys| && 0 <= j < |rows| ==>
      && Stack(rows, keys)[i].points[j].year == rows[j].year
      && Stack(rows, keys)[i].points[j].hi == Stack(rows, keys)[i].points[j].lo + rows[j].values[i]
  {
    var layers := Stack(rows, keys);
    forall i, j | 0 <= i < |keys| && 0 <= j < |rows|
      ensures layers[i].points[j].hi == layers[i].points[j].lo + rows[j].values[i]
    {
      SumPrefixStep(rows[j].values, i);
    }
  }

  /** With no offset, the lowest layer starts at zero and every other layer
      starts, at each row, where the layer below it ends. */
  predicate Stacked(layers: seq<Layer>)
  {
    && (|layers| > 0 ==> forall j :: 0 <= j < |layers[0].points| ==> layers[0].points[j].lo == 0)
    && forall i, j :: 1 <= i < |layers| && 0 <= j < |layers[i].points| && j < |layers[i - 1].points| ==>
      layers[i].points[j].lo == layers[i - 1].points[j].hi
  }

  /** The layers of the stack are stacked: no gaps, no overlaps, from zero. */
  lemma {:induction false} StackIsStacked(rows: seq<Row>, keys: seq<string>)
    requires forall j :: 0 <= j < |rows| ==> |rows[j].values| == |keys|
    ensures Stacked(Stack(rows, keys))
  {
  }

  /** The top of the last layer at each row is the row's total. */
  lemma {:induction false} StackTop(rows: seq<Row>, keys: seq<string>)
    requires forall j :: 0 <= j < |rows| ==> |rows[j].values| == |keys|
    requires keys != []
    ensures forall j :: 0 <= j < |rows| ==> Stack(rows, keys)[|keys| - 1].points[j].hi == Sum(rows[j].values)
  {
    forall j | 0 <= j < |rows|
      ensures Stack(rows, keys)[|keys| - 1].points[j].hi == Sum(rows[j].values)
    {
      assert rows[j].values[..|keys|] == rows[j].values;
    }
  }
}
