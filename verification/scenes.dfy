/** The three scenes of the visualization and the clicks that move between
    them: the department treemap, a department's century bars, and a
    century's stacked medium layers. */
module Scenes {
  import opened Seqs
  import opened Sorting
  import opened Grouping
  import opened Records
  import opened Centuries
  import opened Annotations
  import opened Mediums
  import opened Stacking

  datatype Scene =
    | Overview
    | DepartmentDetail(department: string)
    | PeriodDetail(department: string, period: int)

  /** A click: on a treemap tile, on a century bar, or on the back button. */
  datatype Event =
    | SelectDepartment(department: string)
    | SelectPeriod(period: int)
    | Back

  /** What a scene draws, short of geometry. */
  datatype View =
    | OverviewView(tiles: seq<Bucket<string>>)
    | DepartmentView(department: string, bars: seq<Bucket<int>>, annotation: Option<Annotation>, backWorks: bool)
    | PeriodView(department: string, period: int, keys: seq<string>, rows: seq<Row>, layers: seq<Layer>)

  /** What can be clicked: the departments that have a tile and, for each of
      them, the centuries that have a bar. */
  datatype Menu = Menu(tiles: seq<string>, bars: map<string, seq<int>>)

  /** The treemap's leaves. With no records the hierarchy's root has no
      children and is itself the only leaf: one tile named "root", of size 0,
      filling the whole chart. */
  function Tiles(data: seq<Record>): (tiles: seq<Bucket<string>>)
    ensures tiles != []
    ensures Total(tiles) == |data|
    ensures data != [] ==> tiles == DepartmentCounts(data)
    ensures data == [] ==> tiles == [Bucket(RootName, 0)]
  {
    if data == [] then [Bucket(RootName, 0)] else DepartmentCounts(data)
  }

  /** The name of the hierarchy's root node. */
  const RootName := "root"

  /** The clickable items of a dataset: the treemap's tiles, and the
      centuries of each department's bar chart. */
  function MenuOf(data: seq<Record>): (m: Menu)
    ensures forall d :: d in m.tiles <==>
      (data == [] && d == RootName) || exists i :: 0 <= i < |data| && data[i].department == d
    ensures forall d :: d in m.tiles <==> d in m.bars
    ensures forall d :: d in m.bars ==> m.bars[d] == KeysOf(CenturyBars(data, d))
  {
    var tiles := KeysOf(Tiles(data));
    assert data == [] ==> tiles == [RootName];
    Menu(tiles, map d | d in tiles :: KeysOf(CenturyBars(data, d)))
  }

  /** The department has a tile in the treemap. */
  predicate IsTile(m: Menu, department: string)
  {
    department in m.tiles
  }

  /** The century has a bar in the department's chart. */
  predicate IsBar(m: Menu, department: string, period: int)
  {
    department in m.bars && period in m.bars[department]
  }

  /** Every scene the user can be looking at: one reached by clicking
      something that was drawn. */
  predicate Valid(m: Menu, s: Scene)
  {
    match s
    case Overview => true
    case DepartmentDetail(d) => IsTile(m, d)
    case PeriodDetail(d, y) => IsTile(m, d) && IsBar(m, d, y)
  }

  /** The scene a click leads to, or `None` when nothing clickable was hit:
      a tile opens its department, a bar opens its century within the
      current department, and the back button goes up one level, except
      in a department scene whose callout code threw before binding it. */
  function Step(m: Menu, s: Scene, e: Event): (next: Option<Scene>)
    ensures Valid(m, s) && next.Some? ==> Valid(m, next.value)
    ensures e.Back? ==>
      (next.Some? <==> !s.Overview? && !(s.DepartmentDetail? && InsightLookupThrows(s.department)))
    ensures next.Some? && e.SelectDepartment? ==>
      s.Overview? && next.value == DepartmentDetail(e.department) && IsTile(m, e.department)
    ensures next.Some? && e.SelectPeriod? ==>
      s.DepartmentDetail? && next.value == PeriodDetail(s.department, e.period) && IsBar(m, s.department, e.period)
  {
    match (s, e)
    case (Overview, SelectDepartment(d)) =>
      if IsTile(m, d) then Some(DepartmentDetail(d)) else None
    case (DepartmentDetail(d), SelectPeriod(y)) =>
      if IsBar(m, d, y) then Some(PeriodDetail(d, y)) else None
    case (DepartmentDetail(d), Back) => if InsightLookupThrows(d) then None else Some(Overview)
    case (PeriodDetail(d, _), Back) => Some(DepartmentDetail(d))
    case _ => None
  }

  /** A click that opens a scene is undone by the back button, unless it
      opened a department whose back button was never bound. */
  lemma {:induction false} BackUndoesSelect(m: Menu, s: Scene, e: Event, t: Scene)
    requires !e.Back?
    requires Step(m, s, e) == Some(t)
    ensures Step(m, t, Back) == if e.SelectDepartment? && InsightLookupThrows(e.department) then None else Some(s)
  {
  }

  /** The scene after a sequence of clicks, or `None` if one of them hits
      nothing. */
  function Run(m: Menu, s: Scene, events: seq<Event>): (r: Option<Scene>)
    ensures events == [] ==> r == Some(s)
    decreases |events|
  {
    if events == [] then Some(s)
    else match Step(m, s, events[0])
      case None => None
      case Some(t) => Run(m, t, events[1..])
  }

  lemma {:induction false} RunPreservesValid(m: Menu, s: Scene, events: seq<Event>)
    requires Valid(m, s)
    ensures Run(m, s, events).Some? ==> Valid(m, Run(m, s, events).value)
    decreases |events|
  {
    if events != [] {
      match Step(m, s, events[0])
      case None =>
      case Some(t) => RunPreservesValid(m, t, events[1..]);
    }
  }

  /** The clicks that lead from the treemap to a scene. */
  function PathTo(s: Scene): seq<Event>
  {
    match s
    case Overview => []
    case DepartmentDetail(d) => [SelectDepartment(d)]
    case PeriodDetail(d, y) => [SelectDepartment(d), SelectPeriod(y)]
  }

  ghost predicate Reachable(m: Menu, s: Scene)
  {
    exists events :: Run(m, Overview, events) == Some(s)
  }

  /** Following the path of a valid scene leads to it. */
  lemma {:induction false} PathReaches(m: Menu, s: Scene)
    requires Valid(m, s)
    ensures Run(m, Overview, PathTo(s)) == Some(s)
  {
  }

  /** The scenes the user can reach from the treemap are exactly the valid
      ones. */
  lemma {:induction false} ReachableIffValid(m: Menu, s: Scene)
    ensures Reachable(m, s) <==> Valid(m, s)
  {
    if Reachable(m, s) {
      var events :| Run(m, Overview, events) == Some(s);
      RunPreservesValid(m, Overview, events);
    }
    if Valid(m, s) {
      PathReaches(m, s);
    }
  }

  /** The department scene: its bars and its callout. Every bar clears the
      noise threshold, so there is a callout exactly when there is a bar,
      unless the insight lookup threw, which leaves no callout and an unbound
      back button. */
  function DepartmentScene(data: seq<Record>, department: string): (v: View)
    ensures v.DepartmentView? && v.department == department
    ensures Ascending(v.bars)
    ensures forall b :: b in v.bars <==> b in CenturyBars(data, department)
    ensures forall i :: 0 <= i < |v.bars| ==>
      v.bars[i].count == Count(CenturyKeys(DepartmentRecords(data, department)), v.bars[i].key)
    ensures v.backWorks <==> !InsightLookupThrows(department)
    ensures v.backWorks ==> v.annotation == ChooseAnnotation(department, DepartmentInsights, v.bars)
    ensures !v.backWorks ==> v.annotation.None?
    ensures v.backWorks ==> (v.annotation.None? <==> v.bars == [])
    ensures v.annotation.Some? && v.annotation.value.Highlight? ==>
      v.annotation.value.bar in v.bars &&
      forall b :: b in v.bars ==> b.count <= v.annotation.value.bar.count
  {
    var bars := CenturyBars(data, department);
    if InsightLookupThrows(department) then
      DepartmentView(department, bars, None, false)
    else
      var annotation := ChooseAnnotation(department, DepartmentInsights, bars);
      assert bars != [] ==> bars[0].count > 0;
      DepartmentView(department, bars, annotation, true)
  }

  /** The records the period scene is drawn from. */
  function PeriodOf(data: seq<Record>, department: string, period: int): seq<Record>
  {
    PeriodRecords(DepartmentRecords(data, department), period)
  }

  /** The stacking keys of a period: at most ten top mediums of its records,
      in rank order, followed by "Other". */
  predicate PeriodKeys(recs: seq<Record>, keys: seq<string>)
  {
    && 1 <= |keys| <= TopCount + 1
    && keys[|keys| - 1] == OtherKey
    && keys[..|keys| - 1] == TopMediums(MediumCounts(recs))
  }

  /** The rows of a period: one per year that has a record, ascending, all
      inside the century. */
  predicate PeriodRows(recs: seq<Record>, period: int, rows: seq<Row>)
  {
    && StrictlyIncreasing(rows, RowYear)
    && (forall y :: y in Years(recs) ==> y in Map(rows, RowYear))
    && (forall y :: y in Map(rows, RowYear) ==> y in Years(recs))
    && forall j :: 0 <= j < |rows| ==> period <= rows[j].year < period + 100
  }

  /** Every row holds one value per key, in key order: the number of the
      row's year's records whose medium folds to that key. */
  predicate RowValues(recs: seq<Record>, keys: seq<string>, rows: seq<Row>)
  {
    && keys != []
    && forall j :: 0 <= j < |rows| ==>
      && |rows[j].values| == |keys|
      && forall k :: 0 <= k < |keys| ==>
        rows[j].values[k] == FoldedCount(recs, keys[..|keys| - 1], rows[j].year, keys[k])
  }

  /** One layer per key, in key order, each with a point per row; at every
      row the layer of each key runs along the row's year and is exactly as
      tall as the number of that year's records whose medium folds to the
      key. */
  predicate LayersMatchCounts(recs: seq<Record>, keys: seq<string>, rows: seq<Row>, layers: seq<Layer>)
  {
    && keys != []
    && |layers| == |keys|
    && (forall i :: 0 <= i < |layers| ==> layers[i].key == keys[i] && |layers[i].points| == |rows|)
    && forall i, j :: 0 <= i < |layers| && 0 <= j < |rows| ==>
      && layers[i].points[j].year == rows[j].year
      && layers[i].points[j].hi == layers[i].points[j].lo + FoldedCount(recs, keys[..|keys| - 1], rows[j].year, keys[i])
  }

  /** When no top medium is itself called "Other", the top of the stack at
      each row is the number of records from the row's year. */
  predicate StackTopsAreTotals(recs: seq<Record>, keys: seq<string>, rows: seq<Row>, layers: seq<Layer>)
  {
    0 < |keys| <= |layers| && OtherKey !in keys[..|keys| - 1] ==>
      forall j :: 0 <= j < |rows| && j < |layers[|keys| - 1].points| ==>
        layers[|keys| - 1].points[j].hi == Count(Years(recs), rows[j].year)
  }

  /** The period scene of a department's century. */
  function PeriodScene(data: seq<Record>, department: string, period: int): (v: View)
    ensures v.PeriodView? && v.department == department && v.period == period
    ensures PeriodKeys(PeriodOf(data, department, period), v.keys)
    ensures PeriodRows(PeriodOf(data, department, period), period, v.rows)
    ensures RowValues(PeriodOf(data, department, period), v.keys, v.rows)
    ensures LayersMatchCounts(PeriodOf(data, department, period), v.keys, v.rows, v.layers)
    ensures Stacked(v.layers)
    ensures StackTopsAreTotals(PeriodOf(data, department, period), v.keys, v.rows, v.layers)
  {
    StackedView(department, period, PeriodOf(data, department, period))
  }

  /** The stacked view of the records of one period. */
  function StackedView(department: string, period: int, recs: seq<Record>): (v: View)
    requires forall i :: 0 <= i < |recs| ==> period <= recs[i].beginDate < period + 100
    ensures v.PeriodView? && v.department == department && v.period == period
    ensures PeriodKeys(recs, v.keys)
    ensures PeriodRows(recs, period, v.rows)
    ensures RowValues(recs, v.keys, v.rows)
    ensures LayersMatchCounts(recs, v.keys, v.rows, v.layers)
    ensures Stacked(v.layers)
    ensures StackTopsAreTotals(recs, v.keys, v.rows, v.layers)
  {
    var top := TopMediums(MediumCounts(recs));
    var keys := StackKeys(top);
    var rows := YearRows(recs, top);
    var layers := Stack(rows, keys);
    assert keys[..|keys| - 1] == top;
    PeriodRowsOf(recs, top, period);
    PeriodHeights(recs, top);
    PeriodRowValues(recs, top);
    StackIsStacked(rows, keys);
    PeriodTops(recs, top);
    PeriodView(department, period, keys, rows, layers)
  }

  lemma {:induction false} PeriodHeights(recs: seq<Record>, top: seq<string>)
    ensures LayersMatchCounts(recs, StackKeys(top), YearRows(recs, top), Stack(YearRows(recs, top), StackKeys(top)))
  {
    var rows := YearRows(recs, top);
    var keys := StackKeys(top);
    assert keys[..|keys| - 1] == top;
    StackHeights(rows, keys);
  }

  lemma {:induction false} PeriodRowValues(recs: seq<Record>, top: seq<string>)
    ensures RowValues(recs, StackKeys(top), YearRows(recs, top))
  {
    var keys := StackKeys(top);
    assert keys[..|keys| - 1] == top;
  }

  lemma {:induction false} PeriodTops(recs: seq<Record>, top: seq<string>)
    requires Distinct(top)
    ensures StackTopsAreTotals(recs, StackKeys(top), YearRows(recs, top), Stack(YearRows(recs, top), StackKeys(top)))
  {
    var keys := StackKeys(top);
    var rows := YearRows(recs, top);
    var layers := Stack(rows, keys);
    assert keys[..|keys| - 1] == top;
    if OtherKey !in top {
      RowTotals(recs, top);
      StackTop(rows, keys);
      assert forall j :: 0 <= j < |rows| ==> layers[|keys| - 1].points[j].hi == Count(Years(recs), rows[j].year);
    }
  }

  lemma {:induction false} PeriodRowsOf(recs: seq<Record>, top: seq<string>, period: int)
    requires forall i :: 0 <= i < |recs| ==> period <= recs[i].beginDate < period + 100
    ensures PeriodRows(recs, period, YearRows(recs, top))
  {
    var rows := YearRows(recs, top);
    forall j | 0 <= j < |rows|
      ensures period <= rows[j].year < period + 100
    {
      assert Map(rows, RowYear)[j] == rows[j].year;
      assert rows[j].year in Years(recs);
    }
  }

  /** What each scene draws. */
  function Render(data: seq<Record>, s: Scene): (v: View)
    ensures s.Overview? <==> v.OverviewView?
    ensures s.DepartmentDetail? <==> v.DepartmentView?
    ensures s.PeriodDetail? <==> v.PeriodView?
    ensures s.DepartmentDetail? ==> v.department == s.department
    ensures s.PeriodDetail? ==> v.department == s.department && v.period == s.period
    ensures v.OverviewView? ==> v.tiles == Tiles(data) && Total(v.tiles) == |data|
  {
    match s
    case Overview => OverviewView(Tiles(data))
    case DepartmentDetail(d) => DepartmentScene(data, d)
    case PeriodDetail(d, y) => PeriodScene(data, d, y)
  }

  /** The back button of a department scene works exactly when the scene
      says it was bound. */
  lemma {:induction false} BackMatchesView(m: Menu, data: seq<Record>, department: string)
    ensures Step(m, DepartmentDetail(department), Back).Some? <==> Render(data, DepartmentDetail(department)).backWorks
  {
  }

  /** Every bar's key is a century key. */
  lemma {:induction false} BarsAreCenturies(data: seq<Record>, department: string)
    ensures forall i :: 0 <= i < |CenturyBars(data, department)| ==> CenturyBars(data, department)[i].key % 100 == 0
  {
    var recs := DepartmentRecords(data, department);
    var bars := CenturyBars(data, department);
    forall i | 0 <= i < |bars|
      ensures bars[i].key % 100 == 0
    {
      CountPositive(CenturyKeys(recs), bars[i].key);
      var n :| 0 <= n < |recs| && CenturyKeys(recs)[n] == bars[i].key;
    }
  }

  /** For a century key, the period holds exactly the records of that
      century, as many as the century bucket counts. */
  lemma {:induction false} PeriodOfCentury(recs: seq<Record>, period: int)
    requires period % 100 == 0
    ensures forall x :: Count(PeriodRecords(recs, period), x) == if CenturyOf(x) == period then Count(recs, x) else 0
    ensures |PeriodRecords(recs, period)| == Count(CenturyKeys(recs), period)
  {
    PeriodSize(recs, period);
    forall x
      ensures Count(PeriodRecords(recs, period), x) == if CenturyOf(x) == period then Count(recs, x) else 0
    {
      InPeriodIffCentury(period, x.beginDate);
    }
  }

  /** The century opened from any bar holds as many records as the bar
      shows. */
  lemma {:induction false} PeriodMatchesBar(data: seq<Record>, department: string)
    ensures forall i :: 0 <= i < |CenturyBars(data, department)| ==>
      |PeriodRecords(DepartmentRecords(data, department), CenturyBars(data, department)[i].key)| ==
      CenturyBars(data, department)[i].count
  {
    var recs := DepartmentRecords(data, department);
    var bars := CenturyBars(data, department);
    BarsAreCenturies(data, department);
    forall i | 0 <= i < |bars|
      ensures |PeriodRecords(recs, bars[i].key)| == bars[i].count
    {
      PeriodOfCentury(recs, bars[i].key);
    }
  }
}
