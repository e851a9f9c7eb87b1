/** Which bar of the department scene gets the callout: the curated insight
    whose century has the most records, or else the largest bar. */
module Annotations {
  import opened Seqs
  import opened Grouping

  /** A curated callout for one century of a department. The long explanatory
      label of each insight is prose for the reader and is not modelled. */
  datatype Insight = Insight(year: int, title: string)

  datatype Annotation =
    | Curated(insight: Insight, bar: Bucket<int>)
      /** The generic "Highlight" callout on the largest bar. */
    | Highlight(bar: Bucket<int>)

  /** The curated insights, keyed by department name. */
  const DepartmentInsights: map<string, seq<Insight>> := map[
    "European Paintings" := [Insight(1800, "Impressionism & Post-Impressionism")],
    "Drawings and Prints" := [Insight(1800, "The Age of Proliferation")],
    "The American Wing" := [Insight(1800, "A Nation's Identity")],
    "Egyptian Art" := [Insight(-1400, "New Kingdom Splendor"), Insight(100, "Roman Egypt")],
    "Costume Institute" := [Insight(1900, "The Modern Wardrobe")],
    "Photographs" := [Insight(1900, "The Photographic Century")],
    "Greek and Roman Art" := [Insight(-500, "The Athenian Golden Age"), Insight(100, "The Roman Empire at its Height")],
    "Asian Art" := [Insight(1700, "Edo Japan & Qing China")],
    "Arms and Armor" := [Insight(1500, "The Renaissance Knight")],
    "European Sculpture and Decorative Arts" := [Insight(1700, "Rococo & Neoclassical Splendor")],
    "Modern and Contemporary Art" := [Insight(1900, "Post-War & Abstract Expressionism")],
    "Islamic Art" := [Insight(800, "The Abbasid Caliphate")],
    "Ancient Near Eastern Art" := [Insight(200, "The Sasanian Empire")],
    "Arts of Africa, Oceania, and the Americas" := [Insight(1800, "Ritual and Power")],
    "Medieval Art" := [Insight(300, "The Rise of Christian Art"), Insight(1400, "Late Gothic & Early Renaissance")]
  ]

  /** The names every object literal inherits from `Object.prototype`. */
  const InheritedMembers: set<string> := {
    "constructor", "__proto__", "hasOwnProperty", "isPrototypeOf", "propertyIsEnumerable",
    "toLocaleString", "toString", "valueOf",
    "__defineGetter__", "__defineSetter__", "__lookupGetter__", "__lookupSetter__"
  }

  /** What indexing the insights object by a department name finds: the
      department's own list, a member inherited from `Object.prototype`, or
      nothing. */
  datatype InsightLookup = OwnInsights(insights: seq<Insight>) | InheritedMember | NoInsights

  /** The property lookup on the insights object. An own key wins; otherwise
      an inherited member name still finds something truthy. */
  function LookupInsights(department: string): (r: InsightLookup)
    ensures r.OwnInsights? <==> department in DepartmentInsights
    ensures r.OwnInsights? ==> r.insights == DepartmentInsights[department]
    ensures r.InheritedMember? <==> department !in DepartmentInsights && department in InheritedMembers
    ensures r.NoInsights? <==> department !in DepartmentInsights && department !in InheritedMembers
  {
    if department in DepartmentInsights then OwnInsights(DepartmentInsights[department])
    else if department in InheritedMembers then InheritedMember
    else NoInsights
  }

  /** The lookup finds an inherited member rather than a list of insights: it
      is truthy, has no `forEach`, and the callout code throws there. */
  predicate InsightLookupThrows(department: string)
  {
    LookupInsights(department).InheritedMember?
  }

  /** The search for the bar of a given century, as the position of the
      first bar with that key. */
  function Find(bars: seq<Bucket<int>>, year: int): (r: Option<nat>)
    ensures r.Some? ==> r.value < |bars| && bars[r.value].key == year
    ensures r.Some? ==> forall j :: 0 <= j < r.value ==> bars[j].key != year
    ensures r.None? <==> forall j :: 0 <= j < |bars| ==> bars[j].key != year
  {
    if bars == [] then None
    else if bars[0].key == year then Some(0)
    else match Find(bars[1..], year)
      case None => None
      case Some(j) => Some(j + 1)
  }

  /** Insight `i` names a century that has a bar. */
  predicate Matched(insights: seq<Insight>, bars: seq<Bucket<int>>, i: nat)
    requires i < |insights|
  {
    Find(bars, insights[i].year).Some?
  }

  /** The record count of the bar insight `i` points at. */
  function Hits(insights: seq<Insight>, bars: seq<Bucket<int>>, i: nat): nat
    requires i < |insights|
    requires Matched(insights, bars, i)
  {
    bars[Find(bars, insights[i].year).value].count
  }

  /** Insight `k` is matched, no matched insight has a larger count, and every
      earlier matched insight has a strictly smaller one. */
  predicate IsBestInsight(insights: seq<Insight>, bars: seq<Bucket<int>>, k: nat)
  {
    && k < |insights|
    && Matched(insights, bars, k)
    && (forall j :: 0 <= j < |insights| && Matched(insights, bars, j) ==>
          Hits(insights, bars, j) <= Hits(insights, bars, k))
    && (forall j :: 0 <= j < k && Matched(insights, bars, j) ==>
          Hits(insights, bars, j) < Hits(insights, bars, k))
  }

  /** What the `forEach` over the insights knows after looking at the first
      `i` of them, with `best` and `maxCount` its two local variables. */
  predicate ScanState(insights: seq<Insight>, bars: seq<Bucket<int>>, i: nat, best: Option<nat>, maxCount: int)
    requires i <= |insights|
  {
    && (best.None? ==> maxCount == -1 && forall j :: 0 <= j < i ==> !Matched(insights, bars, j))
    && (best.Some? ==>
          && best.value < i
          && Matched(insights, bars, best.value)
          && maxCount == Hits(insights, bars, best.value)
          && (forall j :: 0 <= j < i && Matched(insights, bars, j) ==> Hits(insights, bars, j) <= maxCount)
          && (forall j :: 0 <= j < best.value && Matched(insights, bars, j) ==> Hits(insights, bars, j) < maxCount))
  }

  /** The rest of the `forEach`: an insight replaces the current best only
      when its bar is strictly larger. */
  function Scan(insights: seq<Insight>, bars: seq<Bucket<int>>, i: nat, best: Option<nat>, maxCount: int): (r: Option<nat>)
    requires i <= |insights|
    requires ScanState(insights, bars, i, best, maxCount)
    ensures r.Some? ==> IsBestInsight(insights, bars, r.value)
    ensures r.None? <==> forall j :: 0 <= j < |insights| ==> !Matched(insights, bars, j)
    decreases |insights| - i
  {
    if i == |insights| then best
    else if Matched(insights, bars, i) && Hits(insights, bars, i) > maxCount then
      Scan(insights, bars, i + 1, Some(i), Hits(insights, bars, i))
    else
      Scan(insights, bars, i + 1, best, maxCount)
  }

  /** The curated insight to show, if any insight's century has a bar. */
  function BestInsight(insights: seq<Insight>, bars: seq<Bucket<int>>): (r: Option<nat>)
    ensures r.Some? ==> IsBestInsight(insights, bars, r.value)
    ensures r.None? <==> forall j :: 0 <= j < |insights| ==> !Matched(insights, bars, j)
  {
    Scan(insights, bars, 0, None, -1)
  }

  /** The left fold over the bars that keeps the bar seen so far only when it
      is strictly larger than the next one, as a position: a bar of maximal
      count, the last one among equals. */
  function LastMax(bars: seq<Bucket<int>>): (r: Option<nat>)
    ensures r.None? <==> bars == []
    ensures r.Some? ==> r.value < |bars|
    ensures r.Some? ==> forall j :: 0 <= j < |bars| ==> bars[j].count <= bars[r.value].count
    ensures r.Some? ==> forall j :: r.value < j < |bars| ==> bars[j].count < bars[r.value].count
  {
    if bars == [] then None
    else
      var last := |bars| - 1;
      var prev := LastMax(bars[..last]);
      if prev.Some? && bars[prev.value].count > bars[last].count then prev else Some(last)
  }

  /** The annotation of the department scene for the given bars. */
  function ChooseAnnotation(department: string, table: map<string, seq<Insight>>, bars: seq<Bucket<int>>): (a: Option<Annotation>)
    ensures bars == [] ==> a.None?
    ensures a.Some? && a.value.Curated? ==>
      department in table &&
      exists k: nat :: IsBestInsight(table[department], bars, k) &&
        a.value.insight == table[department][k] &&
        a.value.bar == bars[Find(bars, table[department][k].year).value]
    ensures a.Some? && a.value.Highlight? ==>
      (department in table ==> forall j :: 0 <= j < |table[department]| ==> !Matched(table[department], bars, j))
    ensures a.Some? && a.value.Highlight? ==>
      exists k :: 0 <= k < |bars| && bars[k] == a.value.bar && 0 < bars[k].count &&
        (forall j :: 0 <= j < |bars| ==> bars[j].count <= bars[k].count) &&
        (forall j :: k < j < |bars| ==> bars[j].count < bars[k].count)
    ensures a.None? <==>
      (department in table ==> forall j :: 0 <= j < |table[department]| ==> !Matched(table[department], bars, j)) &&
      (forall j :: 0 <= j < |bars| ==> bars[j].count == 0)
  {
    var curated := if department in table then BestInsight(table[department], bars) else None;
    if curated.Some? then
      var insight := table[department][curated.value];
      Some(Curated(insight, bars[Find(bars, insight.year).value]))
    else
      match LastMax(bars)
      case None => None
      case Some(k) => if bars[k].count > 0 then Some(Highlight(bars[k])) else None
  }
}
