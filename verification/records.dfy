/** The artwork records the visualization works on, the load-time department
    exclusion, and the per-department counts behind the overview treemap. */
module Records {
  import opened Seqs
  import opened Grouping

  /** One row of the collection. The begin date is already numeric: BCE years
      are negative. */
  datatype Record = Record(department: string, beginDate: int, medium: string)

  /** The departments left out of the whole visualization at load time. */
  const ExcludedDepartments: seq<string> := ["The Cloisters", "Robert Lehman Collection"]

  function DepartmentOf(rec: Record): string { rec.department }

  function BeginDateOf(rec: Record): int { rec.beginDate }

  function MediumOf(rec: Record): string { rec.medium }

  /** Drops every record whose department is on the exclusion list, keeping
      the others, in order and with their multiplicities. */
  function ExcludeDepartments(raw: seq<Record>, excluded: seq<string>): (data: seq<Record>)
    ensures forall i :: 0 <= i < |data| ==> data[i].department !in excluded
    ensures forall x :: Count(data, x) == if x.department in excluded then 0 else Count(raw, x)
    ensures Subsequence(data, raw)
  {
    Filter(raw, (rec: Record) => rec.department !in excluded)
  }

  /** The dataset every scene is drawn from: the loaded rows without the two
      excluded departments. */
  function LoadDataset(raw: seq<Record>): (data: seq<Record>)
    ensures forall i :: 0 <= i < |data| ==>
      data[i].department != "The Cloisters" && data[i].department != "Robert Lehman Collection"
    ensures forall x: Record :: x.department != "The Cloisters" && x.department != "Robert Lehman Collection" ==>
      Count(data, x) == Count(raw, x)
    ensures Subsequence(data, raw)
  {
    ExcludeDepartments(raw, ExcludedDepartments)
  }

  function Departments(data: seq<Record>): seq<string>
  {
    Map(data, DepartmentOf)
  }

  /** The overview tiles: one bucket per department, with the number of its
      records. */
  function DepartmentCounts(data: seq<Record>): (tiles: seq<Bucket<string>>)
    ensures DistinctKeys(tiles)
    ensures forall i :: 0 <= i < |tiles| ==>
      tiles[i].count >= 1 && tiles[i].count == Count(Departments(data), tiles[i].key)
    ensures forall d :: d in KeysOf(tiles) <==> exists i :: 0 <= i < |data| && data[i].department == d
    ensures Total(tiles) == |data|
  {
    var r := Rollup(Departments(data));
    assert forall d :: d in Departments(data) <==> exists i :: 0 <= i < |data| && data[i].department == d by {
      forall d
        ensures d in Departments(data) <==> exists i :: 0 <= i < |data| && data[i].department == d
      {
        if d in Departments(data) {
          var i :| 0 <= i < |data| && Departments(data)[i] == d;
          assert data[i].department == d;
        }
      }
    }
    r
  }

  /** The records of one department, as the department scene filters them;
      an unknown department simply yields no records. */
  function DepartmentRecords(data: seq<Record>, department: string): (recs: seq<Record>)
    ensures forall i :: 0 <= i < |recs| ==> recs[i].department == department
    ensures forall x :: Count(recs, x) == if x.department == department then Count(data, x) else 0
    ensures Subsequence(recs, data)
  {
    Filter(data, (rec: Record) => rec.department == department)
  }
}
