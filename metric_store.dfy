/**
 * The SQLite file the slot-keyed monitor writes and the plot scripts read:
 * tables `memory_metrics`, `cpu_metrics` and `db_sync_version`, rows only
 * ever appended. The read queries are functions of the table contents.
 */
module MetricStore {
  import opened Wrappers
  import opened Text
  import opened Seqs

  /** A `memory_metrics` row (sizes in MiB). */
  datatype MemoryRow = MemoryRow(
    slotNo: int, rss: real, vms: real, uss: real, pss: real, swap: real, shared: real,
    version: string)

  /** A `cpu_metrics` row; `interrupts` is written as NULL. */
  datatype CpuRow = CpuRow(
    slotNo: int, cpuPercent: real, userTime: real, systemTime: real,
    childrenUser: real, childrenSystem: real, iowait: real,
    ctxSwitches: int, interrupts: Option<int>, version: string)

  /** A `db_sync_version` row. */
  datatype VersionRow = VersionRow(timestamp: string, version: string)

  datatype Table = MemoryMetrics | CpuMetrics | DbSyncVersion

  const AllTables: set<Table> := {MemoryMetrics, CpuMetrics, DbSyncVersion}

  /** The store file: the tables it has and their rows, in insertion order. */
  class Store {
    var tables: set<Table>
    var memory: seq<MemoryRow>
    var cpu: seq<CpuRow>
    var versions: seq<VersionRow>

    /** A table that does not exist holds no rows. */
    ghost predicate Valid()
      reads this
    {
      && (MemoryMetrics !in tables ==> memory == [])
      && (CpuMetrics !in tables ==> cpu == [])
      && (DbSyncVersion !in tables ==> versions == [])
    }

    /** The file as found on disk: new (no tables) or left by an earlier run. */
    constructor Open(tables0: set<Table>, memory0: seq<MemoryRow>, cpu0: seq<CpuRow>, versions0: seq<VersionRow>)
      requires MemoryMetrics !in tables0 ==> memory0 == []
      requires CpuMetrics !in tables0 ==> cpu0 == []
      requires DbSyncVersion !in tables0 ==> versions0 == []
      ensures Valid()
      ensures tables == tables0 && memory == memory0 && cpu == cpu0 && versions == versions0
    {
      tables, memory, cpu, versions := tables0, memory0, cpu0, versions0;
    }

    /** `init_db`: CREATE TABLE IF NOT EXISTS for each table; existing rows are kept. */
    method InitDb()
      requires Valid()
      modifies this
      ensures Valid()
      ensures tables == AllTables
      ensures memory == old(memory) && cpu == old(cpu) && versions == old(versions)
    {
      forall t | t in tables ensures t in AllTables {
        match t
        case MemoryMetrics =>
        case CpuMetrics =>
        case DbSyncVersion =>
      }
      tables := tables + AllTables;
    }

    method InsertMemory(row: MemoryRow)
      requires Valid() && MemoryMetrics in tables
      modifies this
      ensures Valid() && tables == old(tables)
      ensures memory == old(memory) + [row] && cpu == old(cpu) && versions == old(versions)
    {
      memory := memory + [row];
    }

    method InsertCpu(row: CpuRow)
      requires Valid() && CpuMetrics in tables
      modifies this
      ensures Valid() && tables == old(tables)
      ensures cpu == old(cpu) + [row] && memory == old(memory) && versions == old(versions)
    {
      cpu := cpu + [row];
    }

    method InsertVersion(row: VersionRow)
      requires Valid() && DbSyncVersion in tables
      modifies this
      ensures Valid() && tables == old(tables)
      ensures versions == old(versions) + [row] && memory == old(memory) && cpu == old(cpu)
    {
      versions := versions + [row];
    }
  }

  // ---------------------------------------------------------------------
  // SELECT DISTINCT version FROM db_sync_version ORDER BY timestamp DESC

  /** The version column, newest row first. */
  function NewestFirst(rows: seq<VersionRow>): (r: seq<string>)
    ensures |r| == |rows|
    ensures forall v :: v in r <==> exists k :: 0 <= k < |rows| && rows[k].version == v
  {
    if |rows| == 0 then []
    else [rows[|rows| - 1].version] + NewestFirst(rows[..|rows| - 1])
  }

  /**
   * The distinct recorded versions (`load_versions`). SQL fixes neither the
   * order nor which timestamp a version is ordered by, so the contract
   * promises each recorded version exactly once; this definition lists
   * them by their latest record.
   */
  function DistinctVersions(rows: seq<VersionRow>): (r: seq<string>)
    ensures forall v :: v in r <==> exists k :: 0 <= k < |rows| && rows[k].version == v
    ensures forall i, j :: 0 <= i < j < |r| ==> r[i] != r[j]
    ensures |r| == 0 <==> |rows| == 0
  {
    Dedup(NewestFirst(rows))
  }

  // ---------------------------------------------------------------------
  // SELECT slot_no, <value>, version FROM ... WHERE version IN (...) ORDER BY slot_no

  /** One row of a load query: `(slot_no, rss, version)` or `(slot_no, cpu_percent, version)`. */
  datatype Point = Point(slotNo: int, value: real, version: string)

  function MemoryPoints(rows: seq<MemoryRow>): seq<Point> {
    seq(|rows|, k requires 0 <= k < |rows| => Point(rows[k].slotNo, rows[k].rss, rows[k].version))
  }

  function CpuPoints(rows: seq<CpuRow>): seq<Point> {
    seq(|rows|, k requires 0 <= k < |rows| => Point(rows[k].slotNo, rows[k].cpuPercent, rows[k].version))
  }

  /** `",".join("?" for _ in versions)`: one `?` per requested version. */
  function Placeholders(n: nat): (r: string)
    ensures |r| == if n == 0 then 0 else 2 * n - 1
    ensures forall i :: 0 <= i < |r| ==> r[i] == if i % 2 == 0 then '?' else ','
  {
    if n <= 1 then seq(n, _ => '?') else "?," + Placeholders(n - 1)
  }

  /** `WHERE version IN (wanted)`, keeping table order: each row kept exactly when its version is wanted. */
  function WithVersionIn(points: seq<Point>, wanted: seq<string>): (r: seq<Point>)
    ensures forall p :: multiset(r)[p] == if p.version in wanted then multiset(points)[p] else 0
  {
    if |points| == 0 then []
    else
      var rest := WithVersionIn(points[1..], wanted);
      assert points == [points[0]] + points[1..];
      if points[0].version in wanted then [points[0]] + rest else rest
  }

  /** One row is kept exactly when its version is wanted. */
  lemma WithVersionInOne(p: Point, wanted: seq<string>)
    ensures WithVersionIn([p], wanted) == if p.version in wanted then [p] else []
  {
    assert [p][1..] == [];
  }

  /** The filter keeps table order: filtering two stretches of rows one after the other is filtering them together. */
  lemma {:induction false} WithVersionInAppend(a: seq<Point>, b: seq<Point>, wanted: seq<string>)
    ensures WithVersionIn(a + b, wanted) == WithVersionIn(a, wanted) + WithVersionIn(b, wanted)
  {
    if |a| == 0 {
      assert a + b == b;
    } else {
      assert (a + b)[0] == a[0] && (a + b)[1..] == a[1..] + b;
      WithVersionInAppend(a[1..], b, wanted);
    }
  }

  predicate SortedBySlot(s: seq<Point>) {
    forall i, j :: 0 <= i < j < |s| ==> s[i].slotNo <= s[j].slotNo
  }

  /** No element lies before `slot`. */
  predicate AllFrom(s: seq<Point>, slot: int) {
    forall i :: 0 <= i < |s| ==> slot <= s[i].slotNo
  }

  lemma FromMultiset(s: seq<Point>, t: seq<Point>, slot: int)
    requires AllFrom(s, slot) && multiset(t) <= multiset(s)
    ensures AllFrom(t, slot)
  {
    forall i | 0 <= i < |t| ensures slot <= t[i].slotNo {
      assert t[i] in multiset(t);
      assert t[i] in multiset(s);
      var k :| 0 <= k < |s| && s[k] == t[i];
    }
  }

  function InsertBySlot(p: Point, s: seq<Point>): (r: seq<Point>)
    requires SortedBySlot(s)
    ensures SortedBySlot(r) && multiset(r) == multiset(s) + multiset{p}
  {
    if |s| == 0 then [p]
    else if p.slotNo <= s[0].slotNo then
      assert SortedBySlot([p] + s) by {
        assert AllFrom(s, p.slotNo);
        ConsSorted(p, s);
      }
      [p] + s
    else
      var t := InsertBySlot(p, s[1..]);
      InsertAfterHead(p, s, t);
      [s[0]] + t
  }

  /** Inserting past the head of a sorted sequence: the head stays in front of the rest with `p` inserted. */
  lemma InsertAfterHead(p: Point, s: seq<Point>, t: seq<Point>)
    requires SortedBySlot(s) && |s| > 0 && s[0].slotNo < p.slotNo
    requires SortedBySlot(t) && multiset(t) == multiset(s[1..]) + multiset{p}
    ensures SortedBySlot([s[0]] + t) && multiset([s[0]] + t) == multiset(s) + multiset{p}
  {
    assert s == [s[0]] + s[1..];
    assert AllFrom(s[1..] + [p], s[0].slotNo);
    FromMultiset(s[1..] + [p], t, s[0].slotNo);
    ConsSorted(s[0], t);
  }

  /** A row no later than any of a sorted sequence may go in front of it. */
  lemma ConsSorted(p: Point, s: seq<Point>)
    requires SortedBySlot(s) && AllFrom(s, p.slotNo)
    ensures SortedBySlot([p] + s)
  {
    var r := [p] + s;
    forall i, j | 0 <= i < j < |r| ensures r[i].slotNo <= r[j].slotNo {
      assert r[j] == s[j - 1];
      if i > 0 {
        assert r[i] == s[i - 1];
      }
    }
  }

  /** `ORDER BY slot_no`: a reordering of its input, non-decreasing in slot. */
  function SortBySlot(s: seq<Point>): (r: seq<Point>)
    ensures SortedBySlot(r) && multiset(r) == multiset(s)
  {
    if |s| == 0 then []
    else
      assert s == s[..|s| - 1] + [s[|s| - 1]];
      InsertBySlot(s[|s| - 1], SortBySlot(s[..|s| - 1]))
  }

  /**
   * A load query: the rows whose version is requested, ordered by slot.
   * Rows that share a slot may come in any order, so the contract promises
   * a sorted rearrangement of exactly the matching rows.
   */
  function LoadSeries(points: seq<Point>, wanted: seq<string>): (r: seq<Point>)
    ensures SortedBySlot(r)
    ensures forall p :: multiset(r)[p] == if p.version in wanted then multiset(points)[p] else 0
  {
    SortBySlot(WithVersionIn(points, wanted))
  }

  // ---------------------------------------------------------------------
  // Per-version split of a loaded table: df[df.version == v] for v in versions

  /** The rows of one version, in load order. */
  function SeriesOf(loaded: seq<Point>, v: string): seq<Point> {
    WithVersionIn(loaded, [v])
  }

  /** One series per chosen version, in selection order (duplicates repeated). */
  function PerVersion(loaded: seq<Point>, chosen: seq<string>): (r: seq<seq<Point>>)
    ensures |r| == |chosen|
    ensures forall i :: 0 <= i < |chosen| ==> r[i] == SeriesOf(loaded, chosen[i])
  {
    seq(|chosen|, i requires 0 <= i < |chosen| => SeriesOf(loaded, chosen[i]))
  }

  /** Keeping some rows of a sorted table keeps it sorted. */
  lemma {:induction false} FilterKeepsSorted(s: seq<Point>, wanted: seq<string>)
    requires SortedBySlot(s)
    ensures SortedBySlot(WithVersionIn(s, wanted))
  {
    if |s| > 0 {
      var rest := WithVersionIn(s[1..], wanted);
      FilterKeepsSorted(s[1..], wanted);
      if s[0].version in wanted {
        assert AllFrom(s[1..], s[0].slotNo);
        assert multiset(rest) <= multiset(s[1..]) by {
          forall p ensures multiset(rest)[p] <= multiset(s[1..])[p] { }
        }
        FromMultiset(s[1..], rest, s[0].slotNo);
      }
    }
  }

  /** Each per-version series of a loaded table holds exactly that version's rows, ordered by slot. */
  lemma PerVersionSeries(points: seq<Point>, chosen: seq<string>)
    ensures forall i :: 0 <= i < |chosen| ==> SortedBySlot(PerVersion(LoadSeries(points, chosen), chosen)[i])
    ensures forall i, p :: 0 <= i < |chosen| ==>
              multiset(PerVersion(LoadSeries(points, chosen), chosen)[i])[p] ==
              if p.version == chosen[i] then multiset(points)[p] else 0
  {
    var loaded := LoadSeries(points, chosen);
    forall i | 0 <= i < |chosen| ensures SortedBySlot(PerVersion(loaded, chosen)[i]) {
      FilterKeepsSorted(loaded, [chosen[i]]);
    }
  }

  /** The data handed to the plot: one memory and one cpu series per chosen version. */
  datatype Comparison = Comparison(memory: seq<seq<Point>>, cpu: seq<seq<Point>>)

  /**
   * Load both tables with the same version list and split each per version,
   * in selection order. Every series holds exactly the rows of its version,
   * ordered by slot; a version without rows gets an empty series.
   */
  function Assemble(memRows: seq<MemoryRow>, cpuRows: seq<CpuRow>, chosen: seq<string>): (c: Comparison)
    ensures |c.memory| == |chosen| && |c.cpu| == |chosen|
    ensures forall i :: 0 <= i < |chosen| ==> SortedBySlot(c.memory[i]) && SortedBySlot(c.cpu[i])
    ensures forall i, p :: 0 <= i < |chosen| ==>
              multiset(c.memory[i])[p] == if p.version == chosen[i] then multiset(MemoryPoints(memRows))[p] else 0
    ensures forall i, p :: 0 <= i < |chosen| ==>
              multiset(c.cpu[i])[p] == if p.version == chosen[i] then multiset(CpuPoints(cpuRows))[p] else 0
  {
    PerVersionSeries(MemoryPoints(memRows), chosen);
    PerVersionSeries(CpuPoints(cpuRows), chosen);
    Comparison(
      PerVersion(LoadSeries(MemoryPoints(memRows), chosen), chosen),
      PerVersion(LoadSeries(CpuPoints(cpuRows), chosen), chosen))
  }
}
