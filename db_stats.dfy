/**
 * `create-db-sync-stats.py`: one page of per-epoch figures merged from four
 * db-sync tables, and a text report of the database and table sizes.
 *
 * The size report works on a Python dict, which keeps its keys in insertion
 * order; it is modelled as a sequence of (key, value) pairs whose keys are
 * unique. `write_size_report` pops the total out of the caller's dict, so
 * the dict is an object here.
 */
module DbStats {
  import opened Wrappers
  import opened Text
  import opened Seqs

  // ---------------------------------------------------------------------
  // Insertion-ordered dictionaries

  type Dict = seq<(string, string)>

  predicate HasKey(d: Dict, k: string) {
    exists i :: 0 <= i < |d| && d[i].0 == k
  }

  predicate UniqueKeys(d: Dict) {
    forall i, j :: 0 <= i < j < |d| ==> d[i].0 != d[j].0
  }

  lemma HasKeyCons(d: Dict)
    requires |d| > 0
    ensures forall k :: HasKey(d, k) <==> d[0].0 == k || HasKey(d[1..], k)
  {
    forall k | HasKey(d, k) ensures d[0].0 == k || HasKey(d[1..], k) {
      var i :| 0 <= i < |d| && d[i].0 == k;
      if i > 0 { assert d[1..][i - 1] == d[i]; }
    }
    forall k | HasKey(d[1..], k) ensures HasKey(d, k) {
      var i :| 0 <= i < |d[1..]| && d[1..][i].0 == k;
      assert d[i + 1] == d[1..][i];
    }
  }

  lemma HasKeySnoc(d: Dict, entry: (string, string))
    ensures forall k :: HasKey(d + [entry], k) <==> HasKey(d, k) || entry.0 == k
  {
    var r := d + [entry];
    forall k | HasKey(r, k) ensures HasKey(d, k) || entry.0 == k {
      var i :| 0 <= i < |r| && r[i].0 == k;
      if i < |d| { assert d[i] == r[i]; }
    }
    forall k | HasKey(d, k) ensures HasKey(r, k) {
      var i :| 0 <= i < |d| && d[i].0 == k;
      assert r[i] == d[i];
    }
    assert r[|d|] == entry;
  }

  /** Dropping the first entry of a dict leaves a dict without its key. */
  lemma UniqueTail(d: Dict)
    requires |d| > 0 && UniqueKeys(d)
    ensures UniqueKeys(d[1..]) && !HasKey(d[1..], d[0].0)
  {
    forall i | 0 <= i < |d| - 1 ensures d[1..][i].0 != d[0].0 {
      assert d[1..][i] == d[i + 1];
    }
  }

  /** An entry whose key is new can go in front. */
  lemma UniqueCons(entry: (string, string), d: Dict)
    requires UniqueKeys(d) && !HasKey(d, entry.0)
    ensures UniqueKeys([entry] + d)
  {
    var whole := [entry] + d;
    forall i, j | 0 <= i < j < |whole| ensures whole[i].0 != whole[j].0 {
      assert whole[j] == d[j - 1];
      if i > 0 {
        assert whole[i] == d[i - 1];
      }
    }
  }

  /** `d.get(k)`. */
  function Lookup(d: Dict, k: string): (r: Option<string>)
    ensures r.Some? <==> HasKey(d, k)
  {
    if |d| == 0 then None
    else if d[0].0 == k then Some(d[0].1)
    else
      HasKeyCons(d);
      Lookup(d[1..], k)
  }

  /** With unique keys, an entry's key finds that entry's value. */
  lemma {:induction false} LookupAt(d: Dict, i: nat)
    requires UniqueKeys(d) && i < |d|
    ensures Lookup(d, d[i].0) == Some(d[i].1)
  {
    if i > 0 {
      UniqueTail(d);
      assert d[1..][i - 1] == d[i];
      LookupAt(d[1..], i - 1);
    }
  }

  /**
   * `d[k] = v`: an existing key keeps its place and takes the new value (a
   * new key goes to the end: `PutNew`).
   */
  function Put(d: Dict, k: string, v: string): (r: Dict)
    ensures Lookup(r, k) == Some(v)
    ensures forall k' :: k' != k ==> Lookup(r, k') == Lookup(d, k')
    ensures HasKey(d, k) ==> |r| == |d| && forall i :: 0 <= i < |d| ==> r[i].0 == d[i].0
  {
    if |d| == 0 then [(k, v)]
    else if d[0].0 == k then
      assert ([(k, v)] + d[1..])[1..] == d[1..];
      [(k, v)] + d[1..]
    else
      HasKeyCons(d);
      var r := [d[0]] + Put(d[1..], k, v);
      assert r[1..] == Put(d[1..], k, v);
      r
  }

  /** A new key goes to the end. */
  lemma {:induction false} PutNew(d: Dict, k: string, v: string)
    requires !HasKey(d, k)
    ensures Put(d, k, v) == d + [(k, v)]
  {
    if |d| > 0 {
      HasKeyCons(d);
      PutNew(d[1..], k, v);
      assert [d[0]] + (d[1..] + [(k, v)]) == d + [(k, v)];
    }
  }

  /** Putting never repeats a key. */
  lemma PutKeepsUnique(d: Dict, k: string, v: string)
    requires UniqueKeys(d)
    ensures UniqueKeys(Put(d, k, v))
  {
    if !HasKey(d, k) {
      PutNew(d, k, v);
      var r := d + [(k, v)];
      forall i, j | 0 <= i < j < |r| ensures r[i].0 != r[j].0 {
        assert r[i] == d[i];
        if j < |d| {
          assert r[j] == d[j];
        }
      }
    }
  }

  /** The value the last entry named `k` carries. */
  function LastFor(rows: Dict, k: string): (r: Option<string>)
    ensures r.Some? <==> HasKey(rows, k)
  {
    if |rows| == 0 then None
    else
      var init := rows[..|rows| - 1];
      assert rows == init + [rows[|rows| - 1]];
      HasKeySnoc(init, rows[|rows| - 1]);
      if rows[|rows| - 1].0 == k then Some(rows[|rows| - 1].1) else LastFor(init, k)
  }

  lemma {:induction false} LastForAt(d: Dict, i: nat)
    requires UniqueKeys(d) && i < |d|
    ensures LastFor(d, d[i].0) == Some(d[i].1)
  {
    if i < |d| - 1 {
      var init := d[..|d| - 1];
      assert init[i] == d[i];
      LastForAt(init, i);
    }
  }

  /** Without repeated keys, the last entry for a key is its only one. */
  lemma LastForUnique(d: Dict, k: string)
    requires UniqueKeys(d)
    ensures LastFor(d, k) == Lookup(d, k)
  {
    if HasKey(d, k) {
      var i :| 0 <= i < |d| && d[i].0 == k;
      LookupAt(d, i);
      LastForAt(d, i);
    }
  }

  /**
   * `d.update(rows)` (and `{**d, **rows}`): entry by entry, so a key given
   * twice ends with its last value; the keys already present keep their places.
   */
  function PutAll(d: Dict, rows: Dict): (r: Dict)
    ensures forall k :: Lookup(r, k) == if HasKey(rows, k) then LastFor(rows, k) else Lookup(d, k)
    ensures |r| >= |d| && forall i :: 0 <= i < |d| ==> r[i].0 == d[i].0
    ensures UniqueKeys(d) ==> UniqueKeys(r)
  {
    if |rows| == 0 then d
    else
      var init := rows[..|rows| - 1];
      var last := rows[|rows| - 1];
      assert rows == init + [last];
      HasKeySnoc(init, last);
      var before := PutAll(d, init);
      var r := Put(before, last.0, last.1);
      assert !HasKey(before, last.0) ==> r == before + [last] by {
        if !HasKey(before, last.0) { PutNew(before, last.0, last.1); }
      }
      assert UniqueKeys(d) ==> UniqueKeys(r) by {
        if UniqueKeys(d) { PutKeepsUnique(before, last.0, last.1); }
      }
      r
  }

  /** Adding entries with keys not yet present appends them in order. */
  lemma {:induction false} PutAllFresh(d: Dict, rows: Dict)
    requires UniqueKeys(d + rows)
    ensures PutAll(d, rows) == d + rows
  {
    if |rows| > 0 {
      var init := rows[..|rows| - 1];
      var last := rows[|rows| - 1];
      assert d + rows == (d + init) + [last];
      UniqueSnoc(d + init, last);
      PutAllFresh(d, init);
      PutNew(d + init, last.0, last.1);
      assert PutAll(d, rows) == Put(PutAll(d, init), last.0, last.1);
    }
  }

  /** Without its last entry a dict keeps its keys unique, and the last key is not among the others. */
  lemma UniqueSnoc(d: Dict, entry: (string, string))
    requires UniqueKeys(d + [entry])
    ensures UniqueKeys(d) && !HasKey(d, entry.0)
  {
    var whole := d + [entry];
    forall i, j | 0 <= i < j < |d| ensures d[i].0 != d[j].0 {
      assert whole[i] == d[i] && whole[j] == d[j];
    }
    forall i | 0 <= i < |d| ensures d[i].0 != entry.0 {
      assert whole[i] == d[i] && whole[|d|] == entry;
    }
  }

  /** `d.pop(k)` leaves every other entry, in order. */
  function Remove(d: Dict, k: string): (r: Dict)
    ensures !HasKey(r, k)
    ensures forall k' :: k' != k ==> Lookup(r, k') == Lookup(d, k')
    ensures !HasKey(d, k) ==> r == d
    ensures UniqueKeys(d) ==> UniqueKeys(r)
  {
    if |d| == 0 then []
    else
      HasKeyCons(d);
      var rest := Remove(d[1..], k);
      if d[0].0 == k then rest
      else
        var r := [d[0]] + rest;
        assert r[1..] == rest;
        HasKeyCons(r);
        assert UniqueKeys(d) ==> UniqueKeys(r) by {
          if UniqueKeys(d) {
            UniqueTail(d);
            assert Lookup(rest, d[0].0) == Lookup(d[1..], d[0].0);
            UniqueCons(d[0], rest);
          }
        }
        r
  }

  /** Popping the first key of a dict leaves the rest of it. */
  lemma RemoveFirst(d: Dict)
    requires |d| > 0 && UniqueKeys(d)
    ensures Remove(d, d[0].0) == d[1..]
  {
    UniqueTail(d);
  }

  /** A dict the caller holds, which `write_size_report` changes in place. */
  class SizeTable {
    var entries: Dict

    constructor (entries: Dict)
      ensures this.entries == entries
    {
      this.entries := entries;
    }

    /** `pop(key)`: the key's value, or None where Python raises KeyError (and nothing changes). */
    method Pop(key: string) returns (r: Option<string>)
      modifies this
      ensures r == Lookup(old(entries), key)
      ensures entries == Remove(old(entries), key)
    {
      r := Lookup(entries, key);
      entries := Remove(entries, key);
    }
  }

  // ---------------------------------------------------------------------
  // `fetch_db_and_table_sizes`

  /** The key the total database size is stored under. */
  const DatabaseKey: string := "__database__"

  /** One row of the table-size query. */
  datatype SizeRow = SizeRow(schema: string, relation: string, size: string)

  /** `nspname || '.' || relname`. */
  function QualifiedName(schema: string, relation: string): (r: string)
    ensures '.' in r
  {
    assert (schema + "." + relation)[|schema|] == '.';
    schema + "." + relation
  }

  /** `{table_name: size for table_name, size in rows}` before de-duplication. */
  function Pairs(rows: seq<SizeRow>): (r: Dict)
    ensures |r| == |rows|
    ensures forall i :: 0 <= i < |rows| ==> r[i] == (QualifiedName(rows[i].schema, rows[i].relation), rows[i].size)
  {
    seq(|rows|, i requires 0 <= i < |rows| => (QualifiedName(rows[i].schema, rows[i].relation), rows[i].size))
  }

  /**
   * `{"__database__": db_size, **{name: size for name, size in rows}}`. A
   * table name always holds a '.', so it never shadows the total, which
   * stays the first entry.
   */
  function SizeDict(dbSize: string, rows: seq<SizeRow>): (r: Dict)
    ensures UniqueKeys(r)
    ensures |r| > 0 && r[0] == (DatabaseKey, dbSize)
    ensures forall k :: k != DatabaseKey ==> Lookup(r, k) == LastFor(Pairs(rows), k)
  {
    var pairs := Pairs(rows);
    var tables := PutAll([], pairs);
    TablesNeverTotal(rows);
    var r := PutAll([(DatabaseKey, dbSize)], tables);
    assert Lookup(r, DatabaseKey) == Some(dbSize);
    forall k | k != DatabaseKey ensures Lookup(r, k) == LastFor(pairs, k) {
      LastForUnique(tables, k);
    }
    r
  }

  /** A table name always holds a '.', the total's key does not. */
  lemma TablesNeverTotal(rows: seq<SizeRow>)
    ensures !HasKey(Pairs(rows), DatabaseKey)
  {
    var pairs := Pairs(rows);
    assert '.' !in DatabaseKey;
    forall i | 0 <= i < |pairs| ensures pairs[i].0 != DatabaseKey {
      assert '.' in pairs[i].0;
    }
  }

  /** With distinct table names the dict is the total followed by every row, in query order. */
  lemma SizeDictOfDistinct(dbSize: string, rows: seq<SizeRow>)
    requires UniqueKeys(Pairs(rows))
    ensures SizeDict(dbSize, rows) == [(DatabaseKey, dbSize)] + Pairs(rows)
  {
    var pairs := Pairs(rows);
    assert [] + pairs == pairs;
    PutAllFresh([], pairs);
    var whole := [(DatabaseKey, dbSize)] + pairs;
    TablesNeverTotal(rows);
    UniqueCons((DatabaseKey, dbSize), pairs);
    PutAllFresh([(DatabaseKey, dbSize)], pairs);
  }

  // ---------------------------------------------------------------------
  // `write_size_report`

  /** The width table names are padded to. */
  const NameWidth: nat := 40

  /** The separator between a table name and its size. */
  const Arrow: string := " \U{2192} "

  function Width(name: string): nat {
    if |name| < NameWidth then NameWidth else |name|
  }

  /**
   * `f"  {tbl:40s} → {sz}"`: two spaces, the name padded with spaces to 40
   * characters (a longer name is kept whole), the arrow, the size.
   */
  function TableLine(name: string, size: string): (r: string)
    ensures |r| == 2 + Width(name) + |Arrow| + |size|
    ensures r[..2] == "  " && r[2..2 + |name|] == name
    ensures forall k :: 2 + |name| <= k < 2 + Width(name) ==> r[k] == ' '
    ensures r[2 + Width(name)..] == Arrow + size
  {
    var padded := PadRight(name, NameWidth);
    var r := "  " + padded + Arrow + size;
    assert r[2..2 + |padded|] == padded;
    assert r[2..2 + |name|] == padded[..|name|];
    assert r[2 + Width(name)..] == Arrow + size;
    r
  }

  /** Names that fit in the padding put their arrows in one column. */
  lemma ArrowsAligned(name1: string, size1: string, name2: string, size2: string)
    requires |name1| <= NameWidth && |name2| <= NameWidth
    ensures TableLine(name1, size1)[42..45] == TableLine(name2, size2)[42..45] == Arrow
  {
    var r1 := TableLine(name1, size1);
    var r2 := TableLine(name2, size2);
    assert r1[42..45] == r1[42..][..3];
    assert r2[42..45] == r2[42..][..3];
  }

  /** Text made of `lines`, each one followed by a newline. */
  function Lines(lines: seq<string>): string {
    if |lines| == 0 then "" else lines[0] + "\n" + Lines(lines[1..])
  }

  lemma {:induction false} LinesSnoc(lines: seq<string>, line: string)
    ensures Lines(lines + [line]) == Lines(lines) + line + "\n"
  {
    if |lines| > 0 {
      assert (lines + [line])[1..] == lines[1..] + [line];
      LinesSnoc(lines[1..], line);
    } else {
      assert [line][1..] == [];
    }
  }

  /** Newline-terminated lines are the lines joined with newlines, then one more newline. */
  lemma {:induction false} LinesJoin(lines: seq<string>)
    ensures Lines(lines) == Join("\n", lines + [""])
  {
    if |lines| > 0 {
      assert (lines + [""])[1..] == lines[1..] + [""];
      LinesJoin(lines[1..]);
    }
  }

  /** The report's lines: the header block, then one line per entry in dict order. */
  function ReportLines(dbname: string, total: string, tables: Dict): (r: seq<string>)
    ensures |r| == 4 + |tables|
    ensures r[..4] == ["Database: " + dbname, "Total size: " + total, "", "Table sizes:"]
    ensures forall i :: 0 <= i < |tables| ==> r[4 + i] == TableLine(tables[i].0, tables[i].1)
  {
    ["Database: " + dbname, "Total size: " + total, "", "Table sizes:"]
      + seq(|tables|, i requires 0 <= i < |tables| => TableLine(tables[i].0, tables[i].1))
  }

  /** The text of a complete report: its lines joined with newlines, with a final newline. */
  function ReportText(dbname: string, total: string, tables: Dict): (r: string)
    ensures r == Join("\n", ReportLines(dbname, total, tables) + [""])
  {
    LinesJoin(ReportLines(dbname, total, tables));
    Lines(ReportLines(dbname, total, tables))
  }

  /**
   * Reading the report back line by line gives exactly its lines (and the
   * empty piece after the final newline), provided no name or size holds a
   * newline of its own.
   */
  lemma ReportSplits(dbname: string, total: string, tables: Dict)
    requires '\n' !in dbname && '\n' !in total
    requires forall i :: 0 <= i < |tables| ==> '\n' !in tables[i].0 && '\n' !in tables[i].1
    ensures Split(ReportText(dbname, total, tables), '\n') == ReportLines(dbname, total, tables) + [""]
  {
    var lines := ReportLines(dbname, total, tables);
    LinesJoin(lines);
    var pieces := lines + [""];
    forall i | 0 <= i < |pieces| ensures '\n' !in pieces[i] {
      if 4 <= i < |lines| {
        TableLineOneLine(tables[i - 4].0, tables[i - 4].1);
      } else if i < 4 {
        assert pieces[i] == lines[..4][i];
      }
    }
    SplitJoin(pieces, '\n');
  }

  /** A table line stays on one line when its name and size do. */
  lemma TableLineOneLine(name: string, size: string)
    requires '\n' !in name && '\n' !in size
    ensures '\n' !in TableLine(name, size)
  {
    var padded := PadRight(name, NameWidth);
    assert TableLine(name, size) == "  " + padded + Arrow + size;
    if |name| < NameWidth {
      assert padded == name + Spaces(NameWidth - |name|);
    }
  }

  /** The report of a dict holding nothing but the total: the four header lines. */
  lemma ReportHeader(dbname: string, total: string)
    ensures ReportText(dbname, total, []) == "Database: " + dbname + "\n" + "Total size: " + total + "\n\n" + "Table sizes:\n"
  {
    var h := ReportLines(dbname, total, []);
    assert h == ["Database: " + dbname, "Total size: " + total, "", "Table sizes:"];
    assert Lines(h[3..]) == "Table sizes:\n" by {
      assert h[3..][1..] == [];
    }
    assert Lines(h[2..]) == "\n" + "Table sizes:\n" by {
      assert h[2..][1..] == h[3..];
    }
    assert Lines(h[1..]) == "Total size: " + total + "\n" + Lines(h[2..]) by {
      assert h[1..][1..] == h[2..];
    }
    assert Lines(h) == "Database: " + dbname + "\n" + Lines(h[1..]);
  }

  /** One more entry adds its table line at the end of the report. */
  lemma ReportStep(dbname: string, total: string, tables: Dict, i: nat)
    requires i < |tables|
    ensures ReportText(dbname, total, tables[..i + 1]) ==
            ReportText(dbname, total, tables[..i]) + TableLine(tables[i].0, tables[i].1) + "\n"
  {
    ReportLinesStep(dbname, total, tables, i);
    LinesSnoc(ReportLines(dbname, total, tables[..i]), TableLine(tables[i].0, tables[i].1));
  }

  lemma ReportLinesStep(dbname: string, total: string, tables: Dict, i: nat)
    requires i < |tables|
    ensures ReportLines(dbname, total, tables[..i + 1]) ==
            ReportLines(dbname, total, tables[..i]) + [TableLine(tables[i].0, tables[i].1)]
  {
    var line := TableLine(tables[i].0, tables[i].1);
    var longer := ReportLines(dbname, total, tables[..i + 1]);
    var shorter := ReportLines(dbname, total, tables[..i]);
    forall k | 0 <= k < |longer| ensures longer[k] == (shorter + [line])[k] {
      if k < 4 {
        assert longer[k] == longer[..4][k] && shorter[k] == shorter[..4][k];
      } else if k < 4 + i {
        assert tables[..i + 1][k - 4] == tables[..i][k - 4];
      }
    }
  }

  /**
   * `os.path.join(outdir, f"{dbname}_{kind}_{timestamp}{ext}")`, the name
   * both output files follow: inside `outdir` unless `dbname` starts with
   * '/', which makes the name absolute.
   */
  function OutputPath(outdir: string, dbname: string, kind: string, timestamp: string, ext: string): (r: string)
    ensures (|dbname| == 0 || dbname[0] != '/') && |outdir| > 0 && outdir[|outdir| - 1] != '/' ==>
              r == outdir + "/" + dbname + "_" + kind + "_" + timestamp + ext
    ensures (|dbname| == 0 || dbname[0] != '/') && (|outdir| == 0 || outdir[|outdir| - 1] == '/') ==>
              r == outdir + dbname + "_" + kind + "_" + timestamp + ext
    ensures |dbname| > 0 && dbname[0] == '/' ==> r == dbname + "_" + kind + "_" + timestamp + ext
  {
    var name := dbname + "_" + kind + "_" + timestamp + ext;
    assert |dbname| == 0 ==> name[0] == '_';
    assert |dbname| > 0 ==> name[0] == dbname[0];
    PathJoin(outdir, name)
  }

  /** The file name of the size report. */
  function SizeReportPath(outdir: string, dbname: string, timestamp: string): string {
    OutputPath(outdir, dbname, "db_size_report", timestamp, ".txt")
  }

  /**
   * `write_size_report`: writes the header, pops the total out of the
   * caller's dict, then writes one line per remaining entry. Without a
   * total, Python raises KeyError after the first line has been written;
   * the dict is then left as it was.
   */
  method WriteSizeReport(sizes: SizeTable, dbname: string, outdir: string, timestamp: string)
    returns (file: string, text: string, raised: bool)
    modifies sizes
    ensures file == SizeReportPath(outdir, dbname, timestamp)
    ensures raised <==> !HasKey(old(sizes.entries), DatabaseKey)
    ensures raised ==> text == "Database: " + dbname + "\n" && sizes.entries == old(sizes.entries)
    ensures !raised ==> sizes.entries == Remove(old(sizes.entries), DatabaseKey)
    ensures !raised ==> text == ReportText(dbname, Lookup(old(sizes.entries), DatabaseKey).value, sizes.entries)
  {
    file := SizeReportPath(outdir, dbname, timestamp);
    text := "Database: " + dbname + "\n";
    var total := sizes.Pop(DatabaseKey);
    if total.None? {
      return file, text, true;
    }
    raised := false;
    text := text + "Total size: " + total.value + "\n\n";
    text := text + "Table sizes:\n";
    var tables := sizes.entries;
    ReportHeader(dbname, total.value);
    assert tables[..0] == [];
    for i := 0 to |tables|
      invariant text == ReportText(dbname, total.value, tables[..i])
      invariant sizes.entries == tables
    {
      ReportStep(dbname, total.value, tables, i);
      text := text + TableLine(tables[i].0, tables[i].1) + "\n";
    }
    assert tables[..|tables|] == tables;
  }

  // ---------------------------------------------------------------------
  // `fetch_epoch_stats`: the per-epoch merge

  /** One row of the derived table: an epoch and the figures one source gives for it. */
  datatype Contribution = Contribution(epochNo: int, syncSecs: int, txCount: int, sumTxSize: int,
                                       rewardCount: int, stakeCount: int)

  /** The figures the outer query reports for one epoch. */
  datatype Figures = Figures(syncSecs: int, txCount: int, sumTxSize: int, rewardCount: int, stakeCount: int)

  /** The columns the outer query sums. */
  datatype Column = TxCount | SumTxSize | RewardCount | StakeCount

  function Get(c: Contribution, col: Column): int {
    match col
    case TxCount => c.txCount
    case SumTxSize => c.sumTxSize
    case RewardCount => c.rewardCount
    case StakeCount => c.stakeCount
  }

  /** `SUM(col)` over the rows of epoch `e`. */
  function Sum(rows: seq<Contribution>, e: int, col: Column): int {
    if |rows| == 0 then 0
    else Sum(rows[..|rows| - 1], e, col) + (if rows[|rows| - 1].epochNo == e then Get(rows[|rows| - 1], col) else 0)
  }

  /** `MAX(sync_secs)` over the rows of epoch `e`; None when the epoch has no row. */
  function MaxSync(rows: seq<Contribution>, e: int): (r: Option<int>)
    ensures r.Some? <==> exists k :: 0 <= k < |rows| && rows[k].epochNo == e
    ensures r.Some? ==> forall k :: 0 <= k < |rows| && rows[k].epochNo == e ==> rows[k].syncSecs <= r.value
    ensures r.Some? ==> exists k :: 0 <= k < |rows| && rows[k].epochNo == e && rows[k].syncSecs == r.value
  {
    if |rows| == 0 then None
    else
      var init := rows[..|rows| - 1];
      var last := rows[|rows| - 1];
      var m := MaxSync(init, e);
      assert forall k :: 0 <= k < |init| ==> rows[k] == init[k];
      if last.epochNo != e then m
      else match m
        case None => Some(last.syncSecs)
        case Some(v) => Some(if v < last.syncSecs then last.syncSecs else v)
  }

  /** The epochs that have at least one row. */
  function Epochs(rows: seq<Contribution>): set<int> {
    set k | 0 <= k < |rows| :: rows[k].epochNo
  }

  /**
   * The outer `GROUP BY epoch_no`: one entry per epoch present, holding the
   * largest sync time and the sum of every other column. Postgres leaves
   * the order of the groups open, so the result is a map.
   */
  function Aggregate(rows: seq<Contribution>): (m: map<int, Figures>)
    ensures forall e :: e in m <==> exists k :: 0 <= k < |rows| && rows[k].epochNo == e
    ensures forall e :: e in m ==>
              && m[e].txCount == Sum(rows, e, TxCount) && m[e].sumTxSize == Sum(rows, e, SumTxSize)
              && m[e].rewardCount == Sum(rows, e, RewardCount) && m[e].stakeCount == Sum(rows, e, StakeCount)
    ensures forall e :: e in m ==> forall k :: 0 <= k < |rows| && rows[k].epochNo == e ==> rows[k].syncSecs <= m[e].syncSecs
    ensures forall e :: e in m ==> exists k :: 0 <= k < |rows| && rows[k].epochNo == e && rows[k].syncSecs == m[e].syncSecs
  {
    map e | e in Epochs(rows) ::
      Figures(MaxSync(rows, e).value, Sum(rows, e, TxCount), Sum(rows, e, SumTxSize),
              Sum(rows, e, RewardCount), Sum(rows, e, StakeCount))
  }

  /** Row by row: which block epoch each transaction belongs to, and its size. */
  datatype TxRow = TxRow(epochNo: Option<int>, size: int)

  /** One row of `epoch_sync_time`. */
  datatype SyncRow = SyncRow(no: int, seconds: int)

  /** The tables the query reads (the block/tx join already done: one entry per transaction). */
  datatype EpochTables = EpochTables(rewardEpochs: seq<int>, stakeEpochs: seq<int>, txs: seq<TxRow>, syncTimes: seq<SyncRow>)

  /** `COUNT(*)` of the rows in epoch `e`. */
  function Count(epochs: seq<int>, e: int): (r: nat)
    ensures r == 0 <==> e !in epochs
  {
    if |epochs| == 0 then 0
    else
      assert epochs == epochs[..|epochs| - 1] + [epochs[|epochs| - 1]];
      Count(epochs[..|epochs| - 1], e) + (if epochs[|epochs| - 1] == e then 1 else 0)
  }

  /** The epochs of the transactions whose block has one (`WHERE epoch_no IS NOT NULL`). */
  function KnownEpochs(txs: seq<TxRow>): (r: seq<int>)
    ensures forall e :: e in r <==> exists k :: 0 <= k < |txs| && txs[k].epochNo == Some(e)
  {
    if |txs| == 0 then []
    else
      var init := txs[..|txs| - 1];
      assert forall k :: 0 <= k < |init| ==> txs[k] == init[k];
      match txs[|txs| - 1].epochNo
      case None => KnownEpochs(init)
      case Some(e) => KnownEpochs(init) + [e]
  }

  /** `SUM(tx.size)` of the transactions in epoch `e`. */
  function TxSize(txs: seq<TxRow>, e: int): (r: int)
    ensures e !in KnownEpochs(txs) ==> r == 0
  {
    if |txs| == 0 then 0
    else
      var init := txs[..|txs| - 1];
      assert forall k :: 0 <= k < |init| ==> txs[k] == init[k];
      TxSize(init, e) + (if txs[|txs| - 1].epochNo == Some(e) then txs[|txs| - 1].size else 0)
  }

  /** The three subqueries that group their table by epoch. */
  datatype Source = Rewards | Stakes | Txs

  /** The epochs a grouped subquery has a group for, each once. */
  function GroupEpochs(t: EpochTables, src: Source): (r: seq<int>)
    ensures forall i, j :: 0 <= i < j < |r| ==> r[i] != r[j]
  {
    match src
    case Rewards => Dedup(t.rewardEpochs)
    case Stakes => Dedup(t.stakeEpochs)
    case Txs => Dedup(KnownEpochs(t.txs))
  }

  /**
   * The row a grouped subquery gives epoch `e`: `reward` rows counted by
   * earned epoch, `epoch_stake` rows counted by epoch, or transactions
   * counted and their sizes summed by their block's epoch; zero in every
   * other column.
   */
  function GroupRow(t: EpochTables, src: Source, e: int): (c: Contribution)
    ensures c.epochNo == e && c.syncSecs == 0
  {
    match src
    case Rewards => Contribution(e, 0, 0, 0, Count(t.rewardEpochs, e), 0)
    case Stakes => Contribution(e, 0, 0, 0, 0, Count(t.stakeEpochs, e))
    case Txs => Contribution(e, 0, Count(KnownEpochs(t.txs), e), TxSize(t.txs, e), 0, 0)
  }

  /** One grouped row for each of the epochs `es`, in that order. */
  function Rows(t: EpochTables, src: Source, es: seq<int>): (r: seq<Contribution>)
    ensures |r| == |es| && forall i :: 0 <= i < |es| ==> r[i] == GroupRow(t, src, es[i])
  {
    seq(|es|, i requires 0 <= i < |es| => GroupRow(t, src, es[i]))
  }

  /** A grouped subquery's result. */
  function Grouped(t: EpochTables, src: Source): seq<Contribution> {
    Rows(t, src, GroupEpochs(t, src))
  }

  /** The `epoch_sync_time` subquery: one row per row of the table. */
  function SyncSource(times: seq<SyncRow>): (r: seq<Contribution>)
    ensures |r| == |times|
    ensures forall i :: 0 <= i < |times| ==> r[i] == Contribution(times[i].no, times[i].seconds, 0, 0, 0, 0)
  {
    seq(|times|, i requires 0 <= i < |times| => Contribution(times[i].no, times[i].seconds, 0, 0, 0, 0))
  }

  /** The four subqueries, one after the other. */
  function Derived(t: EpochTables): seq<Contribution> {
    Grouped(t, Rewards) + Grouped(t, Stakes) + Grouped(t, Txs) + SyncSource(t.syncTimes)
  }

  /** `fetch_epoch_stats`: UNION (which drops repeated rows), then the per-epoch merge. */
  function EpochStats(t: EpochTables): map<int, Figures> {
    Aggregate(Dedup(Derived(t)))
  }

  // Sums

  lemma {:induction false} SumAppend(a: seq<Contribution>, b: seq<Contribution>, e: int, col: Column)
    ensures Sum(a + b, e, col) == Sum(a, e, col) + Sum(b, e, col)
  {
    if |b| > 0 {
      var init := b[..|b| - 1];
      assert (a + b)[..|a + b| - 1] == a + init;
      SumAppend(a, init, e, col);
    } else {
      assert a + b == a;
    }
  }

  lemma {:induction false} SumZero(rows: seq<Contribution>, e: int, col: Column)
    requires forall k :: 0 <= k < |rows| ==> Get(rows[k], col) == 0
    ensures Sum(rows, e, col) == 0
  {
    if |rows| > 0 {
      SumZero(rows[..|rows| - 1], e, col);
    }
  }

  /** Without its own groups, a subquery adds nothing. */
  lemma {:induction false} SumRows(t: EpochTables, src: Source, es: seq<int>, e: int, col: Column)
    requires forall i, j :: 0 <= i < j < |es| ==> es[i] != es[j]
    ensures Sum(Rows(t, src, es), e, col) == if e in es then Get(GroupRow(t, src, e), col) else 0
  {
    if |es| > 0 {
      var init := es[..|es| - 1];
      assert Rows(t, src, es)[..|es| - 1] == Rows(t, src, init);
      SumRows(t, src, init, e, col);
      assert e in es <==> e in init || es[|es| - 1] == e;
    }
  }

  /** The last row adds nothing when it repeats an earlier one. */
  lemma RepeatAddsNothing(s: seq<Contribution>, col: Column, i: nat)
    requires forall i, j :: 0 <= i < j < |s| && s[i] == s[j] ==> Get(s[j], col) == 0
    requires i < |s| - 1 && s[..|s| - 1][i] == s[|s| - 1]
    ensures Get(s[|s| - 1], col) == 0
  {
    assert s[i] == s[..|s| - 1][i];
  }

  /**
   * Dropping repeated rows leaves a sum alone when every row that repeats
   * adds nothing to it.
   */
  lemma {:induction false} SumDedup(s: seq<Contribution>, e: int, col: Column)
    requires forall i, j :: 0 <= i < j < |s| && s[i] == s[j] ==> Get(s[j], col) == 0
    ensures Sum(Dedup(s), e, col) == Sum(s, e, col)
  {
    if |s| > 0 {
      var init := s[..|s| - 1];
      var last := s[|s| - 1];
      SumDedup(init, e, col);
      assert Sum(s, e, col) == Sum(init, e, col) + (if last.epochNo == e then Get(last, col) else 0);
      if last in init {
        assert Get(last, col) == 0 && Dedup(s) == Dedup(init) by {
          var i :| 0 <= i < |init| && init[i] == last;
          RepeatAddsNothing(s, col, i);
        }
      } else {
        var d := Dedup(init);
        assert Sum(Dedup(s), e, col) == Sum(d, e, col) + (if last.epochNo == e then Get(last, col) else 0) by {
          assert Dedup(s) == d + [last];
          assert (d + [last])[..|d + [last]| - 1] == d;
        }
      }
    }
  }

  /** Every row of `a` also in `b`: `b`'s largest sync time is at least `a`'s. */
  lemma MaxSyncGrows(a: seq<Contribution>, b: seq<Contribution>, e: int)
    requires forall x :: x in a ==> x in b
    requires MaxSync(a, e).Some?
    ensures MaxSync(b, e).Some? && MaxSync(a, e).value <= MaxSync(b, e).value
  {
    var ka :| 0 <= ka < |a| && a[ka].epochNo == e && a[ka].syncSecs == MaxSync(a, e).value;
    assert a[ka] in b;
    var kb :| 0 <= kb < |b| && b[kb] == a[ka];
  }

  /** The largest sync time depends only on which rows occur. */
  lemma MaxSyncSameRows(a: seq<Contribution>, b: seq<Contribution>, e: int)
    requires forall x :: x in a <==> x in b
    ensures MaxSync(a, e) == MaxSync(b, e)
  {
    if MaxSync(a, e).Some? {
      MaxSyncGrows(a, b, e);
      MaxSyncGrows(b, a, e);
    } else if MaxSync(b, e).Some? {
      MaxSyncGrows(b, a, e);
    }
  }

  /** Two derived tables with the same rows and the same sums merge into the same figures. */
  lemma AggregateSame(a: seq<Contribution>, b: seq<Contribution>)
    requires forall x :: x in a <==> x in b
    requires forall e, col :: Sum(a, e, col) == Sum(b, e, col)
    ensures Aggregate(a) == Aggregate(b)
  {
    SameRowsSameEpochs(a, b);
    forall e ensures MaxSync(a, e) == MaxSync(b, e) {
      MaxSyncSameRows(a, b, e);
    }
  }

  /** Two tables with the same rows mention the same epochs. */
  lemma SameRowsSameEpochs(a: seq<Contribution>, b: seq<Contribution>)
    requires forall x :: x in a <==> x in b
    ensures Epochs(a) == Epochs(b)
  {
    forall e | e in Epochs(a) ensures e in Epochs(b) {
      var k :| 0 <= k < |a| && a[k].epochNo == e;
      assert a[k] in b;
    }
    forall e | e in Epochs(b) ensures e in Epochs(a) {
      var k :| 0 <= k < |b| && b[k].epochNo == e;
      assert b[k] in a;
    }
  }

  // Where repeated rows can come from

  predicate Distinct(s: seq<Contribution>) {
    forall i, j :: 0 <= i < j < |s| ==> s[i] != s[j]
  }

  lemma DistinctAppend(a: seq<Contribution>, b: seq<Contribution>)
    requires Distinct(a) && Distinct(b)
    requires forall x :: x in a ==> x !in b
    ensures Distinct(a + b)
  {
    var s := a + b;
    forall i, j | 0 <= i < j < |s| ensures s[i] != s[j] {
      if i < |a| && j >= |a| {
        assert s[i] in a && s[j] == b[j - |a|];
      } else if i >= |a| {
        assert s[i] == b[i - |a|] && s[j] == b[j - |a|];
      }
    }
  }

  /** The subquery's own count is positive, the other two counts are zero. */
  predicate Marked(c: Contribution, src: Source) {
    match src
    case Rewards => c.rewardCount > 0 && c.stakeCount == 0 && c.txCount == 0
    case Stakes => c.rewardCount == 0 && c.stakeCount > 0 && c.txCount == 0
    case Txs => c.rewardCount == 0 && c.stakeCount == 0 && c.txCount > 0
  }

  /** Every group holds at least one row, so each grouped row carries its subquery's mark. */
  lemma GroupedMarked(t: EpochTables, src: Source)
    ensures forall x :: x in Grouped(t, src) ==> Marked(x, src)
  {
    var es := GroupEpochs(t, src);
    forall x | x in Grouped(t, src) ensures Marked(x, src) {
      var i :| 0 <= i < |es| && Grouped(t, src)[i] == x;
      assert es[i] in es;
    }
  }

  /** Each grouped subquery has one row per epoch, none shared with another subquery. */
  lemma GroupedDistinct(t: EpochTables, src: Source)
    ensures Distinct(Grouped(t, src))
  {
    var r := Grouped(t, src);
    var es := GroupEpochs(t, src);
    forall i, j | 0 <= i < j < |r| ensures r[i] != r[j] {
      assert r[i].epochNo == es[i] && r[j].epochNo == es[j];
    }
  }

  lemma GroupedApart(t: EpochTables, src1: Source, src2: Source)
    requires src1 != src2
    ensures forall x :: x in Grouped(t, src1) ==> x !in Grouped(t, src2)
  {
    GroupedMarked(t, src1);
    GroupedMarked(t, src2);
  }

  /** The grouped subqueries' rows together, none of them twice. */
  lemma GroupedTogetherDistinct(t: EpochTables)
    ensures Distinct(Grouped(t, Rewards) + Grouped(t, Stakes) + Grouped(t, Txs))
  {
    var rs := Grouped(t, Rewards);
    var ss := Grouped(t, Stakes);
    var ts := Grouped(t, Txs);
    GroupedDistinct(t, Rewards);
    GroupedDistinct(t, Stakes);
    GroupedDistinct(t, Txs);
    GroupedApart(t, Rewards, Stakes);
    DistinctAppend(rs, ss);
    GroupedApart(t, Rewards, Txs);
    GroupedApart(t, Stakes, Txs);
    DistinctAppend(rs + ss, ts);
  }

  /**
   * The grouped subqueries give each epoch one row with a positive count in
   * their own column and zero in the others' columns, so none of their rows
   * occurs twice; only `epoch_sync_time` rows, which add nothing to any sum,
   * can repeat.
   */
  lemma OnlySyncRowsRepeat(t: EpochTables)
    ensures forall i, j, col :: 0 <= i < j < |Derived(t)| && Derived(t)[i] == Derived(t)[j] ==> Get(Derived(t)[j], col) == 0
  {
    var grouped := Grouped(t, Rewards) + Grouped(t, Stakes) + Grouped(t, Txs);
    var ys := SyncSource(t.syncTimes);
    var s := Derived(t);
    assert s == grouped + ys;
    GroupedTogetherDistinct(t);
    forall i, j, col | 0 <= i < j < |s| && s[i] == s[j] ensures Get(s[j], col) == 0 {
      RepeatInTail(grouped, ys, i, j, col);
    }
  }

  /** In distinct rows followed by rows that add nothing, a row that repeats adds nothing. */
  lemma RepeatInTail(g: seq<Contribution>, ys: seq<Contribution>, i: int, j: int, col: Column)
    requires Distinct(g)
    requires forall k :: 0 <= k < |ys| ==> ys[k].txCount == 0 && ys[k].sumTxSize == 0 && ys[k].rewardCount == 0 && ys[k].stakeCount == 0
    requires 0 <= i < j < |g + ys| && (g + ys)[i] == (g + ys)[j]
    ensures Get((g + ys)[j], col) == 0
  {
    if j >= |g| {
      assert (g + ys)[j] == ys[j - |g|];
    }
  }

  /** UNION's removal of repeated rows changes no figure of any epoch. */
  lemma UnionKeepsFigures(t: EpochTables)
    ensures EpochStats(t) == Aggregate(Derived(t))
  {
    var s := Derived(t);
    OnlySyncRowsRepeat(t);
    forall e, col ensures Sum(Dedup(s), e, col) == Sum(s, e, col) {
      SumDedup(s, e, col);
    }
    AggregateSame(Dedup(s), s);
  }

  /** What one grouped subquery adds to a column for epoch `e`. */
  function GroupFigure(t: EpochTables, src: Source, e: int, col: Column): int {
    if e in GroupEpochs(t, src) then Get(GroupRow(t, src, e), col) else 0
  }

  /** Each summed column of the derived table is what the three grouped subqueries add. */
  lemma DerivedSum(t: EpochTables, e: int, col: Column)
    ensures Sum(Derived(t), e, col) == GroupFigure(t, Rewards, e, col) + GroupFigure(t, Stakes, e, col) + GroupFigure(t, Txs, e, col)
  {
    var rs := Grouped(t, Rewards);
    var ss := Grouped(t, Stakes);
    var ts := Grouped(t, Txs);
    var ys := SyncSource(t.syncTimes);
    SumAppend(rs + ss + ts, ys, e, col);
    SumAppend(rs + ss, ts, e, col);
    SumAppend(rs, ss, e, col);
    SumRows(t, Rewards, GroupEpochs(t, Rewards), e, col);
    SumRows(t, Stakes, GroupEpochs(t, Stakes), e, col);
    SumRows(t, Txs, GroupEpochs(t, Txs), e, col);
    SumZero(ys, e, col);
  }

  /** Epoch `e`'s own figure in a column: its rows counted in that column's table, or its transactions' sizes summed. */
  function Own(t: EpochTables, e: int, col: Column): int {
    match col
    case RewardCount => Count(t.rewardEpochs, e)
    case StakeCount => Count(t.stakeEpochs, e)
    case TxCount => Count(KnownEpochs(t.txs), e)
    case SumTxSize => TxSize(t.txs, e)
  }

  /** Only the subquery a column belongs to adds into it. */
  lemma GroupFiguresOwn(t: EpochTables, e: int, col: Column)
    ensures GroupFigure(t, Rewards, e, col) + GroupFigure(t, Stakes, e, col) + GroupFigure(t, Txs, e, col) == Own(t, e, col)
  {
    match col
    case RewardCount =>
      assert e in GroupEpochs(t, Rewards) <==> e in t.rewardEpochs;
    case StakeCount =>
      assert e in GroupEpochs(t, Stakes) <==> e in t.stakeEpochs;
    case TxCount =>
      assert e in GroupEpochs(t, Txs) <==> e in KnownEpochs(t.txs);
    case SumTxSize =>
      assert e in GroupEpochs(t, Txs) <==> e in KnownEpochs(t.txs);
  }

  lemma EpochsAppend(a: seq<Contribution>, b: seq<Contribution>)
    ensures Epochs(a + b) == Epochs(a) + Epochs(b)
  {
    var s := a + b;
    forall e | e in Epochs(s) ensures e in Epochs(a) + Epochs(b) {
      var k :| 0 <= k < |s| && s[k].epochNo == e;
      if k < |a| { assert a[k] == s[k]; } else { assert b[k - |a|] == s[k]; }
    }
    forall e | e in Epochs(a) ensures e in Epochs(s) {
      var k :| 0 <= k < |a| && a[k].epochNo == e;
      assert s[k] == a[k];
    }
    forall e | e in Epochs(b) ensures e in Epochs(s) {
      var k :| 0 <= k < |b| && b[k].epochNo == e;
      assert s[|a| + k] == b[k];
    }
  }

  lemma EpochsOfGrouped(t: EpochTables, src: Source)
    ensures forall e :: e in Epochs(Grouped(t, src)) <==> e in GroupEpochs(t, src)
  {
    var es := GroupEpochs(t, src);
    var r := Grouped(t, src);
    forall e | e in es ensures e in Epochs(r) {
      var i :| 0 <= i < |es| && es[i] == e;
      assert r[i].epochNo == e;
    }
  }

  /** An epoch is listed when any of the four tables mentions it. */
  lemma DerivedEpochs(t: EpochTables, e: int)
    ensures e in Epochs(Derived(t)) <==>
              e in t.rewardEpochs || e in t.stakeEpochs || e in KnownEpochs(t.txs) ||
              exists k :: 0 <= k < |t.syncTimes| && t.syncTimes[k].no == e
  {
    var rs := Grouped(t, Rewards);
    var ss := Grouped(t, Stakes);
    var ts := Grouped(t, Txs);
    var ys := SyncSource(t.syncTimes);
    EpochsAppend(rs + ss + ts, ys);
    EpochsAppend(rs + ss, ts);
    EpochsAppend(rs, ss);
    EpochsOfGrouped(t, Rewards);
    EpochsOfGrouped(t, Stakes);
    EpochsOfGrouped(t, Txs);
    if exists k :: 0 <= k < |t.syncTimes| && t.syncTimes[k].no == e {
      var k :| 0 <= k < |t.syncTimes| && t.syncTimes[k].no == e;
      assert ys[k].epochNo == e;
    }
  }

  /** An epoch is listed when any of the four tables mentions it. */
  lemma EpochListed(t: EpochTables, e: int)
    ensures e in EpochStats(t) <==>
              e in t.rewardEpochs || e in t.stakeEpochs || e in KnownEpochs(t.txs) ||
              exists k :: 0 <= k < |t.syncTimes| && t.syncTimes[k].no == e
  {
    UnionKeepsFigures(t);
    DerivedEpochs(t, e);
  }

  /** A summed column of the outer query's result. */
  function Field(f: Figures, col: Column): int {
    match col
    case TxCount => f.txCount
    case SumTxSize => f.sumTxSize
    case RewardCount => f.rewardCount
    case StakeCount => f.stakeCount
  }

  /** Summed over the derived table, a column gives each epoch its own figure. */
  lemma DerivedOwn(t: EpochTables, e: int, col: Column)
    ensures Sum(Derived(t), e, col) == Own(t, e, col)
  {
    DerivedSum(t, e, col);
    GroupFiguresOwn(t, e, col);
  }

  /** A listed epoch's summed column is the column summed over the derived table. */
  lemma StatsSum(t: EpochTables, e: int, col: Column)
    requires e in EpochStats(t)
    ensures Field(EpochStats(t)[e], col) == Sum(Derived(t), e, col)
  {
    UnionKeepsFigures(t);
  }

  /**
   * What the merged figures mean: a listed epoch's counts and size are
   * exactly those of its own rows in each table; the sources never add into
   * each other's columns.
   */
  lemma EpochFigures(t: EpochTables, e: int)
    requires e in EpochStats(t)
    ensures forall col :: Field(EpochStats(t)[e], col) == Own(t, e, col)
  {
    forall col ensures Field(EpochStats(t)[e], col) == Own(t, e, col) {
      StatsSum(t, e, col);
      DerivedOwn(t, e, col);
    }
  }

  /** The merged sync time of an epoch is at least every sync time recorded for it. */
  lemma SyncTimesBounded(t: EpochTables, k: nat)
    requires k < |t.syncTimes|
    ensures t.syncTimes[k].no in EpochStats(t)
    ensures t.syncTimes[k].seconds <= EpochStats(t)[t.syncTimes[k].no].syncSecs
  {
    UnionKeepsFigures(t);
    var grouped := Grouped(t, Rewards) + Grouped(t, Stakes) + Grouped(t, Txs);
    var s := Derived(t);
    assert s[|grouped| + k] == SyncSource(t.syncTimes)[k];
  }

  // ---------------------------------------------------------------------
  // Output names and the entry point

  /** The file name of the epoch page. */
  function EpochStatsPath(outdir: string, dbname: string, timestamp: string): string {
    OutputPath(outdir, dbname, "epoch_stats", timestamp, ".html")
  }


  /** The folder the entry point writes the size report to, whatever `--outdir` says. */
  const ReportFolder: string := "stats"

  /**
   * The script's entry point: the epoch page under `outdir`, then the size
   * report under "stats". The freshly built dict always holds the total, so
   * the report is always complete, and with distinct table names it lists
   * every table in query order.
   */
  method Generate(t: EpochTables, dbSize: string, rows: seq<SizeRow>, dbname: string, outdir: string,
                  plotStamp: string, reportStamp: string)
    returns (stats: map<int, Figures>, plotFile: string, reportFile: string, report: string)
    ensures stats == Aggregate(Derived(t))
    ensures plotFile == EpochStatsPath(outdir, dbname, plotStamp)
    ensures reportFile == SizeReportPath(ReportFolder, dbname, reportStamp)
    ensures UniqueKeys(Pairs(rows)) ==> report == ReportText(dbname, dbSize, Pairs(rows))
  {
    stats := EpochStats(t);
    UnionKeepsFigures(t);
    plotFile := EpochStatsPath(outdir, dbname, plotStamp);
    var sizes := new SizeTable(SizeDict(dbSize, rows));
    var raised;
    reportFile, report, raised := WriteSizeReport(sizes, dbname, ReportFolder, reportStamp);
    assert Lookup(SizeDict(dbSize, rows), DatabaseKey) == Some(dbSize);
    if UniqueKeys(Pairs(rows)) {
      SizeDictOfDistinct(dbSize, rows);
      RemoveFirst(SizeDict(dbSize, rows));
    }
  }
}
