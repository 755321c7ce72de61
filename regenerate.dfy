/**
 * `regenerate-plots.py`: reads the slot-keyed store after the fact, lets
 * the user pick versions by number and writes one comparison page for
 * them. Unlike the live monitor's selection, a bad selection is reported
 * and nothing is written.
 */
module Regenerate {
  import opened Wrappers
  import opened Text
  import opened PyInt
  import opened Seqs
  import opened MetricStore
  import SlotMonitor

  /** The two result frames of `load_metrics`. */
  datatype Loaded = Loaded(memory: seq<Point>, cpu: seq<Point>)

  /**
   * `load_metrics`: both tables queried with the same version list; each
   * result holds exactly the rows whose version is listed, ordered by slot.
   */
  function LoadMetrics(memRows: seq<MemoryRow>, cpuRows: seq<CpuRow>, versions: seq<string>): (l: Loaded)
    ensures SortedBySlot(l.memory) && SortedBySlot(l.cpu)
    ensures forall p :: multiset(l.memory)[p] == if p.version in versions then multiset(MemoryPoints(memRows))[p] else 0
    ensures forall p :: multiset(l.cpu)[p] == if p.version in versions then multiset(CpuPoints(cpuRows))[p] else 0
  {
    Loaded(LoadSeries(MemoryPoints(memRows), versions), LoadSeries(CpuPoints(cpuRows), versions))
  }

  // ---------------------------------------------------------------------
  // Selection in `main`

  /**
   * `int(x.strip()) - 1` for one token: the 0-based position of the number
   * the token reads as. Stripping first changes nothing, since `int`
   * strips anyway.
   */
  function Index(token: string): (r: Option<int>)
    ensures r.Some? <==> ParseInt(token).Some?
    ensures r.Some? ==> r.value == ParseInt(token).value - 1
  {
    ParseStripped(token);
    match ParseInt(Strip(token))
    case None => None
    case Some(n) => Some(n - 1)
  }

  /** A token holding a printed number with any whitespace around it reads as that number's position. */
  lemma IndexShownPadded(ws1: string, n: int, ws2: string)
    requires forall k :: 0 <= k < |ws1| ==> IsSpace(ws1[k])
    requires forall k :: 0 <= k < |ws2| ==> IsSpace(ws2[k])
    ensures Index(ws1 + Show(n) + ws2) == Some(n - 1)
  {
    var token := ws1 + Show(n) + ws2;
    ParseShowPadded(ws1, n, ws2);
    var r := Index(token);
    assert r.Some? && r.value == n - 1;
  }

  /** `[int(x.strip()) - 1 for x in tokens]`, each entry None where `int` raises. */
  function Indices(tokens: seq<string>): (r: seq<Option<int>>)
    ensures |r| == |tokens|
    ensures forall k :: 0 <= k < |tokens| ==> (r[k].Some? <==> ParseInt(tokens[k]).Some?)
    ensures forall k :: 0 <= k < |tokens| ==> r[k].Some? ==> r[k].value == ParseInt(tokens[k]).value - 1
  {
    seq(|tokens|, k requires 0 <= k < |tokens| => Index(tokens[k]))
  }

  /** `[versions[i] for i in idxs]`, each entry None where indexing raises. */
  function Picked(versions: seq<string>, idxs: seq<int>): (r: seq<Option<string>>)
    ensures |r| == |idxs|
    ensures forall k :: 0 <= k < |idxs| ==> r[k].Some? ==> r[k].value in versions
  {
    seq(|idxs|, k requires 0 <= k < |idxs| => PyIndex(versions, idxs[k]))
  }

  /**
   * The selection in `main`: split on commas, each piece stripped and read
   * as a 1-based number. Any exception rejects the whole selection;
   * otherwise the versions come in token order, one per token, each one
   * of the listed versions.
   */
  function Select(sel: string, versions: seq<string>): (r: Option<seq<string>>)
    ensures r.Some? ==> |r.value| == |Split(sel, ',')|
    ensures r.Some? ==> forall v :: v in r.value ==> v in versions
  {
    match AllSome(Indices(Split(sel, ',')))
    case None => None
    case Some(idxs) =>
      var r := AllSome(Picked(versions, idxs));
      assert r.Some? ==> forall v :: v in r.value ==> v in versions by {
        if r.Some? {
          forall v | v in r.value ensures v in versions {
            var k :| 0 <= k < |r.value| && r.value[k] == v;
            assert Picked(versions, idxs)[k] == Some(v);
          }
        }
      }
      r
  }

  /** Token by token, reading the index here and indexing is what the live monitor's `vers[int(t) - 1]` does. */
  lemma TokensAgree(tokens: seq<string>, versions: seq<string>)
    ensures forall k :: 0 <= k < |tokens| ==>
              SlotMonitor.Picks(tokens, versions)[k] ==
              (match Indices(tokens)[k] case None => None case Some(i) => PyIndex(versions, i))
  {
    forall k | 0 <= k < |tokens|
      ensures SlotMonitor.Picks(tokens, versions)[k] ==
              (match Indices(tokens)[k] case None => None case Some(i) => PyIndex(versions, i))
    {
      assert Indices(tokens)[k] == Index(tokens[k]);
    }
  }

  /** Parsing every index and then indexing with every one succeeds exactly when each token picks a version. */
  lemma TwoPassesAgree(picks: seq<Option<string>>, parsed: seq<Option<int>>, versions: seq<string>)
    requires |picks| == |parsed|
    requires forall k :: 0 <= k < |picks| ==>
               picks[k] == (match parsed[k] case None => None case Some(i) => PyIndex(versions, i))
    ensures AllSome(picks).Some? <==> AllSome(parsed).Some? && AllSome(Picked(versions, AllSome(parsed).value)).Some?
    ensures AllSome(picks).Some? ==> AllSome(picks) == AllSome(Picked(versions, AllSome(parsed).value))
  {
    var a := AllSome(parsed);
    if a.Some? {
      var picked := Picked(versions, a.value);
      assert forall k :: 0 <= k < |picks| ==> picks[k] == picked[k];
      assert picks == picked;
    } else {
      var k :| 0 <= k < |parsed| && parsed[k].None?;
      assert picks[k].None?;
    }
  }

  /**
   * Both scripts read a selection the same way: it is accepted here exactly
   * when the live monitor's comprehension raises nothing, and then both
   * choose the same versions.
   */
  lemma SelectAgrees(sel: string, versions: seq<string>)
    ensures Select(sel, versions).Some? <==> SlotMonitor.Choose(sel, versions).Success?
    ensures Select(sel, versions).Some? ==> Select(sel, versions).value == SlotMonitor.Choose(sel, versions).value
  {
    var tokens := Split(sel, ',');
    TokensAgree(tokens, versions);
    TwoPassesAgree(SlotMonitor.Picks(tokens, versions), Indices(tokens), versions);
    SlotMonitor.ChooseIsAllSome(tokens, versions);
  }

  /** "0" and negative numbers are not rejected: they count back from the last listed version. */
  lemma NonPositivePicksFromEnd(versions: seq<string>)
    requires |versions| > 0
    ensures Select("0", versions) == Some([versions[|versions| - 1]])
  {
    SelectAgrees("0", versions);
    SlotMonitor.ZeroPicksLast(versions);
  }

  // ---------------------------------------------------------------------
  // `plot_and_save`

  /**
   * One version's part of the file name: spaces dropped, '/' turned into
   * '-', every other character kept in place (`SafeNameChar`,
   * `SafeNameAppend`).
   */
  function SafeName(v: string): (r: string)
    ensures ' ' !in r && '/' !in r
    ensures forall ch :: ch in r ==> ch in v || ch == '-'
    ensures |v| == 0 ==> r == ""
  {
    Replace(Replace(v, ' ', ""), '/', "-")
  }

  /** A space disappears, a '/' becomes '-', any other character stays. */
  lemma SafeNameChar(c: char)
    ensures SafeName([c]) == if c == ' ' then "" else if c == '/' then "-" else [c]
  {
    ReplaceChar(c, ' ', "");
    if c != ' ' {
      ReplaceChar(c, '/', "-");
    }
  }

  /** Names are made safe character by character, in order: the text of `a + b` becomes that of `a` followed by that of `b`. */
  lemma SafeNameAppend(a: string, b: string)
    ensures SafeName(a + b) == SafeName(a) + SafeName(b)
  {
    ReplaceAppend(a, b, ' ', "");
    ReplaceAppend(Replace(a, ' ', ""), Replace(b, ' ', ""), '/', "-");
  }

  /** Making a name safe twice is making it safe once. */
  lemma SafeNameIdempotent(v: string)
    ensures SafeName(SafeName(v)) == SafeName(v)
  {
    var s := SafeName(v);
    ReplaceAbsent(s, ' ', "");
    ReplaceAbsent(s, '/', "-");
  }

  /** A name with neither spaces nor '/' is already safe. */
  lemma SafeNameKeepsPlain(v: string)
    requires ' ' !in v && '/' !in v
    ensures SafeName(v) == v
  {
    ReplaceAbsent(v, ' ', "");
    ReplaceAbsent(v, '/', "-");
  }

  /** The safe name of each version, in order. */
  function SafeNames(versions: seq<string>): (r: seq<string>)
    ensures |r| == |versions| && forall k :: 0 <= k < |versions| ==> r[k] == SafeName(versions[k])
  {
    seq(|versions|, k requires 0 <= k < |versions| => SafeName(versions[k]))
  }

  /** `"_".join(safe(v) for v in versions)`: one safe name per version, in order, '_' between; never a space or a '/'. */
  function SafeJoin(versions: seq<string>): (r: string)
    ensures r == Join("_", SafeNames(versions))
    ensures ' ' !in r && '/' !in r
  {
    var parts := SafeNames(versions);
    JoinExcludes("_", parts, ' ');
    JoinExcludes("_", parts, '/');
    Join("_", parts)
  }

  /**
   * While no version holds '_', the file name fragment splits back into
   * one safe name per chosen version, in selection order.
   */
  lemma SafeJoinSplits(versions: seq<string>)
    requires |versions| > 0
    requires forall k :: 0 <= k < |versions| ==> '_' !in versions[k]
    ensures Split(SafeJoin(versions), '_') == SafeNames(versions)
  {
    var parts := SafeNames(versions);
    assert forall k :: 0 <= k < |parts| ==> '_' !in parts[k];
    SplitJoin(parts, '_');
    assert "_" == ['_'];
  }

  /** The page's file name inside the output folder. */
  function ComparisonName(dbname: string, versions: seq<string>): string {
    "comparison_" + dbname + "_" + SafeJoin(versions) + ".html"
  }

  /**
   * `os.path.join(output_folder, ...)`: the page name is never absolute, so
   * it always lands inside the output folder.
   */
  function ComparisonPath(folder: string, dbname: string, versions: seq<string>): (r: string)
    ensures |folder| == 0 ==> r == ComparisonName(dbname, versions)
    ensures |folder| > 0 && folder[|folder| - 1] == '/' ==> r == folder + ComparisonName(dbname, versions)
    ensures |folder| > 0 && folder[|folder| - 1] != '/' ==> r == folder + "/" + ComparisonName(dbname, versions)
  {
    var name := ComparisonName(dbname, versions);
    assert name[0] == 'c';
    PathJoin(folder, name)
  }

  /** The data `plot_and_save` draws: per chosen version, in selection order, its memory and cpu rows. */
  function Traces(loaded: Loaded, versions: seq<string>): (c: Comparison)
    ensures |c.memory| == |versions| && |c.cpu| == |versions|
    ensures forall i :: 0 <= i < |versions| ==> c.memory[i] == SeriesOf(loaded.memory, versions[i])
    ensures forall i :: 0 <= i < |versions| ==> c.cpu[i] == SeriesOf(loaded.cpu, versions[i])
  {
    Comparison(PerVersion(loaded.memory, versions), PerVersion(loaded.cpu, versions))
  }

  // ---------------------------------------------------------------------
  // `main`

  datatype Outcome =
    | NoVersions
    | InvalidSelection
    | Saved(chosen: seq<string>, data: Comparison, path: string)

  /**
   * `main`: lists the versions `load_versions` reads (the same query as
   * the live monitor's, `DistinctVersions`); stops before prompting when
   * no version is recorded; stops
   * without loading anything on an invalid selection; otherwise loads the
   * chosen versions' rows and writes one page for them.
   */
  function Main(memRows: seq<MemoryRow>, cpuRows: seq<CpuRow>, versionRows: seq<VersionRow>,
                sel: string, folder: string, dbname: string): (o: Outcome)
    ensures o.NoVersions? <==> versionRows == []
    ensures o.InvalidSelection? <==> versionRows != [] && Select(sel, DistinctVersions(versionRows)).None?
    ensures o.Saved? ==> Select(sel, DistinctVersions(versionRows)) == Some(o.chosen)
    ensures o.Saved? ==> forall v :: v in o.chosen ==> exists k :: 0 <= k < |versionRows| && versionRows[k].version == v
    ensures o.Saved? ==> o.data == Assemble(memRows, cpuRows, o.chosen)
    ensures o.Saved? ==> o.path == ComparisonPath(folder, dbname, o.chosen)
  {
    var versions := DistinctVersions(versionRows);
    if |versions| == 0 then NoVersions
    else match Select(sel, versions)
      case None => InvalidSelection
      case Some(chosen) =>
        Saved(chosen, Traces(LoadMetrics(memRows, cpuRows, chosen), chosen), ComparisonPath(folder, dbname, chosen))
  }
}
