/**
 * `db-sync-process-monitor.py`: a background loop that, every tick, reads
 * the chain tip's slot from db-sync's Postgres database, samples the
 * db-sync process and appends slot-keyed rows to the metric store; and a
 * foreground loop that lists the recorded versions, reads a selection and
 * plots the chosen versions side by side.
 *
 * Postgres answers (`get_slot_no`, `get_sync_percent`), the process listing
 * and the clock enter each tick as the fields of a `TickInput`.
 */
module SlotMonitor {
  import opened Wrappers
  import opened Text
  import opened PyInt
  import opened Platform
  import opened MetricStore
  import opened Seqs
  import ProcessLocator

  /** `get_db_sync_version`: the tag every row of one monitor run carries. */
  function VersionTag(dbSyncVer: string, env: string): (r: string)
    ensures |r| == 17 + |dbSyncVer| + |env|
    ensures r[..16] == "cardano-db-sync " && r[16..16 + |dbSyncVer|] == dbSyncVer
    ensures r[16 + |dbSyncVer|] == ' ' && r[|r| - |env|..] == env
  {
    "cardano-db-sync " + dbSyncVer + " " + env
  }

  /** The Postgres database name: `--pg-dbname`, or `<env>_<ver>_metrics` when it is absent or empty. */
  function PgDbName(given: Option<string>, env: string, dbSyncVer: string): (r: string)
    ensures |r| > 0
    ensures given.Some? && given.value != "" ==> r == given.value
    ensures given.None? || given.value == "" ==>
              && |r| == |env| + |dbSyncVer| + 9 && r[..|env|] == env && r[|env|] == '_'
              && r[|env| + 1..|env| + 1 + |dbSyncVer|] == dbSyncVer && r[|r| - 8..] == "_metrics"
  {
    if given.Some? && given.value != "" then given.value
    else env + "_" + dbSyncVer + "_metrics"
  }

  // ---------------------------------------------------------------------
  // Sampling one process

  /** The dict `get_memory_details` returns, in MiB. */
  datatype MemoryDetails = MemoryDetails(rss: real, vms: real, uss: real, pss: real, swap: real, shared: real)

  /**
   * `get_memory_details`: any exception from either call gives None; an
   * attribute the platform does not report reads as 0.
   */
  function GetMemoryDetails(r: Readings): (d: Option<MemoryDetails>)
    ensures d.Some? <==> r.memoryInfo.Returned? && r.memoryFullInfo.Returned?
    ensures d.Some? ==> d.value.rss == Mb(r.memoryInfo.value.rss) && d.value.vms == Mb(r.memoryInfo.value.vms)
    ensures d.Some? ==> d.value.uss == Mb(r.memoryFullInfo.value.uss.GetOr(0.0))
    ensures d.Some? ==> d.value.pss == Mb(r.memoryFullInfo.value.pss.GetOr(0.0))
    ensures d.Some? ==> d.value.swap == Mb(r.memoryFullInfo.value.swap.GetOr(0.0))
    ensures d.Some? ==> d.value.shared == Mb(r.memoryInfo.value.shared.GetOr(0.0))
    ensures d.Some? && r.memoryFullInfo.value.uss.None? ==> d.value.uss == 0.0
  {
    match (r.memoryInfo, r.memoryFullInfo)
    case (Returned(mi), Returned(mfi)) =>
      Some(MemoryDetails(
        Mb(mi.rss), Mb(mi.vms),
        Mb(mfi.uss.GetOr(0.0)), Mb(mfi.pss.GetOr(0.0)), Mb(mfi.swap.GetOr(0.0)),
        Mb(mi.shared.GetOr(0.0))))
    case _ => None
  }

  /** The dict `get_cpu_details` returns. */
  datatype CpuDetails = CpuDetails(
    cpuPercent: real, userTime: real, systemTime: real,
    childrenUser: real, childrenSystem: real, iowait: real,
    ctxSwitches: nat, interrupts: Option<int>)

  /**
   * `get_cpu_details`: any exception gives None; children times and
   * `iowait` default to 0.0; context switches are summed; interrupts are
   * never reported.
   */
  function GetCpuDetails(r: Readings): (d: Option<CpuDetails>)
    ensures d.Some? <==> r.cpuTimes.Returned? && r.cpuPercent.Returned? && r.numCtxSwitches.Returned?
    ensures d.Some? ==> d.value.cpuPercent == r.cpuPercent.value
    ensures d.Some? ==> d.value.userTime == r.cpuTimes.value.user && d.value.systemTime == r.cpuTimes.value.system
    ensures d.Some? ==> d.value.childrenUser == r.cpuTimes.value.childrenUser.GetOr(0.0)
    ensures d.Some? ==> d.value.childrenSystem == r.cpuTimes.value.childrenSystem.GetOr(0.0)
    ensures d.Some? ==> d.value.iowait == r.cpuTimes.value.iowait.GetOr(0.0)
    ensures d.Some? ==> d.value.ctxSwitches == r.numCtxSwitches.value.voluntary + r.numCtxSwitches.value.involuntary
    ensures d.Some? ==> d.value.interrupts.None?
  {
    match (r.cpuTimes, r.cpuPercent, r.numCtxSwitches)
    case (Returned(times), Returned(percent), Returned(ctx)) =>
      Some(CpuDetails(
        percent, times.user, times.system,
        times.childrenUser.GetOr(0.0), times.childrenSystem.GetOr(0.0), times.iowait.GetOr(0.0),
        ctx.voluntary + ctx.involuntary, None))
    case _ => None
  }

  /** The `memory_metrics` INSERT: the slot, each detail in its own column, the run's tag. */
  function MemoryRowOf(slot: int, d: MemoryDetails, tag: string): (row: MemoryRow)
    ensures row.slotNo == slot && row.version == tag
    ensures row.rss == d.rss && row.vms == d.vms && row.uss == d.uss
    ensures row.pss == d.pss && row.swap == d.swap && row.shared == d.shared
  {
    MemoryRow(slot, d.rss, d.vms, d.uss, d.pss, d.swap, d.shared, tag)
  }

  /** The `cpu_metrics` INSERT: the slot, each detail in its own column, the run's tag. */
  function CpuRowOf(slot: int, d: CpuDetails, tag: string): (row: CpuRow)
    ensures row.slotNo == slot && row.version == tag
    ensures row.cpuPercent == d.cpuPercent && row.userTime == d.userTime && row.systemTime == d.systemTime
    ensures row.childrenUser == d.childrenUser && row.childrenSystem == d.childrenSystem && row.iowait == d.iowait
    ensures row.ctxSwitches == d.ctxSwitches && row.interrupts == d.interrupts
  {
    CpuRow(slot, d.cpuPercent, d.userTime, d.systemTime, d.childrenUser, d.childrenSystem,
           d.iowait, d.ctxSwitches, d.interrupts, tag)
  }

  // ---------------------------------------------------------------------
  // One tick of `log_metrics`

  /**
   * What the outside world answers during one tick: the slot of the newest
   * block (None when Postgres fails or has no block), the process listing,
   * the sync percentage and the current time.
   */
  datatype TickInput = TickInput(slot: Option<int>, procs: seq<ProcInfo>, syncPercent: Option<real>, now: string)

  /** The rows one tick appends to each table, and whether the loop goes on. */
  datatype TickEffect = TickEffect(memory: seq<MemoryRow>, cpu: seq<CpuRow>, versions: seq<VersionRow>, survives: bool)

  /**
   * One tick. Without a slot nothing is written and the loop sleeps and
   * goes on. With a slot, one version row is written whatever else
   * happens; a memory row exactly when the process was found and its
   * memory could be read, and a cpu row under the same rule independently.
   * The status line formats the sync percentage, which raises when it is
   * None: the rows are already written, but the logging loop ends.
   */
  function TickRows(t: TickInput, tag: string): (e: TickEffect)
    ensures t.slot.None? ==> e == TickEffect([], [], [], true)
    ensures t.slot.Some? ==> e.versions == [VersionRow(t.now, tag)]
    ensures |e.memory| <= 1 && |e.cpu| <= 1
    ensures e.memory != [] <==>
              t.slot.Some? && ProcessLocator.Located(t.procs).Some? &&
              GetMemoryDetails(ProcessLocator.Located(t.procs).value.readings).Some?
    ensures e.cpu != [] <==>
              t.slot.Some? && ProcessLocator.Located(t.procs).Some? &&
              GetCpuDetails(ProcessLocator.Located(t.procs).value.readings).Some?
    ensures t.slot.Some? ==> forall row :: row in e.memory ==> row.slotNo == t.slot.value && row.version == tag
    ensures t.slot.Some? ==> forall row :: row in e.cpu ==> row.slotNo == t.slot.value && row.version == tag
    ensures e.memory != [] ==>
              e.memory == [MemoryRowOf(t.slot.value, GetMemoryDetails(ProcessLocator.Located(t.procs).value.readings).value, tag)]
    ensures e.cpu != [] ==>
              e.cpu == [CpuRowOf(t.slot.value, GetCpuDetails(ProcessLocator.Located(t.procs).value.readings).value, tag)]
    ensures forall row :: row in e.cpu ==> row.interrupts.None?
    ensures e.survives <==> t.slot.None? || t.syncPercent.Some?
  {
    match t.slot
    case None => TickEffect([], [], [], true)
    case Some(slot) =>
      var proc := ProcessLocator.Located(t.procs);
      var mem := if proc.Some? then GetMemoryDetails(proc.value.readings) else None;
      var cpu := if proc.Some? then GetCpuDetails(proc.value.readings) else None;
      TickEffect(
        if mem.Some? then [MemoryRowOf(slot, mem.value, tag)] else [],
        if cpu.Some? then [CpuRowOf(slot, cpu.value, tag)] else [],
        [VersionRow(t.now, tag)],
        t.syncPercent.Some?)
  }

  /** The rows a run of ticks appends, how many ticks ran and whether the loop is still alive. */
  datatype RunEffect = RunEffect(memory: seq<MemoryRow>, cpu: seq<CpuRow>, versions: seq<VersionRow>, ran: nat, alive: bool)

  /** How many ticks of a schedule found a slot. */
  function SlotTicks(schedule: seq<TickInput>): nat {
    if |schedule| == 0 then 0
    else SlotTicks(schedule[..|schedule| - 1]) + (if schedule[|schedule| - 1].slot.Some? then 1 else 0)
  }

  /**
   * The ticks of `log_metrics` over a schedule of answers, until the
   * schedule ends or a tick ends the loop. Every row carries the run's
   * tag; there is one version row per tick that found a slot, and at most
   * one memory and one cpu row per version row.
   */
  function Run(schedule: seq<TickInput>, tag: string): (e: RunEffect)
    ensures e.ran <= |schedule|
    ensures e.alive ==> e.ran == |schedule|
    ensures |e.versions| == SlotTicks(schedule[..e.ran])
    ensures |e.memory| <= |e.versions| && |e.cpu| <= |e.versions|
    ensures forall row :: row in e.memory ==> row.version == tag
    ensures forall row :: row in e.cpu ==> row.version == tag
    ensures forall row :: row in e.versions ==> row.version == tag
  {
    if |schedule| == 0 then RunEffect([], [], [], 0, true)
    else
      var pre := Run(schedule[..|schedule| - 1], tag);
      if !pre.alive then
        assert schedule[..|schedule| - 1][..pre.ran] == schedule[..pre.ran];
        pre
      else
        var t := TickRows(schedule[|schedule| - 1], tag);
        assert schedule[..|schedule| - 1][..pre.ran] == schedule[..|schedule| - 1];
        assert schedule[..pre.ran + 1] == schedule;
        RunEffect(pre.memory + t.memory, pre.cpu + t.cpu, pre.versions + t.versions, pre.ran + 1, t.survives)
  }

  /** While the loop is alive, the next tick appends its own rows. */
  lemma RunExtend(schedule: seq<TickInput>, tag: string, n: nat)
    requires n < |schedule| && Run(schedule[..n], tag).alive
    ensures Run(schedule[..n + 1], tag).ran == n + 1
    ensures Run(schedule[..n + 1], tag).alive == TickRows(schedule[n], tag).survives
    ensures Run(schedule[..n + 1], tag).memory == Run(schedule[..n], tag).memory + TickRows(schedule[n], tag).memory
    ensures Run(schedule[..n + 1], tag).cpu == Run(schedule[..n], tag).cpu + TickRows(schedule[n], tag).cpu
    ensures Run(schedule[..n + 1], tag).versions == Run(schedule[..n], tag).versions + TickRows(schedule[n], tag).versions
  {
    assert schedule[..n + 1][..n] == schedule[..n];
  }

  /** Ticks after the loop has ended change nothing. */
  lemma {:induction false} RunAfterEnd(schedule: seq<TickInput>, tag: string, k: nat)
    requires k <= |schedule| && !Run(schedule[..k], tag).alive
    ensures Run(schedule, tag) == Run(schedule[..k], tag)
    decreases |schedule|
  {
    if k < |schedule| {
      assert schedule[..|schedule| - 1][..k] == schedule[..k];
      RunAfterEnd(schedule[..|schedule| - 1], tag, k);
    } else {
      assert schedule[..k] == schedule;
    }
  }

  /** A run that used up its schedule or ended is the run of the whole schedule. */
  lemma RunComplete(schedule: seq<TickInput>, tag: string, n: nat)
    requires n <= |schedule| && (n == |schedule| || !Run(schedule[..n], tag).alive)
    ensures Run(schedule, tag) == Run(schedule[..n], tag)
  {
    if n == |schedule| {
      assert schedule[..n] == schedule;
    } else {
      RunAfterEnd(schedule, tag, n);
    }
  }

  /** A tick with a slot but no sync percentage is the last one the loop runs. */
  lemma {:induction false} MissingSyncPercentEndsRun(schedule: seq<TickInput>, tag: string, k: nat)
    requires k < |schedule| && schedule[k].slot.Some? && schedule[k].syncPercent.None?
    ensures !Run(schedule, tag).alive && Run(schedule, tag).ran <= k + 1
    decreases |schedule|
  {
    if k + 1 < |schedule| {
      MissingSyncPercentEndsRun(schedule[..|schedule| - 1], tag, k);
    }
  }

  /** Ticks without a slot never end the loop and write nothing. */
  lemma {:induction false} SlotlessTicksWriteNothing(schedule: seq<TickInput>, tag: string)
    requires forall k :: 0 <= k < |schedule| ==> schedule[k].slot.None?
    ensures Run(schedule, tag) == RunEffect([], [], [], |schedule|, true)
  {
    if |schedule| > 0 {
      SlotlessTicksWriteNothing(schedule[..|schedule| - 1], tag);
    }
  }

  /** `CardanoMonitor`: its settings, its store and the `running` flag the logging loop polls. */
  class Monitor {
    const env: string
    const dbSyncVer: string
    const pgDbName: string
    const dbFile: string
    const outputFolder: string
    const store: Store
    var running: bool

    /** `__init__`: derives the store file name and creates the tables (keeping any rows already there). */
    constructor (env: string, dbSyncVer: string, pgDbName: string, store: Store)
      requires store.Valid()
      modifies store
      ensures this.env == env && this.dbSyncVer == dbSyncVer && this.pgDbName == pgDbName
      ensures dbFile == "dbsync_" + env + "_stats_sqlite.db" && outputFolder == "plots"
      ensures this.store == store && running
      ensures store.Valid() && store.tables == AllTables
      ensures store.memory == old(store.memory) && store.cpu == old(store.cpu) && store.versions == old(store.versions)
    {
      this.env := env;
      this.dbSyncVer := dbSyncVer;
      this.pgDbName := pgDbName;
      dbFile := "dbsync_" + env + "_stats_sqlite.db";
      outputFolder := "plots";
      this.store := store;
      running := true;
      new;
      store.InitDb();
    }

    function Tag(): string {
      VersionTag(dbSyncVer, env)
    }

    /** One pass of the `log_metrics` loop: appends what `TickRows` says and nothing else. */
    method Tick(t: TickInput) returns (survives: bool)
      requires store.Valid() && store.tables == AllTables
      modifies store
      ensures store.Valid() && store.tables == AllTables
      ensures store.memory == old(store.memory) + TickRows(t, Tag()).memory
      ensures store.cpu == old(store.cpu) + TickRows(t, Tag()).cpu
      ensures store.versions == old(store.versions) + TickRows(t, Tag()).versions
      ensures survives == TickRows(t, Tag()).survives
    {
      if t.slot.None? {
        return true;
      }
      var slot := t.slot.value;
      var proc := ProcessLocator.GetProcess(t.procs);
      var mem := if proc.Some? then GetMemoryDetails(proc.value.readings) else None;
      var cpu := if proc.Some? then GetCpuDetails(proc.value.readings) else None;
      var ver := Tag();
      if mem.Some? {
        store.InsertMemory(MemoryRowOf(slot, mem.value, ver));
      }
      if cpu.Some? {
        store.InsertCpu(CpuRowOf(slot, cpu.value, ver));
      }
      store.InsertVersion(VersionRow(t.now, ver));
      survives := t.syncPercent.Some?;
    }

    /**
     * `log_metrics`: while `running`, one tick per scheduled answer, until
     * the schedule ends or a tick ends the loop. Rows already in the store
     * stay as they are; the new ones are those of `Run`.
     */
    method LogMetrics(schedule: seq<TickInput>) returns (ran: nat)
      requires store.Valid() && store.tables == AllTables
      modifies store
      ensures store.Valid() && store.tables == AllTables
      ensures !running ==> ran == 0 && store.memory == old(store.memory) && store.cpu == old(store.cpu) && store.versions == old(store.versions)
      ensures running ==> ran == Run(schedule, Tag()).ran
      ensures running ==> store.memory == old(store.memory) + Run(schedule, Tag()).memory
      ensures running ==> store.cpu == old(store.cpu) + Run(schedule, Tag()).cpu
      ensures running ==> store.versions == old(store.versions) + Run(schedule, Tag()).versions
    {
      ghost var tag := Tag();
      ghost var memory0, cpu0, versions0 := store.memory, store.cpu, store.versions;
      ran := 0;
      var alive := true;
      assert schedule[..0] == [];
      while running && alive && ran < |schedule|
        invariant ran <= |schedule| && store.Valid() && store.tables == AllTables
        invariant !running ==> ran == 0
        invariant alive == Run(schedule[..ran], tag).alive && ran == Run(schedule[..ran], tag).ran
        invariant store.memory == memory0 + Run(schedule[..ran], tag).memory
        invariant store.cpu == cpu0 + Run(schedule[..ran], tag).cpu
        invariant store.versions == versions0 + Run(schedule[..ran], tag).versions
      {
        ghost var done, step := Run(schedule[..ran], tag), TickRows(schedule[ran], tag);
        RunExtend(schedule, tag, ran);
        alive := Tick(schedule[ran]);
        ran := ran + 1;
        AppendAssoc(memory0, done.memory, step.memory);
        AppendAssoc(cpu0, done.cpu, step.cpu);
        AppendAssoc(versions0, done.versions, step.versions);
      }
      if running {
        RunComplete(schedule, tag, ran);
      }
    }

    /** The KeyboardInterrupt handler of `run`: clears the flag the logging loop polls. */
    method Stop()
      modifies this
      ensures !running
    {
      running := false;
    }
  }

  // ---------------------------------------------------------------------
  // Choosing versions in `run`

  /** The exception the selection comprehension raises. */
  datatype SelectError = ValueError(token: string) | IndexError(index: int)

  /** `vers[int(t) - 1]` for one token: always one of the listed versions. */
  function TokenChoice(token: string, vers: seq<string>): (r: Option<string>)
    ensures r.Some? ==> r.value in vers
  {
    match ParseInt(token)
    case None => None
    case Some(n) => PyIndex(vers, n - 1)
  }

  /**
   * A token picks a version exactly when it reads as an integer n with
   * n - 1 in [-len, len): n >= 1 picks the n-th version, n <= 0 counts
   * back from the end.
   */
  lemma TokenChoiceIndex(token: string, vers: seq<string>)
    ensures TokenChoice(token, vers).Some? <==>
            ParseInt(token).Some? && -|vers| <= ParseInt(token).value - 1 < |vers|
    ensures TokenChoice(token, vers).Some? && ParseInt(token).value >= 1 ==>
            TokenChoice(token, vers).value == vers[ParseInt(token).value - 1]
    ensures TokenChoice(token, vers).Some? && ParseInt(token).value < 1 ==>
            TokenChoice(token, vers).value == vers[|vers| + ParseInt(token).value - 1]
  {
  }

  /** What a failing token raises: ValueError when it is not an integer, IndexError otherwise. */
  function TokenError(token: string, vers: seq<string>): SelectError {
    match ParseInt(token)
    case None => ValueError(token)
    case Some(n) => IndexError(n - 1)
  }

  /** What each token picks, in token order. */
  function Picks(tokens: seq<string>, vers: seq<string>): (p: seq<Option<string>>)
    ensures |p| == |tokens| && forall k :: 0 <= k < |tokens| ==> p[k] == TokenChoice(tokens[k], vers)
  {
    seq(|tokens|, k requires 0 <= k < |tokens| => TokenChoice(tokens[k], vers))
  }

  /**
   * `[vers[int(i) - 1] for i in tokens]`: every token picks a version, in
   * token order and with repetitions kept; otherwise the first token that
   * picks none raises and nothing is chosen.
   */
  function ChooseTokens(tokens: seq<string>, vers: seq<string>): (r: Result<seq<string>, SelectError>)
    ensures r.Success? <==> forall k :: 0 <= k < |tokens| ==> TokenChoice(tokens[k], vers).Some?
    ensures r.Success? ==> |r.value| == |tokens| && forall v :: v in r.value ==> v in vers
    ensures r.Success? ==> forall k :: 0 <= k < |tokens| ==> TokenChoice(tokens[k], vers) == Some(r.value[k])
    ensures r.Failure? ==>
              var k := FirstNone(Picks(tokens, vers));
              && k < |tokens| && TokenChoice(tokens[k], vers).None? && r.error == TokenError(tokens[k], vers)
              && forall j :: 0 <= j < k ==> TokenChoice(tokens[j], vers).Some?
  {
    var picks := Picks(tokens, vers);
    var k := FirstNone(picks);
    if k < |tokens| then Failure(TokenError(tokens[k], vers))
    else
      var chosen := Values(picks);
      assert forall v :: v in chosen ==> v in vers by {
        forall v | v in chosen ensures v in vers {
          var j :| 0 <= j < |chosen| && chosen[j] == v;
          assert picks[j] == Some(v);
        }
      }
      Success(chosen)
  }

  /** The comprehension succeeds exactly when every token picks a version, and then yields those picks. */
  lemma ChooseIsAllSome(tokens: seq<string>, vers: seq<string>)
    ensures ChooseTokens(tokens, vers).Success? <==> AllSome(Picks(tokens, vers)).Some?
    ensures ChooseTokens(tokens, vers).Success? ==> ChooseTokens(tokens, vers).value == AllSome(Picks(tokens, vers)).value
  {
    var r := ChooseTokens(tokens, vers);
    var a := AllSome(Picks(tokens, vers));
    if r.Success? && a.Some? {
      assert forall k :: 0 <= k < |tokens| ==> r.value[k] == a.value[k];
    }
  }

  /** The selection line `sel`, split on commas, mapped onto the listed versions. */
  function Choose(sel: string, vers: seq<string>): (r: Result<seq<string>, SelectError>)
    ensures r.Success? <==> forall k :: 0 <= k < |Split(sel, ',')| ==> TokenChoice(Split(sel, ',')[k], vers).Some?
    ensures r.Success? ==> |r.value| == |Split(sel, ',')| && forall v :: v in r.value ==> v in vers
    ensures r.Success? ==> forall k :: 0 <= k < |r.value| ==> TokenChoice(Split(sel, ',')[k], vers) == Some(r.value[k])
  {
    var tokens := Split(sel, ',');
    var r := ChooseTokens(tokens, vers);
    assert r.Success? <== forall k :: 0 <= k < |tokens| ==> TokenChoice(tokens[k], vers).Some?;
    r
  }

  /** "0" picks the last listed version, through Python's negative indexing. */
  lemma ZeroPicksLast(vers: seq<string>)
    requires |vers| > 0
    ensures Choose("0", vers) == Success([vers[|vers| - 1]])
  {
    ParseDigitRun("0");
    assert DigitsValue("0") == 0;
    SplitJoin(["0"], ',');
    assert Join([','], ["0"]) == "0";
    var tokens := ["0"];
    assert TokenChoice(tokens[0], vers) == Some(vers[|vers| - 1]);
    var r := ChooseTokens(tokens, vers);
    assert r.Success? && |r.value| == 1 && r.value[0] == vers[|vers| - 1];
    assert r.value == [vers[|vers| - 1]];
  }

  /** The token `str(n)` picks the n-th listed version. */
  lemma ShownTokenPicks(t: string, n: int, vers: seq<string>)
    requires t == Show(n) && 1 <= n <= |vers|
    ensures TokenChoice(t, vers) == Some(vers[n - 1])
  {
    ParseShow(n);
    assert ParseInt(t) == Some(n);
  }

  /** Tokens that print in-range positions pick exactly those versions, in token order. */
  lemma ChooseShown(tokens: seq<string>, idx: seq<int>, vers: seq<string>)
    requires |tokens| == |idx|
    requires forall k :: 0 <= k < |idx| ==> tokens[k] == Show(idx[k]) && 1 <= idx[k] <= |vers|
    ensures ChooseTokens(tokens, vers).Success?
    ensures forall k :: 0 <= k < |idx| ==> ChooseTokens(tokens, vers).value[k] == vers[idx[k] - 1]
  {
    forall k | 0 <= k < |idx| ensures TokenChoice(tokens[k], vers) == Some(vers[idx[k] - 1]) {
      ShownTokenPicks(tokens[k], idx[k], vers);
    }
    assert FirstNone(Picks(tokens, vers)) == |tokens|;
  }

  // ---------------------------------------------------------------------
  // One pass of `run`

  /** `save_plot`: the file the comparison is written to, under the output folder. */
  function PlotPath(pgDbName: string, ts: string): (r: string)
    ensures r == "plots/comparison_" + pgDbName + "_" + ts + ".html"
  {
    var name := "comparison_" + pgDbName + "_" + ts + ".html";
    assert name[0] == 'c';
    PathJoin("plots", name)
  }

  /** What one pass of the foreground loop does. */
  datatype Step =
    | WaitForVersions
    | SelectionRaised(error: SelectError)
    | Plotted(chosen: seq<string>, data: Comparison, path: string)

  /**
   * One pass of `run` over the store's rows: with no version recorded it
   * waits; otherwise it lists the versions, reads `sel`, and either the
   * selection raises (which leaves `run` altogether) or the chosen
   * versions' series are plotted and saved as
   * `plots/comparison_<dbname>_<ts>.html`.
   */
  function RunStep(memRows: seq<MemoryRow>, cpuRows: seq<CpuRow>, versionRows: seq<VersionRow>,
                   sel: string, pgDbName: string, ts: string): (s: Step)
    ensures s.WaitForVersions? <==> versionRows == []
    ensures s.SelectionRaised? <==> versionRows != [] && Choose(sel, DistinctVersions(versionRows)).Failure?
    ensures s.Plotted? ==> forall v :: v in s.chosen ==> exists k :: 0 <= k < |versionRows| && versionRows[k].version == v
    ensures s.Plotted? ==> Choose(sel, DistinctVersions(versionRows)) == Success(s.chosen)
    ensures s.Plotted? ==> s.data == Assemble(memRows, cpuRows, s.chosen)
    ensures s.Plotted? ==> |s.data.memory| == |s.chosen| && |s.data.cpu| == |s.chosen|
    ensures s.Plotted? ==> s.path == PlotPath(pgDbName, ts)
  {
    var vers := DistinctVersions(versionRows);
    if |vers| == 0 then WaitForVersions
    else match Choose(sel, vers)
      case Failure(e) => SelectionRaised(e)
      case Success(chosen) =>
        Plotted(chosen, Assemble(memRows, cpuRows, chosen), PlotPath(pgDbName, ts))
  }
}
