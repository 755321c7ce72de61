/**
 * `simple-db-sync-monitor.py`: a background loop that samples the db-sync
 * process every tick and appends timestamp-keyed rows to its own SQLite
 * file, and a foreground loop that plots the last hours of those rows.
 *
 * Unlike the slot-keyed monitor, a tick is gated on finding the process
 * (there is no slot), absent platform attributes are stored as NULL
 * rather than 0, and only three kinds of psutil exception are caught:
 * any other one escapes the tick and ends the logging loop.
 */
module SimpleMonitor {
  import opened Wrappers
  import opened Platform
  import ProcessLocator
  import opened Seqs

  /** The `process` column of every row. */
  const ProcessTag: string := "cardano-db-sync"

  /** A `memory_metrics` row of the simple store; platform-dependent sizes may be NULL. */
  datatype MemoryRow = MemoryRow(
    timestamp: string, rss: real, vms: real,
    uss: Option<real>, pss: Option<real>, swap: Option<real>, shared: real,
    process: string)

  /** A `cpu_metrics` row of the simple store. */
  datatype CpuRow = CpuRow(
    timestamp: string, cpuPercent: real, userTime: real, systemTime: real,
    childrenUser: real, childrenSystem: real, iowait: Option<real>,
    ctxSwitches: int, interrupts: Option<int>, process: string)

  datatype Table = MemoryMetrics | CpuMetrics

  const AllTables: set<Table> := {MemoryMetrics, CpuMetrics}

  /** The file `simple_monitoring_sqlite.db`: its tables and their rows in insertion order. */
  class Store {
    var tables: set<Table>
    var memory: seq<MemoryRow>
    var cpu: seq<CpuRow>

    /** A table that does not exist holds no rows. */
    ghost predicate Valid()
      reads this
    {
      && (MemoryMetrics !in tables ==> memory == [])
      && (CpuMetrics !in tables ==> cpu == [])
    }

    constructor Open(tables0: set<Table>, memory0: seq<MemoryRow>, cpu0: seq<CpuRow>)
      requires MemoryMetrics !in tables0 ==> memory0 == []
      requires CpuMetrics !in tables0 ==> cpu0 == []
      ensures Valid()
      ensures tables == tables0 && memory == memory0 && cpu == cpu0
    {
      tables, memory, cpu := tables0, memory0, cpu0;
    }

    /** `init_db`: CREATE TABLE IF NOT EXISTS for both tables; rows already there are kept. */
    method InitDb()
      requires Valid()
      modifies this
      ensures Valid() && tables == AllTables
      ensures memory == old(memory) && cpu == old(cpu)
    {
      forall t | t in tables ensures t in AllTables {
        match t
        case MemoryMetrics =>
        case CpuMetrics =>
      }
      tables := AllTables;
    }

    method InsertMemory(row: MemoryRow)
      requires Valid() && MemoryMetrics in tables
      modifies this
      ensures Valid() && tables == old(tables)
      ensures memory == old(memory) + [row] && cpu == old(cpu)
    {
      memory := memory + [row];
    }

    method InsertCpu(row: CpuRow)
      requires Valid() && CpuMetrics in tables
      modifies this
      ensures Valid() && tables == old(tables)
      ensures cpu == old(cpu) + [row] && memory == old(memory)
    {
      cpu := cpu + [row];
    }
  }

  // ---------------------------------------------------------------------
  // Sampling one process

  /** The outcome of an extraction: a sample, None (a caught exception), or an exception that escapes. */
  datatype Extraction<+T> = Got(value: T) | Unavailable | Escaped(exc: Exc)

  /** The exceptions the extraction functions catch. */
  predicate Caught(e: Exc) {
    e == NoSuchProcess || e == AccessDenied || e == AttributeError
  }

  function Fail<T>(e: Exc): (x: Extraction<T>)
    ensures x.Unavailable? <==> Caught(e)
    ensures x.Escaped? <==> !Caught(e)
    ensures x.Escaped? ==> x.exc == e
  {
    if Caught(e) then Unavailable else Escaped(e)
  }

  /** The dict `get_memory_details` returns, in MiB. */
  datatype MemorySample = MemorySample(rss: real, vms: real, uss: Option<real>, pss: Option<real>, swap: Option<real>, shared: real)

  /**
   * `get_memory_details`: the first exception of `memory_info()` or
   * `memory_full_info()` ends it; `uss`, `pss` and `swap` are None where the
   * platform lacks them, but a missing `shared` raises AttributeError, so
   * the whole sample is lost.
   */
  function GetMemoryDetails(r: Readings): (x: Extraction<MemorySample>)
    ensures r.memoryInfo.Raised? ==> x == Fail(r.memoryInfo.exc)
    ensures r.memoryInfo.Returned? && r.memoryFullInfo.Raised? ==> x == Fail(r.memoryFullInfo.exc)
    ensures x.Got? <==> r.memoryInfo.Returned? && r.memoryFullInfo.Returned? && r.memoryInfo.value.shared.Some?
    ensures x.Escaped? ==> !Caught(x.exc)
    ensures x.Got? ==> x.value.rss == Mb(r.memoryInfo.value.rss) && x.value.vms == Mb(r.memoryInfo.value.vms)
    ensures x.Got? ==> x.value.shared == Mb(r.memoryInfo.value.shared.value)
    ensures x.Got? ==> (x.value.uss.Some? <==> r.memoryFullInfo.value.uss.Some?)
    ensures x.Got? ==> (x.value.pss.Some? <==> r.memoryFullInfo.value.pss.Some?)
    ensures x.Got? ==> (x.value.swap.Some? <==> r.memoryFullInfo.value.swap.Some?)
    ensures x.Got? && x.value.uss.Some? ==> x.value.uss.value == Mb(r.memoryFullInfo.value.uss.value)
    ensures x.Got? && x.value.pss.Some? ==> x.value.pss.value == Mb(r.memoryFullInfo.value.pss.value)
    ensures x.Got? && x.value.swap.Some? ==> x.value.swap.value == Mb(r.memoryFullInfo.value.swap.value)
  {
    match r.memoryInfo
    case Raised(e) => Fail(e)
    case Returned(mi) =>
      match r.memoryFullInfo
      case Raised(e) => Fail(e)
      case Returned(mfi) =>
        match mi.shared
        case None => Fail(AttributeError)
        case Some(shared) =>
          Got(MemorySample(
            Mb(mi.rss), Mb(mi.vms),
            if mfi.uss.Some? then Some(Mb(mfi.uss.value)) else None,
            if mfi.pss.Some? then Some(Mb(mfi.pss.value)) else None,
            if mfi.swap.Some? then Some(Mb(mfi.swap.value)) else None,
            Mb(shared)))
  }

  /** `psutil.cpu_count() or 1`: an unknown (or zero) count reads as 1. */
  function EffectiveCpuCount(count: Option<nat>): (n: nat)
    ensures n >= 1
    ensures count.Some? && count.value > 0 ==> n == count.value
    ensures count.None? || count.value == 0 ==> n == 1
  {
    if count.Some? && count.value > 0 then count.value else 1
  }

  /** The dict `get_cpu_details` returns. */
  datatype CpuSample = CpuSample(
    cpuPercent: real, normalized: real, userTime: real, systemTime: real,
    childrenUser: real, childrenSystem: real, iowait: Option<real>,
    ctxSwitches: nat, interrupts: Option<int>)

  /**
   * `get_cpu_details`: `cpu_times()`, `cpu_percent()` and
   * `num_ctx_switches()` in that order, the first exception ending it;
   * children times default to 0.0, `iowait` to None; the percentage is
   * also divided by the cpu count, which is never 0.
   */
  function GetCpuDetails(r: Readings, cpuCount: Option<nat>): (x: Extraction<CpuSample>)
    ensures r.cpuTimes.Raised? ==> x == Fail(r.cpuTimes.exc)
    ensures r.cpuTimes.Returned? && r.cpuPercent.Raised? ==> x == Fail(r.cpuPercent.exc)
    ensures r.cpuTimes.Returned? && r.cpuPercent.Returned? && r.numCtxSwitches.Raised? ==> x == Fail(r.numCtxSwitches.exc)
    ensures x.Got? <==> r.cpuTimes.Returned? && r.cpuPercent.Returned? && r.numCtxSwitches.Returned?
    ensures x.Got? ==> x.value.cpuPercent == r.cpuPercent.value
    ensures x.Got? ==> x.value.normalized * (EffectiveCpuCount(cpuCount) as real) == r.cpuPercent.value
    ensures x.Got? ==> x.value.userTime == r.cpuTimes.value.user && x.value.systemTime == r.cpuTimes.value.system
    ensures x.Got? ==> x.value.childrenUser == r.cpuTimes.value.childrenUser.GetOr(0.0)
    ensures x.Got? ==> x.value.childrenSystem == r.cpuTimes.value.childrenSystem.GetOr(0.0)
    ensures x.Got? ==> x.value.iowait == r.cpuTimes.value.iowait
    ensures x.Got? ==> x.value.ctxSwitches == r.numCtxSwitches.value.voluntary + r.numCtxSwitches.value.involuntary
    ensures x.Got? ==> x.value.interrupts.None?
  {
    match r.cpuTimes
    case Raised(e) => Fail(e)
    case Returned(times) =>
      match r.cpuPercent
      case Raised(e) => Fail(e)
      case Returned(percent) =>
        var count := EffectiveCpuCount(cpuCount);
        match r.numCtxSwitches
        case Raised(e) => Fail(e)
        case Returned(ctx) =>
          Got(CpuSample(
            percent, percent / (count as real), times.user, times.system,
            times.childrenUser.GetOr(0.0), times.childrenSystem.GetOr(0.0), times.iowait,
            ctx.voluntary + ctx.involuntary, None))
  }

  /**
   * The `memory_metrics` INSERT: the tick's timestamp, each detail in its
   * own column (an absent `uss`, `pss` or `swap` stored as NULL), and the
   * process name.
   */
  function MemoryRowOf(timestamp: string, m: MemorySample): (row: MemoryRow)
    ensures row.timestamp == timestamp && row.process == ProcessTag
    ensures row.rss == m.rss && row.vms == m.vms && row.shared == m.shared
    ensures row.uss == m.uss && row.pss == m.pss && row.swap == m.swap
  {
    MemoryRow(timestamp, m.rss, m.vms, m.uss, m.pss, m.swap, m.shared, ProcessTag)
  }

  /**
   * The `cpu_metrics` INSERT: the tick's timestamp, each detail in its own
   * column (an absent `iowait` stored as NULL; the normalised percentage is
   * not stored), and the process name.
   */
  function CpuRowOf(timestamp: string, c: CpuSample): (row: CpuRow)
    ensures row.timestamp == timestamp && row.process == ProcessTag
    ensures row.cpuPercent == c.cpuPercent && row.userTime == c.userTime && row.systemTime == c.systemTime
    ensures row.childrenUser == c.childrenUser && row.childrenSystem == c.childrenSystem
    ensures row.iowait == c.iowait
    ensures row.ctxSwitches == c.ctxSwitches && row.interrupts == c.interrupts
  {
    CpuRow(timestamp, c.cpuPercent, c.userTime, c.systemTime, c.childrenUser, c.childrenSystem,
           c.iowait, c.ctxSwitches, c.interrupts, ProcessTag)
  }

  // ---------------------------------------------------------------------
  // One tick of `log_metrics`

  /** What the outside world answers during one tick: the time, the process listing and `psutil.cpu_count()`. */
  datatype TickInput = TickInput(now: string, procs: seq<ProcInfo>, cpuCount: Option<nat>)

  /** The rows one tick appends to each table, and whether the loop goes on. */
  datatype TickEffect = TickEffect(memory: seq<MemoryRow>, cpu: seq<CpuRow>, survives: bool)

  /** Whether the memory extraction of the located process escapes. */
  predicate MemoryEscapes(p: ProcInfo) {
    GetMemoryDetails(p.readings).Escaped?
  }

  /** Whether the cpu extraction of the located process escapes. */
  predicate CpuEscapes(p: ProcInfo, cpuCount: Option<nat>) {
    GetCpuDetails(p.readings, cpuCount).Escaped?
  }

  /**
   * One tick. Without the process nothing is written and the loop goes on.
   * With it, memory and then cpu are extracted; an exception escaping
   * either ends the loop before anything is written. Otherwise each row is
   * written exactly when its extraction gave a sample, both with the
   * timestamp taken at the start of the tick.
   */
  function TickRows(t: TickInput): (e: TickEffect)
    ensures ProcessLocator.Located(t.procs).None? ==> e == TickEffect([], [], true)
    ensures !e.survives <==>
              ProcessLocator.Located(t.procs).Some? &&
              (MemoryEscapes(ProcessLocator.Located(t.procs).value) ||
               CpuEscapes(ProcessLocator.Located(t.procs).value, t.cpuCount))
    ensures !e.survives ==> e.memory == [] && e.cpu == []
    ensures |e.memory| <= 1 && |e.cpu| <= 1
    ensures e.memory != [] <==>
              e.survives && ProcessLocator.Located(t.procs).Some? &&
              GetMemoryDetails(ProcessLocator.Located(t.procs).value.readings).Got?
    ensures e.cpu != [] <==>
              e.survives && ProcessLocator.Located(t.procs).Some? &&
              GetCpuDetails(ProcessLocator.Located(t.procs).value.readings, t.cpuCount).Got?
    ensures e.memory != [] ==>
              e.memory == [MemoryRowOf(t.now, GetMemoryDetails(ProcessLocator.Located(t.procs).value.readings).value)]
    ensures e.cpu != [] ==>
              e.cpu == [CpuRowOf(t.now, GetCpuDetails(ProcessLocator.Located(t.procs).value.readings, t.cpuCount).value)]
    ensures forall row :: row in e.memory ==> row.timestamp == t.now && row.process == ProcessTag
    ensures forall row :: row in e.cpu ==> row.timestamp == t.now && row.process == ProcessTag && row.interrupts.None?
  {
    match ProcessLocator.Located(t.procs)
    case None => TickEffect([], [], true)
    case Some(p) =>
      var mem := GetMemoryDetails(p.readings);
      var cpu := GetCpuDetails(p.readings, t.cpuCount);
      if mem.Escaped? || cpu.Escaped? then TickEffect([], [], false)
      else
        TickEffect(
          if mem.Got? then [MemoryRowOf(t.now, mem.value)] else [],
          if cpu.Got? then [CpuRowOf(t.now, cpu.value)] else [],
          true)
  }

  /** A memory row stores NULL in `uss`, `pss` or `swap` exactly where the platform did not report that figure. */
  lemma AbsentFiguresStoredAsNull(t: TickInput)
    requires TickRows(t).memory != []
    ensures var full := ProcessLocator.Located(t.procs).value.readings.memoryFullInfo.value;
            var row := TickRows(t).memory[0];
            && (row.uss.None? <==> full.uss.None?)
            && (row.pss.None? <==> full.pss.None?)
            && (row.swap.None? <==> full.swap.None?)
  {
  }

  /** The rows a run of ticks appends, how many ticks ran and whether the loop is still alive. */
  datatype RunEffect = RunEffect(memory: seq<MemoryRow>, cpu: seq<CpuRow>, ran: nat, alive: bool)

  /** How many ticks of a schedule found the process. */
  function FoundTicks(schedule: seq<TickInput>): nat {
    if |schedule| == 0 then 0
    else FoundTicks(schedule[..|schedule| - 1]) +
         (if ProcessLocator.Located(schedule[|schedule| - 1].procs).Some? then 1 else 0)
  }

  /**
   * The ticks of `log_metrics` over a schedule of answers, until the
   * schedule ends or an exception escapes a tick. Each table gets at most
   * one row per tick that found the process, and every row carries the
   * process tag.
   */
  function Run(schedule: seq<TickInput>): (e: RunEffect)
    ensures e.ran <= |schedule|
    ensures e.alive ==> e.ran == |schedule|
    ensures |e.memory| <= FoundTicks(schedule[..e.ran]) && |e.cpu| <= FoundTicks(schedule[..e.ran])
    ensures forall row :: row in e.memory ==> row.process == ProcessTag
    ensures forall row :: row in e.cpu ==> row.process == ProcessTag
  {
    if |schedule| == 0 then RunEffect([], [], 0, true)
    else
      var pre := Run(schedule[..|schedule| - 1]);
      if !pre.alive then
        assert schedule[..|schedule| - 1][..pre.ran] == schedule[..pre.ran];
        pre
      else
        var t := TickRows(schedule[|schedule| - 1]);
        assert schedule[..|schedule| - 1][..pre.ran] == schedule[..|schedule| - 1];
        assert schedule[..pre.ran + 1] == schedule;
        RunEffect(pre.memory + t.memory, pre.cpu + t.cpu, pre.ran + 1, t.survives)
  }

  /** While the loop is alive, the next tick appends its own rows. */
  lemma RunExtend(schedule: seq<TickInput>, n: nat)
    requires n < |schedule| && Run(schedule[..n]).alive
    ensures Run(schedule[..n + 1]).ran == n + 1
    ensures Run(schedule[..n + 1]).alive == TickRows(schedule[n]).survives
    ensures Run(schedule[..n + 1]).memory == Run(schedule[..n]).memory + TickRows(schedule[n]).memory
    ensures Run(schedule[..n + 1]).cpu == Run(schedule[..n]).cpu + TickRows(schedule[n]).cpu
  {
    assert schedule[..n + 1][..n] == schedule[..n];
  }

  /** Ticks after the loop has ended change nothing. */
  lemma {:induction false} RunAfterEnd(schedule: seq<TickInput>, k: nat)
    requires k <= |schedule| && !Run(schedule[..k]).alive
    ensures Run(schedule) == Run(schedule[..k])
    decreases |schedule|
  {
    if k < |schedule| {
      assert schedule[..|schedule| - 1][..k] == schedule[..k];
      RunAfterEnd(schedule[..|schedule| - 1], k);
    } else {
      assert schedule[..k] == schedule;
    }
  }

  /** A run that used up its schedule or ended is the run of the whole schedule. */
  lemma RunComplete(schedule: seq<TickInput>, n: nat)
    requires n <= |schedule| && (n == |schedule| || !Run(schedule[..n]).alive)
    ensures Run(schedule) == Run(schedule[..n])
  {
    if n == |schedule| {
      assert schedule[..n] == schedule;
    } else {
      RunAfterEnd(schedule, n);
    }
  }

  /** Ticks that never find the process write nothing and never end the loop. */
  lemma {:induction false} AbsentProcessWritesNothing(schedule: seq<TickInput>)
    requires forall k :: 0 <= k < |schedule| ==> ProcessLocator.Located(schedule[k].procs).None?
    ensures Run(schedule) == RunEffect([], [], |schedule|, true)
  {
    if |schedule| > 0 {
      AbsentProcessWritesNothing(schedule[..|schedule| - 1]);
    }
  }

  /** An exception escaping a tick makes that tick the last one the loop runs. */
  lemma {:induction false} EscapeEndsRun(schedule: seq<TickInput>, k: nat)
    requires k < |schedule| && !TickRows(schedule[k]).survives
    ensures !Run(schedule).alive && Run(schedule).ran <= k + 1
    decreases |schedule|
  {
    if k + 1 < |schedule| {
      EscapeEndsRun(schedule[..|schedule| - 1], k);
    }
  }

  /** `CardanoMonitor` of the simple script: its store file and the `running` flag. */
  class Monitor {
    const dbFile: string
    const store: Store
    var running: bool

    /** `__init__`: fixed store file name, tables created if missing. */
    constructor (store: Store)
      requires store.Valid()
      modifies store
      ensures dbFile == "simple_monitoring_sqlite.db" && this.store == store && running
      ensures store.Valid() && store.tables == AllTables
      ensures store.memory == old(store.memory) && store.cpu == old(store.cpu)
    {
      dbFile := "simple_monitoring_sqlite.db";
      this.store := store;
      running := true;
      new;
      store.InitDb();
    }

    /** One pass of the `log_metrics` loop: appends what `TickRows` says and nothing else. */
    method Tick(t: TickInput) returns (survives: bool)
      requires store.Valid() && store.tables == AllTables
      modifies store
      ensures store.Valid() && store.tables == AllTables
      ensures store.memory == old(store.memory) + TickRows(t).memory
      ensures store.cpu == old(store.cpu) + TickRows(t).cpu
      ensures survives == TickRows(t).survives
    {
      var timestamp := t.now;
      var proc := ProcessLocator.GetProcess(t.procs);
      if proc.None? {
        return true;
      }
      var memData := GetMemoryDetails(proc.value.readings);
      if memData.Escaped? {
        return false;
      }
      var cpuData := GetCpuDetails(proc.value.readings, t.cpuCount);
      if cpuData.Escaped? {
        return false;
      }
      if memData.Got? {
        store.InsertMemory(MemoryRowOf(timestamp, memData.value));
      }
      if cpuData.Got? {
        store.InsertCpu(CpuRowOf(timestamp, cpuData.value));
      }
      survives := true;
    }

    /**
     * `log_metrics`: while `running`, one tick per scheduled answer, until
     * the schedule ends or an exception escapes. Rows already in the store
     * stay as they are; the new ones are those of `Run`.
     */
    method LogMetrics(schedule: seq<TickInput>) returns (ran: nat)
      requires store.Valid() && store.tables == AllTables
      modifies store
      ensures store.Valid() && store.tables == AllTables
      ensures !running ==> ran == 0 && store.memory == old(store.memory) && store.cpu == old(store.cpu)
      ensures running ==> ran == Run(schedule).ran
      ensures running ==> store.memory == old(store.memory) + Run(schedule).memory
      ensures running ==> store.cpu == old(store.cpu) + Run(schedule).cpu
    {
      ghost var memory0, cpu0 := store.memory, store.cpu;
      ran := 0;
      var alive := true;
      assert schedule[..0] == [];
      while running && alive && ran < |schedule|
        invariant ran <= |schedule| && store.Valid() && store.tables == AllTables
        invariant !running ==> ran == 0
        invariant alive == Run(schedule[..ran]).alive && ran == Run(schedule[..ran]).ran
        invariant store.memory == memory0 + Run(schedule[..ran]).memory
        invariant store.cpu == cpu0 + Run(schedule[..ran]).cpu
      {
        ghost var done, step := Run(schedule[..ran]), TickRows(schedule[ran]);
        RunExtend(schedule, ran);
        alive := Tick(schedule[ran]);
        ran := ran + 1;
        AppendAssoc(memory0, done.memory, step.memory);
        AppendAssoc(cpu0, done.cpu, step.cpu);
      }
      if running {
        RunComplete(schedule, ran);
      }
    }

    /** The KeyboardInterrupt handler of `run`. */
    method Stop()
      modifies this
      ensures !running
    {
      running := false;
    }
  }

  // ---------------------------------------------------------------------
  // `plot_metrics`

  /** What `plot_metrics` does with the rows of the time window. */
  datatype Plot =
    | NotEnoughData
    | Figure(memory: seq<MemoryRow>, cpu: seq<CpuRow>, drawUss: bool, drawIowait: bool, hourInterval: nat, file: string)

  /**
   * `plot_metrics(hours)` over the rows inside the window: nothing is drawn
   * when either table has no row there; otherwise RSS and CPU % are drawn,
   * USS and I/O wait only when some row has a value, with an hour tick
   * every `max(1, hours // 6)` hours.
   */
  function PlotMetrics(memWindow: seq<MemoryRow>, cpuWindow: seq<CpuRow>, hours: int): (p: Plot)
    ensures p.NotEnoughData? <==> memWindow == [] || cpuWindow == []
    ensures p.Figure? ==> p.memory == memWindow && p.cpu == cpuWindow
    ensures p.Figure? ==> p.hourInterval >= 1
    ensures p.Figure? && hours >= 6 ==> 6 * p.hourInterval <= hours < 6 * p.hourInterval + 6
    ensures p.Figure? && hours < 12 ==> p.hourInterval == 1
    ensures p.Figure? ==> (p.drawUss <==> exists k :: 0 <= k < |memWindow| && memWindow[k].uss.Some?)
    ensures p.Figure? ==> (p.drawIowait <==> exists k :: 0 <= k < |cpuWindow| && cpuWindow[k].iowait.Some?)
    ensures p.Figure? ==> p.file == PlotFile
  {
    if |memWindow| == 0 || |cpuWindow| == 0 then NotEnoughData
    else Figure(memWindow, cpuWindow, AnyUss(memWindow), AnyIowait(cpuWindow), HourInterval(hours), PlotFile)
  }

  /** The image `plot_metrics` saves. */
  const PlotFile: string := "cardano_db_sync_metrics_from_simple_monitoring.png"

  /** Some memory row has a USS figure. */
  predicate AnyUss(rows: seq<MemoryRow>)
  {
    exists k :: 0 <= k < |rows| && rows[k].uss.Some?
  }

  /** Some CPU row has an I/O wait figure. */
  predicate AnyIowait(rows: seq<CpuRow>)
  {
    exists k :: 0 <= k < |rows| && rows[k].iowait.Some?
  }

  /** `max(1, hours // 6)`: about a sixth of the window, and at least one hour. */
  function HourInterval(hours: int): (n: int)
    ensures n >= 1
    ensures hours >= 6 ==> 6 * n <= hours < 6 * n + 6
    ensures hours < 12 ==> n == 1
  {
    // Python's `//` floors; for the positive divisor 6 Dafny's `/` agrees.
    if hours / 6 >= 1 then hours / 6 else 1
  }
}
