/**
 * What the operating system reports about a process, as the scripts read it
 * through psutil. The platform calls themselves are not modelled: each call
 * is represented by the value it returns or the exception it raises, and a
 * platform-dependent attribute (`shared`, `uss`, `iowait`, ...) by an Option.
 * Byte counts and times are reals.
 */
module Platform {
  import opened Wrappers

  /** The exceptions a psutil call can raise. */
  datatype Exc = NoSuchProcess | AccessDenied | AttributeError | OtherError

  /** The outcome of one psutil call. */
  datatype Call<+T> = Returned(value: T) | Raised(exc: Exc)

  /** `memory_info()`: `shared` exists only on some platforms. */
  datatype MemInfo = MemInfo(rss: real, vms: real, shared: Option<real>)

  /** `memory_full_info()`: `uss`, `pss` and `swap` exist only on some platforms. */
  datatype MemFullInfo = MemFullInfo(uss: Option<real>, pss: Option<real>, swap: Option<real>)

  /** `cpu_times()`: children times and `iowait` exist only on some platforms. */
  datatype CpuTimes = CpuTimes(
    user: real, system: real,
    childrenUser: Option<real>, childrenSystem: Option<real>,
    iowait: Option<real>)

  /** `num_ctx_switches()`. */
  datatype CtxSwitches = CtxSwitches(voluntary: nat, involuntary: nat)

  /** What each psutil call on one process gives during one tick. */
  datatype Readings = Readings(
    memoryInfo: Call<MemInfo>,
    memoryFullInfo: Call<MemFullInfo>,
    cpuTimes: Call<CpuTimes>,
    cpuPercent: Call<real>,
    numCtxSwitches: Call<CtxSwitches>)

  /**
   * One entry of `psutil.process_iter(['name', 'cmdline'])`: its `cmdline`
   * is None (or missing) when psutil could not read it.
   */
  datatype ProcInfo = ProcInfo(pid: nat, cmdline: Option<seq<string>>, readings: Readings)

  /** Bytes to MiB, as `/ 1024**2` and `/ 1024 / 1024` do (exactly, on reals). */
  function Mb(bytes: real): (r: real)
    ensures r * 1048576.0 == bytes
    ensures bytes >= 0.0 ==> 0.0 <= r <= bytes
  {
    bytes / 1048576.0
  }
}
