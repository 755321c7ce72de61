/**
 * `get_process`, identical in both monitors: the first process, in the
 * order psutil lists them, whose command line joined with spaces contains
 * "cardano-db-sync".
 */
module ProcessLocator {
  import opened Wrappers
  import opened Text
  import opened Platform

  const Target: string := "cardano-db-sync"

  /** `' '.join(cmdline or [])`: an unreadable command line counts as empty. */
  function CommandLine(p: ProcInfo): string {
    Join(" ", p.cmdline.GetOr([]))
  }

  predicate Matches(p: ProcInfo) {
    Contains(CommandLine(p), Target)
  }

  /** The position of the first matching process. */
  function FirstMatch(procs: seq<ProcInfo>): (r: Option<nat>)
    ensures r.Some? ==> r.value < |procs| && Matches(procs[r.value])
    ensures r.Some? ==> forall j :: 0 <= j < r.value ==> !Matches(procs[j])
    ensures r.None? <==> forall j :: 0 <= j < |procs| ==> !Matches(procs[j])
  {
    if |procs| == 0 then None
    else if Matches(procs[0]) then Some(0)
    else match FirstMatch(procs[1..])
      case None => None
      case Some(i) => Some(i + 1)
  }

  /** The process `get_process` returns. */
  function Located(procs: seq<ProcInfo>): Option<ProcInfo> {
    match FirstMatch(procs)
    case None => None
    case Some(i) => Some(procs[i])
  }

  /** `get_process`: scans the listing and returns at the first match. */
  method GetProcess(procs: seq<ProcInfo>) returns (r: Option<ProcInfo>)
    ensures r == Located(procs)
  {
    for i := 0 to |procs|
      invariant forall j :: 0 <= j < i ==> !Matches(procs[j])
    {
      if Matches(procs[i]) {
        return Some(procs[i]);
      }
    }
    return None;
  }

  /**
   * The target name holds no space, so a process matches exactly when one
   * single argument of its command line contains the name.
   */
  lemma MatchesIffOneArgument(p: ProcInfo)
    ensures Matches(p) <==>
            exists i :: 0 <= i < |p.cmdline.GetOr([])| && Contains(p.cmdline.GetOr([])[i], Target)
  {
    assert ' ' !in Target;
    ContainsJoin(' ', p.cmdline.GetOr([]), Target);
  }
}
