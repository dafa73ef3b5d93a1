/** Windows process records as the compute service lists them, and the container's "pid": the
 *  oldest `wininit.exe` started before now. */
module ProcessList {
  import opened Wrappers
  import opened Errors
  import opened Text

  /** `syscall.Filetime`: two 32-bit halves; the zero value means "no start time recorded". */
  datatype Filetime = Filetime(low: nat, high: nat)

  const ZERO_TIME: Filetime := Filetime(0, 0)

  /** `%+v` of a `syscall.Filetime`. */
  function FiletimeText(t: Filetime): string
  {
    "{LowDateTime:" + Decimal(t.low) + " HighDateTime:" + Decimal(t.high) + "}"
  }

  /** The parts of `hcsshim.ProcessListItem` read here. Timestamps are instants on one clock. */
  datatype Item = Item(processId: nat, imageName: string, createTimestamp: int)

  const WININIT: string := "wininit.exe"

  /** A candidate against the running minimum `bound`: a `wininit.exe` created strictly before it. */
  predicate Qualifies(v: Item, bound: int)
  {
    v.imageName == WININIT && v.createTimestamp < bound
  }

  /** `j` is, among the first `n` items, a `wininit.exe` created before `now`, no later than any
   *  other such item, and strictly earlier than every such item listed before it. */
  ghost predicate OldestAmong(pl: seq<Item>, now: int, n: nat, j: nat)
    requires n <= |pl|
  {
    j < n && Qualifies(pl[j], now)
    && (forall i :: 0 <= i < n && Qualifies(pl[i], now) ==> pl[j].createTimestamp <= pl[i].createTimestamp)
    && (forall i :: 0 <= i < j && Qualifies(pl[i], now) ==> pl[j].createTimestamp < pl[i].createTimestamp)
  }

  /** The loop over the first `n` items: an item replaces the current choice only when it is
   *  strictly older, so ties keep the first. */
  function SelectOldest(pl: seq<Item>, now: int, n: nat): (r: Option<nat>)
    requires n <= |pl|
    ensures r.None? <==> forall i :: 0 <= i < n ==> !Qualifies(pl[i], now)
    ensures r.Some? ==> OldestAmong(pl, now, n, r.value)
  {
    if n == 0 then None
    else
      var prev := SelectOldest(pl, now, n - 1);
      var bound := if prev.None? then now else pl[prev.value].createTimestamp;
      if Qualifies(pl[n - 1], bound) then Some(n - 1) else prev
  }

  /** At most one position meets the selection rule, so the chosen process is determined by the list. */
  lemma OldestUnique(pl: seq<Item>, now: int, j1: nat, j2: nat)
    requires OldestAmong(pl, now, |pl|, j1) && OldestAmong(pl, now, |pl|, j2)
    ensures j1 == j2
  {
  }

  /** The pid the state managers report: the oldest qualifying process's id, or the zero value's 0. */
  function OldestWininitPid(pl: seq<Item>, now: int): (pid: nat)
    ensures (forall i :: 0 <= i < |pl| ==> !Qualifies(pl[i], now)) ==> pid == 0
    ensures forall j :: 0 <= j < |pl| && OldestAmong(pl, now, |pl|, j) ==> pid == pl[j].processId
  {
    var chosen := SelectOldest(pl, now, |pl|);
    if chosen.None? then 0
    else
      forall j | 0 <= j < |pl| && OldestAmong(pl, now, |pl|, j)
        ensures j == chosen.value
      {
        OldestUnique(pl, now, j, chosen.value);
      }
      pl[chosen.value].processId
  }

  /** `ContainerPid`: open the container and list its processes; either failure gives -1 and the error. */
  function ContainerPid(openAnswer: Outcome<Error>, listed: Result<seq<Item>, Error>, now: int): (r: (int, Outcome<Error>))
    ensures openAnswer.Fail? ==> r == (-1, openAnswer)
    ensures openAnswer.Pass? && listed.Failure? ==> r == (-1, Fail(listed.error))
    ensures openAnswer.Pass? && listed.Success? ==> r.1.Pass? && r.0 >= 0
    ensures openAnswer.Pass? && listed.Success? ==>
              (forall i :: 0 <= i < |listed.value| ==> listed.value[i].imageName != WININIT) ==> r.0 == 0
    ensures openAnswer.Pass? && listed.Success? ==>
              forall j :: 0 <= j < |listed.value| && OldestAmong(listed.value, now, |listed.value|, j)
                ==> r.0 == listed.value[j].processId
  {
    if openAnswer.Fail? then (-1 as int, openAnswer)
    else if listed.Failure? then (-1 as int, Fail(listed.error))
    else (OldestWininitPid(listed.value, now), Pass)
  }
}
