/** The container statistics the runtime reports: memory committed and CPU time, the CPU
 *  counters turned from 100-nanosecond ticks into nanoseconds in unsigned 64-bit arithmetic. */
module ContainerStats {
  import opened Wrappers
  import opened Errors
  import Words

  /** The parts of `hcsshim.Statistics` read here; each is a `uint64`. */
  datatype Raw = Raw(usageCommitBytes: nat, totalRuntime100ns: nat, runtimeUser100ns: nat, runtimeKernel100ns: nat)

  predicate RawInRange(s: Raw)
  {
    s.usageCommitBytes < Words.TWO_64 && s.totalRuntime100ns < Words.TWO_64
    && s.runtimeUser100ns < Words.TWO_64 && s.runtimeKernel100ns < Words.TWO_64
  }

  /** `ContainerStats` / `Statistics`: `total_rss`, and the `total`, `user` and `kernel` CPU times. */
  datatype Stats = Stats(totalRss: nat, usage: nat, user: nat, system: nat)

  /** The zero value returned next to an error. */
  const NO_STATS: Stats := Stats(0, 0, 0, 0)

  const TICK_NS: nat := 100

  /** The largest tick count whose nanosecond value still fits in 64 bits. */
  const MAX_EXACT_TICKS: nat := (Words.TWO_64 - 1) / TICK_NS

  /** `ticks * 100` in `uint64`. */
  function Nanoseconds(ticks: nat): (ns: nat)
    ensures ns < Words.TWO_64
    ensures (ticks * TICK_NS - ns) % Words.TWO_64 == 0
  {
    Words.Uint64(ticks * TICK_NS)
  }

  /** Up to `MAX_EXACT_TICKS` the conversion is exact and can be undone; one tick more and it
   *  wraps around to a smaller value. */
  lemma NanosecondsExactBelowLimit(ticks: nat)
    ensures ticks <= MAX_EXACT_TICKS ==> Nanoseconds(ticks) == ticks * TICK_NS && Nanoseconds(ticks) / TICK_NS == ticks
    ensures ticks == MAX_EXACT_TICKS + 1 ==> Nanoseconds(ticks) < ticks * TICK_NS && Nanoseconds(ticks) < TICK_NS
  {
    if ticks == MAX_EXACT_TICKS + 1 {
      assert ticks * TICK_NS == Words.TWO_64 + 84;
    }
  }

  /** `Collect` (and the managers' `Stats` after opening the container): a statistics error is
   *  returned with the zero value; otherwise the committed bytes and the three CPU times. */
  function Collect(statistics: Result<Raw, Error>): (r: (Stats, Outcome<Error>))
    ensures statistics.Failure? ==> r == (NO_STATS, Fail(statistics.error))
    ensures statistics.Success? ==> r.1.Pass? && r.0.totalRss == statistics.value.usageCommitBytes
    ensures statistics.Success? ==>
              var s := statistics.value;
              r.0.usage == Nanoseconds(s.totalRuntime100ns) && r.0.user == Nanoseconds(s.runtimeUser100ns)
              && r.0.system == Nanoseconds(s.runtimeKernel100ns)
  {
    if statistics.Failure? then (NO_STATS, Fail(statistics.error))
    else
      var s := statistics.value;
      (Stats(s.usageCommitBytes, Nanoseconds(s.totalRuntime100ns), Nanoseconds(s.runtimeUser100ns), Nanoseconds(s.runtimeKernel100ns)), Pass)
  }

  /** Read back in ticks, collected statistics are the raw counters whenever those are small
   *  enough not to wrap, and every reported field fits in 64 bits. */
  lemma CollectInvertible(s: Raw)
    requires RawInRange(s)
    ensures var c := Collect(Success(s)).0;
            c.totalRss < Words.TWO_64 && c.usage < Words.TWO_64 && c.user < Words.TWO_64 && c.system < Words.TWO_64
    ensures var c := Collect(Success(s)).0;
            s.totalRuntime100ns <= MAX_EXACT_TICKS && s.runtimeUser100ns <= MAX_EXACT_TICKS && s.runtimeKernel100ns <= MAX_EXACT_TICKS
            ==> c.usage / TICK_NS == s.totalRuntime100ns && c.user / TICK_NS == s.runtimeUser100ns
                && c.system / TICK_NS == s.runtimeKernel100ns
  {
    NanosecondsExactBelowLimit(s.totalRuntime100ns);
    NanosecondsExactBelowLimit(s.runtimeUser100ns);
    NanosecondsExactBelowLimit(s.runtimeKernel100ns);
  }
}
