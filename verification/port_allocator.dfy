/** The locked state-file protocol around the port pool: open the lock, decode the pool, change
 *  it, write it back. */
module PortAllocator {
  import opened Wrappers
  import opened Errors
  import opened PortPool

  /** What the state file answers: whether the lock opens, the pool it decodes to, and whether
   *  overwriting it with a given pool succeeds. */
  datatype StateFile = StateFile(lock: Outcome<Error>, contents: Result<Pool, Error>, overwrite: Pool -> Outcome<Error>)

  datatype FileStep = OpenLock | Decode | Overwrite(pool: Pool)

  const ErrPortFromRange: Error := Msg("cannot specify port from allocation range")

  /** The check `AllocatePort` makes of a port the caller asked for, through `Tracker.InRange` as it
   *  is written: a port inside the range is refused, any other is granted without touching the pool. */
  function CheckRequested(t: Tracker, port: Port): (r: Result<Port, Error>)
    ensures r.Success? <==> !InRangeAsWritten(t, port)
    ensures r.Success? ==> r.value == port
    ensures r.Failure? ==> r.error == ErrPortFromRange
  {
    if InRangeAsWritten(t, port) then Failure(ErrPortFromRange) else Success(port)
  }

  /** The same check over the wrap-aware range, which refuses every port the pool can hand out. */
  function CheckRequestedIntended(t: Tracker, port: Port): (r: Result<Port, Error>)
    ensures r.Success? <==> !InRange(t, port)
    ensures r.Success? ==> r.value == port && forall i :: 0 <= i < t.capacity ==> Candidate(t, i) != port
    ensures r.Failure? ==> r.error == ErrPortFromRange
  {
    if InRange(t, port) then Failure(ErrPortFromRange)
    else
      assert forall i :: 0 <= i < t.capacity ==> Candidate(t, i) != port by {
        forall i | 0 <= i < t.capacity ensures Candidate(t, i) != port {
          CandidateOffset(t, i);
        }
      }
      Success(port)
  }

  /** Where the range ends below 65536 the two checks agree. */
  lemma CheckRequestedAgreesWithoutWrap(t: Tracker, port: Port)
    requires t.startPort + t.capacity < 0x1_0000
    ensures CheckRequested(t, port) == CheckRequestedIntended(t, port)
  {
    InRangeAgreesWithoutWrap(t, port);
  }

  /** With a range reaching past 65535, a caller asking for 65531 is granted it, although the pool
   *  hands the same port out as its second candidate; the wrap-aware check refuses it. */
  lemma RequestedPortCollidesWithPool()
    ensures CheckRequested(Tracker(65530, 10), 65531) == Success(65531)
    ensures Candidate(Tracker(65530, 10), 1) == 65531
    ensures CheckRequestedIntended(Tracker(65530, 10), 65531) == Failure(ErrPortFromRange)
  {
    InRangeAsWrittenMissesWrappedRange();
  }

  /** `PortAllocator.AllocatePort`. A requested port is only checked against the range; port 0
   *  takes the next free port of the pool and records it in the state file. */
  method AllocatePort(t: Tracker, f: StateFile, handle: string, port: Port) returns (r: Result<Port, Error>, steps: seq<FileStep>)
    ensures port != 0 ==> steps == [] && r == if InRangeAsWritten(t, port) then Failure(ErrPortFromRange) else Success(port)
    ensures port == 0 && f.lock.Fail? ==> r == Failure(Wrap("open lock: ", f.lock.error)) && steps == [OpenLock]
    ensures port == 0 && f.lock.Pass? && f.contents.Failure? ==>
              r == Failure(Wrap("decoding state file: ", f.contents.error)) && steps == [OpenLock, Decode]
    ensures port == 0 && f.lock.Pass? && f.contents.Success? ==>
              |steps| >= 2 && steps[..2] == [OpenLock, Decode]
              && ((forall i :: 0 <= i < t.capacity ==> Candidate(t, i) in f.contents.value) <==>
                    r == Failure(Wrap("acquire port: ", ErrPortPoolExhausted)) && steps == [OpenLock, Decode])
    ensures r.Success? && port == 0 ==>
              f.contents.Success? && r.value !in f.contents.value && InRange(t, r.value)
              && steps == [OpenLock, Decode, Overwrite(f.contents.value[r.value := handle])]
              && f.overwrite(f.contents.value[r.value := handle]) == Pass
    ensures r.Failure? && |steps| == 3 ==>
              f.contents.Success? && steps[2].Overwrite? && f.overwrite(steps[2].pool).Fail?
              && r.error == Wrap("encode and overwrite: ", f.overwrite(steps[2].pool).error)
  {
    if port != 0 {
      if InRangeAsWritten(t, port) {
        return Failure(ErrPortFromRange), [];
      } else {
        return Success(port), [];
      }
    }
    if f.lock.Fail? {
      return Failure(Wrap("open lock: ", f.lock.error)), [OpenLock];
    }
    if f.contents.Failure? {
      return Failure(Wrap("decoding state file: ", f.contents.error)), [OpenLock, Decode];
    }
    var acquired, pool := AcquireOne(t, f.contents.value, handle);
    if acquired.Failure? {
      return Failure(Wrap("acquire port: ", acquired.error)), [OpenLock, Decode];
    }
    var written := f.overwrite(pool);
    if written.Fail? {
      return Failure(Wrap("encode and overwrite: ", written.error)), [OpenLock, Decode, Overwrite(pool)];
    }
    return Success(acquired.value), [OpenLock, Decode, Overwrite(pool)];
  }

  /** `PortAllocator.ReleaseAllPorts`: the handle's ports are freed in the state file. */
  function ReleaseAllPorts(f: StateFile, handle: string): (out: (Outcome<Error>, seq<FileStep>))
    ensures f.lock.Fail? ==> out == (Fail(Wrap("open lock: ", f.lock.error)), [OpenLock])
    ensures f.lock.Pass? && f.contents.Failure? ==> out == (Fail(Wrap("decoding state file: ", f.contents.error)), [OpenLock, Decode])
    ensures f.lock.Pass? && f.contents.Success? ==>
              |out.1| == 3 && out.1[2].Overwrite?
              && (forall p :: p in out.1[2].pool <==> p in f.contents.value && f.contents.value[p] != handle)
              && (out.0.Pass? <==> f.overwrite(out.1[2].pool).Pass?)
  {
    if f.lock.Fail? then (Fail(Wrap("open lock: ", f.lock.error)), [OpenLock])
    else if f.contents.Failure? then (Fail(Wrap("decoding state file: ", f.contents.error)), [OpenLock, Decode])
    else
      // `Tracker.ReleaseAll` never fails, so its "release all ports: " wrapping cannot occur.
      var pool := ReleaseAll(f.contents.value, handle).1;
      var written := f.overwrite(pool);
      (if written.Fail? then Fail(Wrap("encode and overwrite: ", written.error)) else Pass, [OpenLock, Decode, Overwrite(pool)])
  }
}
