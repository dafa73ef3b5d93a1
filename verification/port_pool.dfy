/** The host-port pool: which ports of the tracker's range are taken, and by which container
 *  handle, together with the grouped form the state file stores. */
module PortPool {
  import opened Wrappers
  import opened Errors
  import Words

  type Port = p: int | 0 <= p < 0x1_0000

  /** `Pool.AcquiredPorts`. */
  type Pool = map<Port, string>

  /** The state file's `acquired_ports`: each handle with the ports it holds. */
  type Groups = map<string, seq<Port>>

  datatype Tracker = Tracker(startPort: Port, capacity: Port)

  const ErrPortPoolExhausted: Error := Msg("port pool exhausted")

  /** The i-th port the tracker hands out: `StartPort + i` in 16-bit arithmetic. */
  function Candidate(t: Tracker, i: nat): (p: Port)
    ensures p == Words.Uint16(t.startPort + i)
  {
    (t.startPort + i) % 0x1_0000
  }

  // ---------------------------------------------------------------------------------------
  // Range membership
  // ---------------------------------------------------------------------------------------

  /** `Tracker.InRange` as written: the upper bound `StartPort+Capacity` is a uint16 sum, so it
   *  wraps when the range reaches past 65535. */
  predicate InRangeAsWritten(t: Tracker, port: Port)
  {
    port >= t.startPort && port < Words.Uint16(t.startPort + t.capacity)
  }

  /** The ports `AcquireOne` can hand out: those at an offset below the capacity from the start,
   *  counting round past 65535. */
  predicate InRange(t: Tracker, port: Port)
  {
    (port - t.startPort) % 0x1_0000 < t.capacity
  }

  /** Where the range ends below 65535 the two readings agree. */
  lemma InRangeAgreesWithoutWrap(t: Tracker, port: Port)
    requires t.startPort + t.capacity < 0x1_0000
    ensures InRangeAsWritten(t, port) <==> InRange(t, port)
  {
    if port >= t.startPort {
      assert (port - t.startPort) % 0x1_0000 == port - t.startPort;
    } else {
      assert (port - t.startPort) % 0x1_0000 == port - t.startPort + 0x1_0000;
    }
  }

  /** A range that reaches 65535 wraps its bound: ports the tracker hands out read as outside it. */
  lemma InRangeAsWrittenMissesWrappedRange()
    ensures InRange(Tracker(65530, 10), 65531) && Candidate(Tracker(65530, 10), 1) == 65531
    ensures !InRangeAsWritten(Tracker(65530, 10), 65531)
    ensures !InRangeAsWritten(Tracker(65000, 536), 65000) && Candidate(Tracker(65000, 536), 0) == 65000
  {
  }

  /** The offset of a port from the start of the range, counting round past 65535. */
  function Offset(t: Tracker, port: Port): (i: nat)
    ensures i < 0x1_0000 && Candidate(t, i) == port
    ensures InRange(t, port) <==> i < t.capacity
  {
    var i := (port - t.startPort) % 0x1_0000;
    OffsetCandidate(t.startPort, port);
    i
  }

  lemma OffsetCandidate(s: Port, port: Port)
    ensures (s + (port - s) % 0x1_0000) % 0x1_0000 == port
  {
    if port >= s {
      assert (port - s) % 0x1_0000 == port - s;
    } else {
      assert (port - s) % 0x1_0000 == port - s + 0x1_0000;
    }
  }

  /** The offset of the i-th candidate is i. */
  lemma CandidateOffset(t: Tracker, i: nat)
    requires i < 0x1_0000
    ensures Offset(t, Candidate(t, i)) == i
  {
    var p := Candidate(t, i);
    if t.startPort + i < 0x1_0000 {
      assert p == t.startPort + i;
    } else {
      assert p == t.startPort + i - 0x1_0000;
      assert p - t.startPort == i - 0x1_0000;
    }
  }

  // ---------------------------------------------------------------------------------------
  // Acquire and release
  // ---------------------------------------------------------------------------------------

  /** `Tracker.AcquireOne`: the first free candidate, recorded for the handle. */
  method AcquireOne(t: Tracker, pool: Pool, handle: string) returns (r: Result<Port, Error>, after: Pool)
    ensures r.Success? ==> r.value !in pool && InRange(t, r.value) && after == pool[r.value := handle]
    ensures r.Success? ==> forall j :: 0 <= j < Offset(t, r.value) ==> Candidate(t, j) in pool
    ensures r.Failure? ==> r.error == ErrPortPoolExhausted && after == pool
    ensures r.Failure? <==> forall i :: 0 <= i < t.capacity ==> Candidate(t, i) in pool
  {
    var i := 0;
    while i < t.capacity
      invariant 0 <= i <= t.capacity
      invariant forall j :: 0 <= j < i ==> Candidate(t, j) in pool
    {
      var candidate := Candidate(t, i);
      if candidate !in pool {
        CandidateOffset(t, i);
        return Success(candidate), pool[candidate := handle];
      }
      i := i + 1;
    }
    return Failure(ErrPortPoolExhausted), pool;
  }

  /** `Tracker.ReleaseAll`: every port of the handle is freed; it never fails. */
  function ReleaseAll(pool: Pool, handle: string): (r: (Outcome<Error>, Pool))
    ensures r.0 == Pass
    ensures forall p :: p in r.1 <==> p in pool && pool[p] != handle
    ensures forall p :: p in r.1 ==> r.1[p] == pool[p]
  {
    (Pass, map p | p in pool && pool[p] != handle :: pool[p])
  }

  /** Releasing a handle that held nothing before it acquired a port gives back the pool as it was. */
  method AcquireThenRelease(t: Tracker, pool: Pool, handle: string) returns (restored: Pool)
    requires forall p :: p in pool ==> pool[p] != handle
    ensures restored == pool
  {
    var r, after := AcquireOne(t, pool, handle);
    restored := ReleaseAll(after, handle).1;
  }

  // ---------------------------------------------------------------------------------------
  // The state file's grouping. Go visits a map in no fixed order, so both conversions take the
  // visiting order as a parameter: any enumeration of the keys.
  // ---------------------------------------------------------------------------------------

  ghost predicate Enumerates<K(!new)>(order: seq<K>, keys: set<K>)
  {
    (forall i, j :: 0 <= i < j < |order| ==> order[i] != order[j]) && (forall k :: k in order <==> k in keys)
  }

  /** Every listed port belongs to the handle it is listed under. */
  ghost predicate ListsOwners(g: Groups, pool: Pool, order: seq<Port>)
  {
    forall h, p :: h in g && p in g[h] ==> p in order && p in pool && pool[p] == h
  }

  /** Every visited port is listed under its handle. */
  ghost predicate ListsVisited(g: Groups, pool: Pool, order: seq<Port>)
  {
    forall p :: p in order ==> p in pool && pool[p] in g && p in g[pool[p]]
  }

  /** `Pool.MarshalJSON`: each port appended to its handle's list, in visiting order. */
  function Group(pool: Pool, order: seq<Port>): (g: Groups)
    requires forall p :: p in order ==> p in pool
    ensures ListsOwners(g, pool, order) && ListsVisited(g, pool, order)
    decreases |order|
  {
    if |order| == 0 then map[]
    else
      var init := order[..|order| - 1];
      var g := Group(pool, init);
      var p := order[|order| - 1];
      var h := pool[p];
      var g' := g[h := (if h in g then g[h] else []) + [p]];
      GroupStep(g, pool, init, p);
      assert order == init + [p];
      g'
  }

  lemma GroupStep(g: Groups, pool: Pool, init: seq<Port>, p: Port)
    requires p in pool && ListsOwners(g, pool, init) && ListsVisited(g, pool, init)
    ensures var h := pool[p];
            var g' := g[h := (if h in g then g[h] else []) + [p]];
            ListsOwners(g', pool, init + [p]) && ListsVisited(g', pool, init + [p])
  {
    var h := pool[p];
    var g' := g[h := (if h in g then g[h] else []) + [p]];
    forall k, q | k in g' && q in g'[k]
      ensures q in init + [p] && q in pool && pool[q] == k
    {
      if k != h || q != p {
        assert q in g[k];
      }
    }
    forall q | q in init + [p]
      ensures q in pool && pool[q] in g' && q in g'[pool[q]]
    {
      if q != p {
        assert q in init;
        assert q in g[pool[q]];
      }
    }
  }

  /** `Pool.UnmarshalJSON`: every listed port mapped to its handle, handles in visiting order. */
  function Ungroup(groups: Groups, handles: seq<string>): (pool: Pool)
    requires forall h :: h in handles ==> h in groups
    ensures forall h, p :: h in handles && p in groups[h] ==> p in pool
    ensures forall p :: p in pool ==> pool[p] in handles && p in groups[pool[p]]
    decreases |handles|
  {
    if |handles| == 0 then map[]
    else
      var m := Ungroup(groups, handles[..|handles| - 1]);
      var h := handles[|handles| - 1];
      m + map p | p in groups[h] :: h
  }

  /** Writing the pool to the state file and reading it back gives the same pool, whatever order
   *  either side visits its map in. */
  lemma {:induction false} GroupRoundTrip(pool: Pool, order: seq<Port>, handles: seq<string>)
    requires Enumerates(order, pool.Keys)
    requires Enumerates(handles, Group(pool, order).Keys)
    ensures Ungroup(Group(pool, order), handles) == pool
  {
    UngroupInverts(Group(pool, order), pool, order, handles);
  }

  lemma UngroupInverts(g: Groups, pool: Pool, order: seq<Port>, handles: seq<string>)
    requires ListsOwners(g, pool, order) && ListsVisited(g, pool, order)
    requires forall p :: p in order <==> p in pool
    requires forall h :: h in handles <==> h in g
    ensures Ungroup(g, handles) == pool
  {
    var back := Ungroup(g, handles);
    forall p | p in pool
      ensures p in back && back[p] == pool[p]
    {
      UngroupFinds(g, pool, order, handles, p);
    }
    forall p | p in back
      ensures p in pool
    {
      assert back[p] in g && p in g[back[p]];
    }
    SameEntries(pool, back);
  }

  /** Two maps with the same keys and the same value at each key are equal. */
  lemma SameEntries(a: Pool, b: Pool)
    requires forall p :: p in a ==> p in b && b[p] == a[p]
    requires forall p :: p in b ==> p in a
    ensures a == b
  {
    assert a.Keys == b.Keys;
  }

  /** A port of the pool comes back with its own handle. */
  lemma UngroupFinds(g: Groups, pool: Pool, order: seq<Port>, handles: seq<string>, p: Port)
    requires ListsOwners(g, pool, order) && ListsVisited(g, pool, order)
    requires forall p :: p in order <==> p in pool
    requires forall h :: h in handles <==> h in g
    requires p in pool
    ensures p in Ungroup(g, handles) && Ungroup(g, handles)[p] == pool[p]
  {
    var back := Ungroup(g, handles);
    var h := pool[p];
    assert p in order;
    assert h in handles && p in g[h];
    var k := back[p];
    assert k in g && p in g[k];
  }

  /** Each handle's list in the state file holds exactly its ports, and every handle with a port has a list. */
  lemma GroupContents(pool: Pool, order: seq<Port>, h: string)
    requires Enumerates(order, pool.Keys)
    ensures h in Group(pool, order) ==> forall p :: p in Group(pool, order)[h] <==> p in pool && pool[p] == h
    ensures (exists p :: p in pool && pool[p] == h) ==> h in Group(pool, order)
  {
    ListedExactly(Group(pool, order), pool, order, h);
  }

  lemma ListedExactly(g: Groups, pool: Pool, order: seq<Port>, h: string)
    requires ListsOwners(g, pool, order) && ListsVisited(g, pool, order)
    requires forall p :: p in order <==> p in pool
    ensures h in g ==> forall p :: p in g[h] <==> p in pool && pool[p] == h
    ensures (exists p :: p in pool && pool[p] == h) ==> h in g
  {
    if h in g {
      forall p | p in pool && pool[p] == h
        ensures p in g[h]
      {
        assert p in order;
      }
    }
    if exists p :: p in pool && pool[p] == h {
      var p :| p in pool && pool[p] == h;
      assert p in order;
    }
  }
}
