/** The room list behind its cache: loadCachedRoomSummaries and invalidateListCache of
    dealroom/service.go (615-651, 736-743) over the TTL store of dealroom/cache.go, as the
    steps of concurrent readers, loads, writers and invalidations.  A database load is one
    atomic read; every server process has its own single flight, the cache is shared.  Readers join a
    flight up to the moment it ends, also after it has found its list. */
module ListCache {
  import opened Options

  /** listCacheTTL, in seconds. */
  const LIST_CACHE_TTL: nat := 20

  type ProcessId = nat
  type ReaderId = nat

  /** A list that a load read from the database, and when. */
  datatype Snapshot<V> = Snapshot(value: V, version: nat, loadedAt: nat)

  /** A cache entry lives from setAt until LIST_CACHE_TTL later. */
  datatype Entry<V> = Entry(snapshot: Snapshot<V>, setAt: nat)

  /** What a flight does next: look at the cache again, read the database, fill the cache, or end and hand
      the list it has found to the waiters. */
  datatype Phase<V> = Checking | Loading | Loaded(snapshot: Snapshot<V>) | Ready(snapshot: Snapshot<V>)

  datatype Flight<V> = Flight(startedAt: nat, phase: Phase<V>)

  /** A reader that found nothing in the cache waits for a flight of its process. */
  datatype Reader<V> = Missed | Waiting(process: ProcessId) | Got(snapshot: Snapshot<V>, at: nat) | Failed

  datatype Write<V> = Write(value: V, at: nat)

  /** writes holds every value the database had, oldest first; it is never empty. */
  datatype State<V> = State(
    now: nat, writes: seq<Write<V>>, cache: Option<Entry<V>>,
    flights: map<ProcessId, Flight<V>>, readers: map<ReaderId, Reader<V>>)

  /** ReadMiss: absent, expired, or the cache failed.  Join starts a flight or joins the one there is. */
  datatype Action<V> =
    | Tick
    | WriteDb(value: V)
    | Invalidate
    | ReadHit(reader: ReaderId)
    | ReadMiss(reader: ReaderId)
    | Join(reader: ReaderId, process: ProcessId)
    | RecheckHit(process: ProcessId)
    | RecheckMiss(process: ProcessId)
    | Load(process: ProcessId)
    | LoadFails(process: ProcessId)
    | Store(process: ProcessId)
    | StoreFails(process: ProcessId)
    | Finish(process: ProcessId)

  predicate Readable<V>(st: State<V>) { st.cache.Some? && st.now < st.cache.value.setAt + LIST_CACHE_TTL }

  /** maxLoad bounds how long a flight takes: time does not pass beyond it. */
  ghost predicate Enabled<V(!new)>(st: State<V>, a: Action<V>, maxLoad: nat) {
    match a
    case Tick => forall p :: p in st.flights ==> st.now + 1 <= st.flights[p].startedAt + maxLoad
    case WriteDb(_) => true
    case Invalidate => true
    case ReadHit(r) => r !in st.readers && Readable(st)
    case ReadMiss(r) => r !in st.readers
    case Join(r, _) => r in st.readers && st.readers[r].Missed?
    case RecheckHit(p) => p in st.flights && st.flights[p].phase.Checking? && Readable(st)
    case RecheckMiss(p) => p in st.flights && st.flights[p].phase.Checking?
    case Load(p) => p in st.flights && st.flights[p].phase.Loading? && st.writes != []
    case LoadFails(p) => p in st.flights && st.flights[p].phase.Loading?
    case Store(p) => p in st.flights && st.flights[p].phase.Loaded?
    case StoreFails(p) => p in st.flights && st.flights[p].phase.Loaded?
    case Finish(p) => p in st.flights && st.flights[p].phase.Ready?
  }

  function Deliver<V>(st: State<V>, p: ProcessId, result: Reader<V>): State<V> {
    st.(flights := st.flights - {p},
        readers := map r | r in st.readers :: if st.readers[r] == Waiting(p) then result else st.readers[r])
  }

  function Advance<V>(st: State<V>, p: ProcessId, phase: Phase<V>): State<V>
    requires p in st.flights
  {
    st.(flights := st.flights[p := st.flights[p].(phase := phase)])
  }

  ghost function Do<V(!new)>(st: State<V>, a: Action<V>, maxLoad: nat): State<V>
    requires Enabled(st, a, maxLoad)
  {
    match a
    case Tick => st.(now := st.now + 1)
    case WriteDb(v) => st.(writes := st.writes + [Write(v, st.now)])
    case Invalidate => st.(cache := None)
    case ReadHit(r) => st.(readers := st.readers[r := Got(st.cache.value.snapshot, st.now)])
    case ReadMiss(r) => st.(readers := st.readers[r := Missed])
    case Join(r, p) =>
      st.(readers := st.readers[r := Waiting(p)],
          flights := if p in st.flights then st.flights else st.flights[p := Flight(st.now, Checking)])
    case RecheckHit(p) => Advance(st, p, Ready(st.cache.value.snapshot))
    case RecheckMiss(p) => Advance(st, p, Loading)
    case Load(p) =>
      var n := |st.writes| - 1;
      Advance(st, p, Loaded(Snapshot(st.writes[n].value, n, st.now)))
    case LoadFails(p) => Deliver(st, p, Failed)
    case Store(p) =>
      var s := st.flights[p].phase.snapshot;
      Advance(st, p, Ready(s)).(cache := Some(Entry(s, st.now)))
    case StoreFails(p) => Advance(st, p, Ready(st.flights[p].phase.snapshot))
    case Finish(p) => Deliver(st, p, Got(st.flights[p].phase.snapshot, st.now))
  }

  ghost predicate CanRun<V(!new)>(st: State<V>, actions: seq<Action<V>>, maxLoad: nat)
    decreases |actions|
  {
    actions == [] ||
    (Enabled(st, actions[0], maxLoad) && CanRun(Do(st, actions[0], maxLoad), actions[1..], maxLoad))
  }

  ghost function Run<V(!new)>(st: State<V>, actions: seq<Action<V>>, maxLoad: nat): State<V>
    requires CanRun(st, actions, maxLoad)
    decreases |actions|
  {
    if actions == [] then st else Run(Do(st, actions[0], maxLoad), actions[1..], maxLoad)
  }

  function Start<V>(value: V): State<V> { State(0, [Write(value, 0)], None, map[], map[]) }

  // ---- no list is older than the TTL plus two loads ----

  /** The snapshot is what the database held at its load. */
  ghost predicate TrueSnapshot<V(!new)>(st: State<V>, s: Snapshot<V>) {
    && s.version < |st.writes| && s.value == st.writes[s.version].value
    && st.writes[s.version].at <= s.loadedAt <= st.now
    && (s.version + 1 < |st.writes| ==> s.loadedAt <= st.writes[s.version + 1].at)
  }

  ghost predicate CacheInv<V(!new)>(st: State<V>, maxLoad: nat) {
    st.cache.Some? ==>
      var e := st.cache.value;
      && TrueSnapshot(st, e.snapshot)
      && e.snapshot.loadedAt <= e.setAt <= e.snapshot.loadedAt + maxLoad && e.setAt <= st.now
  }

  /** Has the flight read a list, from the database or from the cache? */
  ghost predicate Holds<V(!new)>(f: Flight<V>) { f.phase.Loaded? || f.phase.Ready? }

  /** A list is read from the database, or from the cache less than the TTL after it was stored there. */
  ghost function LastRead(loadedAt: nat, maxLoad: nat): int { loadedAt + maxLoad + LIST_CACHE_TTL - 1 }

  ghost predicate FlightInv<V(!new)>(st: State<V>, f: Flight<V>, maxLoad: nat) {
    && f.startedAt <= st.now <= f.startedAt + maxLoad
    && (Holds(f) ==>
         TrueSnapshot(st, f.phase.snapshot) && f.startedAt <= LastRead(f.phase.snapshot.loadedAt, maxLoad))
    && (f.phase.Loaded? ==> f.startedAt <= f.phase.snapshot.loadedAt)
  }

  ghost predicate ReaderInv<V(!new)>(st: State<V>, r: Reader<V>, maxLoad: nat) {
    r.Got? ==>
      && TrueSnapshot(st, r.snapshot)
      && r.snapshot.loadedAt <= r.at <= LastRead(r.snapshot.loadedAt, maxLoad) + maxLoad
  }

  ghost predicate Inv<V(!new)>(st: State<V>, maxLoad: nat) {
    && st.writes != [] && (forall i :: 0 <= i < |st.writes| ==> st.writes[i].at <= st.now)
    && CacheInv(st, maxLoad)
    && (forall p :: p in st.flights ==> FlightInv(st, st.flights[p], maxLoad))
    && (forall r :: r in st.readers ==> ReaderInv(st, st.readers[r], maxLoad))
  }

  lemma SnapshotsStayTrue<V(!new)>(st: State<V>, a: Action<V>, maxLoad: nat, s: Snapshot<V>)
    requires Enabled(st, a, maxLoad) && Inv(st, maxLoad) && TrueSnapshot(st, s)
    ensures TrueSnapshot(Do(st, a, maxLoad), s)
  {
  }

  lemma WritesStayPast<V(!new)>(st: State<V>, a: Action<V>, maxLoad: nat)
    requires Enabled(st, a, maxLoad) && Inv(st, maxLoad)
    ensures var after := Do(st, a, maxLoad);
            after.writes != [] && forall i :: 0 <= i < |after.writes| ==> after.writes[i].at <= after.now
  {
  }

  lemma CacheStaysTrue<V(!new)>(st: State<V>, a: Action<V>, maxLoad: nat)
    requires Enabled(st, a, maxLoad) && Inv(st, maxLoad)
    ensures CacheInv(Do(st, a, maxLoad), maxLoad)
  {
    if a.Store? {
      assert FlightInv(st, st.flights[a.process], maxLoad);
      SnapshotsStayTrue(st, a, maxLoad, st.flights[a.process].phase.snapshot);
    } else if st.cache.Some? {
      SnapshotsStayTrue(st, a, maxLoad, st.cache.value.snapshot);
    }
  }

  lemma FlightStaysTrue<V(!new)>(st: State<V>, a: Action<V>, maxLoad: nat, p: ProcessId)
    requires Enabled(st, a, maxLoad) && Inv(st, maxLoad) && p in Do(st, a, maxLoad).flights
    ensures FlightInv(Do(st, a, maxLoad), Do(st, a, maxLoad).flights[p], maxLoad)
  {
    if a.RecheckHit? && a.process == p {
      SnapshotsStayTrue(st, a, maxLoad, st.cache.value.snapshot);
    } else if p in st.flights {
      assert FlightInv(st, st.flights[p], maxLoad);
      if Holds(st.flights[p]) { SnapshotsStayTrue(st, a, maxLoad, st.flights[p].phase.snapshot); }
    }
  }

  /** What a step hands to a reader. */
  lemma HandedOutIsTrue<V(!new)>(st: State<V>, a: Action<V>, maxLoad: nat)
    requires Enabled(st, a, maxLoad) && Inv(st, maxLoad)
    ensures a.ReadHit? ==>
              ReaderInv(Do(st, a, maxLoad), Got(st.cache.value.snapshot, st.now), maxLoad)
    ensures a.Finish? ==>
              ReaderInv(Do(st, a, maxLoad), Got(st.flights[a.process].phase.snapshot, st.now), maxLoad)
  {
    if a.ReadHit? {
      SnapshotsStayTrue(st, a, maxLoad, st.cache.value.snapshot);
    } else if a.Finish? {
      assert FlightInv(st, st.flights[a.process], maxLoad);
      SnapshotsStayTrue(st, a, maxLoad, st.flights[a.process].phase.snapshot);
    }
  }

  lemma ReaderStaysTrue<V(!new)>(st: State<V>, a: Action<V>, maxLoad: nat, r: ReaderId)
    requires Enabled(st, a, maxLoad) && Inv(st, maxLoad) && r in Do(st, a, maxLoad).readers
    ensures ReaderInv(Do(st, a, maxLoad), Do(st, a, maxLoad).readers[r], maxLoad)
  {
    HandedOutIsTrue(st, a, maxLoad);
    if r in st.readers {
      assert ReaderInv(st, st.readers[r], maxLoad);
      if st.readers[r].Got? { SnapshotsStayTrue(st, a, maxLoad, st.readers[r].snapshot); }
    }
  }

  lemma ActionKeepsInv<V(!new)>(st: State<V>, a: Action<V>, maxLoad: nat)
    requires Enabled(st, a, maxLoad) && Inv(st, maxLoad)
    ensures Inv(Do(st, a, maxLoad), maxLoad)
  {
    var after := Do(st, a, maxLoad);
    WritesStayPast(st, a, maxLoad);
    CacheStaysTrue(st, a, maxLoad);
    forall p | p in after.flights ensures FlightInv(after, after.flights[p], maxLoad) {
      FlightStaysTrue(st, a, maxLoad, p);
    }
    forall r | r in after.readers ensures ReaderInv(after, after.readers[r], maxLoad) {
      ReaderStaysTrue(st, a, maxLoad, r);
    }
  }

  lemma {:induction false} RunKeepsInv<V(!new)>(st: State<V>, actions: seq<Action<V>>, maxLoad: nat)
    requires CanRun(st, actions, maxLoad) && Inv(st, maxLoad)
    ensures Inv(Run(st, actions, maxLoad), maxLoad)
    decreases |actions|
  {
    if actions != [] {
      ActionKeepsInv(st, actions[0], maxLoad);
      RunKeepsInv(Do(st, actions[0], maxLoad), actions[1..], maxLoad);
    }
  }

  /** In every interleaving, a list is, when a reader is handed it, the database's value at a load less
      than the cache's TTL and two loads ago: one until it was stored, one in which it was read again. */
  lemma ReturnedListIsFresh<V(!new)>(value: V, actions: seq<Action<V>>, maxLoad: nat, r: ReaderId)
    requires CanRun(Start(value), actions, maxLoad)
    requires r in Run(Start(value), actions, maxLoad).readers && Run(Start(value), actions, maxLoad).readers[r].Got?
    ensures var st := Run(Start(value), actions, maxLoad);
            var got := st.readers[r];
            var s := got.snapshot;
            && s.version < |st.writes| && s.value == st.writes[s.version].value
            && st.writes[s.version].at <= s.loadedAt <= got.at < s.loadedAt + 20 + 2 * maxLoad
            && (s.version + 1 < |st.writes| ==> s.loadedAt <= st.writes[s.version + 1].at)
  {
    RunKeepsInv(Start(value), actions, maxLoad);
    var st := Run(Start(value), actions, maxLoad);
    assert ReaderInv(st, st.readers[r], maxLoad);
  }

  lemma RunOf<V(!new)>(st: State<V>, a: Action<V>, rest: seq<Action<V>>, maxLoad: nat)
    requires Enabled(st, a, maxLoad) && CanRun(Do(st, a, maxLoad), rest, maxLoad)
    ensures CanRun(st, [a] + rest, maxLoad) && Run(st, [a] + rest, maxLoad) == Run(Do(st, a, maxLoad), rest, maxLoad)
  {
    assert ([a] + rest)[1..] == rest;
  }

  lemma {:induction false} RunOfBoth<V(!new)>(st: State<V>, a: seq<Action<V>>, b: seq<Action<V>>, maxLoad: nat)
    requires CanRun(st, a, maxLoad) && CanRun(Run(st, a, maxLoad), b, maxLoad)
    ensures CanRun(st, a + b, maxLoad) && Run(st, a + b, maxLoad) == Run(Run(st, a, maxLoad), b, maxLoad)
    decreases |a|
  {
    if a == [] {
      assert a + b == b;
    } else {
      RunOfBoth(Do(st, a[0], maxLoad), a[1..], b, maxLoad);
      RunOf(st, a[0], a[1..] + b, maxLoad);
      assert [a[0]] + (a[1..] + b) == a + b;
    }
  }

  ghost predicate HasTime<V(!new)>(st: State<V>, n: nat, maxLoad: nat) {
    forall p :: p in st.flights ==> st.now + n <= st.flights[p].startedAt + maxLoad
  }

  /** Time passes while every flight has that much left. */
  lemma {:induction false} Wait<V(!new)>(st: State<V>, n: nat, maxLoad: nat) returns (ticks: seq<Action<V>>)
    requires HasTime(st, n, maxLoad)
    ensures CanRun(st, ticks, maxLoad) && Run(st, ticks, maxLoad) == st.(now := st.now + n)
    decreases n
  {
    ticks := [];
    if n > 0 {
      ticks := Wait(st.(now := st.now + 1), n - 1, maxLoad);
      RunOf(st, Tick, ticks, maxLoad);
      ticks := [Tick] + ticks;
    }
  }

  lemma ThenWait<V(!new)>(st: State<V>, before: seq<Action<V>>, n: nat, maxLoad: nat)
    returns (actions: seq<Action<V>>)
    requires CanRun(st, before, maxLoad) && HasTime(Run(st, before, maxLoad), n, maxLoad)
    ensures var mid := Run(st, before, maxLoad);
            CanRun(st, actions, maxLoad) && Run(st, actions, maxLoad) == mid.(now := mid.now + n)
  {
    var ticks := Wait(Run(st, before, maxLoad), n, maxLoad);
    RunOfBoth(st, before, ticks, maxLoad);
    actions := before + ticks;
  }

  lemma Then<V(!new)>(st: State<V>, actions: seq<Action<V>>, a: Action<V>, maxLoad: nat)
    requires CanRun(st, actions, maxLoad) && Enabled(Run(st, actions, maxLoad), a, maxLoad)
    ensures CanRun(st, actions + [a], maxLoad)
    ensures Run(st, actions + [a], maxLoad) == Do(Run(st, actions, maxLoad), a, maxLoad)
  {
    RunOf(Run(st, actions, maxLoad), a, [], maxLoad);
    assert [a] + [] == [a];
    RunOfBoth(st, actions, [a], maxLoad);
  }

  /** Two readers miss, and a flight for the first of them has read the database. */
  ghost function Fetched<V>(value: V): State<V> {
    State(0, [Write(value, 0)], None, map[0 := Flight(0, Loaded(Snapshot(value, 0, 0)))],
          map[0 := Waiting(0), 1 := Missed])
  }

  lemma Fetch<V(!new)>(value: V, maxLoad: nat) returns (actions: seq<Action<V>>)
    ensures CanRun(Start(value), actions, maxLoad) && Run(Start(value), actions, maxLoad) == Fetched(value)
  {
    var st := Start(value);
    Then(st, [], ReadMiss(0), maxLoad);
    Then(st, [] + [ReadMiss(0)], ReadMiss(1), maxLoad);
    actions := [] + [ReadMiss(0)] + [ReadMiss(1)];
    Then(st, actions, Join(0, 0), maxLoad);
    actions := actions + [Join(0, 0)];
    Then(st, actions, RecheckMiss(0), maxLoad);
    actions := actions + [RecheckMiss(0)];
    Then(st, actions, Load(0), maxLoad);
    actions := actions + [Load(0)];
  }

  /** A list whose load took its full time is cached, and nobody has read it for as long as it lives. */
  ghost function AboutToExpire<V>(value: V, maxLoad: nat): State<V> {
    var s := Snapshot(value, 0, 0);
    State(maxLoad + LIST_CACHE_TTL - 1, [Write(value, 0)], Some(Entry(s, maxLoad)), map[],
          map[0 := Got(s, maxLoad), 1 := Missed])
  }

  lemma SlowLoad<V(!new)>(value: V, maxLoad: nat) returns (actions: seq<Action<V>>)
    ensures CanRun(Start(value), actions, maxLoad)
    ensures Run(Start(value), actions, maxLoad) == AboutToExpire(value, maxLoad)
  {
    actions := Fetch(value, maxLoad);
    actions := ThenWait(Start(value), actions, maxLoad, maxLoad);
    Then(Start(value), actions, Store(0), maxLoad);
    actions := actions + [Store(0)];
    Then(Start(value), actions, Finish(0), maxLoad);
    actions := actions + [Finish(0)];
    assert Run(Start(value), actions, maxLoad) == AboutToExpire(value, maxLoad).(now := maxLoad);
    actions := ThenWait(Start(value), actions, LIST_CACHE_TTL - 1, maxLoad);
  }

  lemma SlowReread<V(!new)>(value: V, maxLoad: nat) returns (actions: seq<Action<V>>)
    ensures CanRun(AboutToExpire(value, maxLoad), actions, maxLoad)
    ensures var got, now := Run(AboutToExpire(value, maxLoad), actions, maxLoad), 2 * maxLoad + LIST_CACHE_TTL - 1;
            1 in got.readers && got.readers[1] == Got(Snapshot(value, 0, 0), now)
  {
    var st := AboutToExpire(value, maxLoad);
    Then(st, [], Join(1, 0), maxLoad);
    actions := [] + [Join(1, 0)];
    Then(st, actions, RecheckHit(0), maxLoad);
    actions := actions + [RecheckHit(0)];
    actions := ThenWait(st, actions, maxLoad, maxLoad);
    Then(st, actions, Finish(0), maxLoad);
    actions := actions + [Finish(0)];
  }

  /** The bound is met: some run hands out a list one tick younger than the TTL and two loads. */
  lemma OldestListIsHandedOut<V(!new)>(value: V, maxLoad: nat) returns (actions: seq<Action<V>>)
    ensures CanRun(Start(value), actions, maxLoad)
    ensures var st := Run(Start(value), actions, maxLoad);
            && 1 in st.readers && st.readers[1].Got?
            && st.readers[1].at - st.readers[1].snapshot.loadedAt == 20 + 2 * maxLoad - 1
  {
    var first := SlowLoad(value, maxLoad);
    var second := SlowReread(value, maxLoad);
    RunOfBoth(Start(value), first, second, maxLoad);
    actions := first + second;
  }

  // ---- what an invalidation achieves ----

  /** Nothing that later readers can be given is older than version v. */
  ghost predicate NoneOlder<V(!new)>(st: State<V>, v: nat, earlier: set<ReaderId>) {
    && v < |st.writes|
    && (st.cache.Some? ==> st.cache.value.snapshot.version >= v)
    && (forall p :: p in st.flights && Holds(st.flights[p]) ==> st.flights[p].phase.snapshot.version >= v)
    && (forall r :: r in st.readers && r !in earlier && st.readers[r].Got? ==> st.readers[r].snapshot.version >= v)
  }

  lemma ActionKeepsNoneOlder<V(!new)>(st: State<V>, a: Action<V>, maxLoad: nat, v: nat, earlier: set<ReaderId>)
    requires Enabled(st, a, maxLoad) && NoneOlder(st, v, earlier)
    ensures NoneOlder(Do(st, a, maxLoad), v, earlier)
  {
  }

  lemma {:induction false} RunKeepsNoneOlder<V(!new)>(st: State<V>, actions: seq<Action<V>>, maxLoad: nat, v: nat,
                                                      earlier: set<ReaderId>)
    requires CanRun(st, actions, maxLoad) && NoneOlder(st, v, earlier)
    ensures NoneOlder(Run(st, actions, maxLoad), v, earlier)
    decreases |actions|
  {
    if actions != [] {
      ActionKeepsNoneOlder(st, actions[0], maxLoad, v, earlier);
      RunKeepsNoneOlder(Do(st, actions[0], maxLoad), actions[1..], maxLoad, v, earlier);
    }
  }

  /** Some continuation hands a read that starts in it a list older than the last write. */
  ghost predicate StaleReadPossible<V(!new)>(st: State<V>, maxLoad: nat) {
    exists actions, r: ReaderId ::
      && CanRun(st, actions, maxLoad) && r !in st.readers
      && r in Run(st, actions, maxLoad).readers
      && Run(st, actions, maxLoad).readers[r].Got?
      && Run(st, actions, maxLoad).readers[r].snapshot.version < |st.writes| - 1
  }

  /** A flight that holds a list from before the last write, read from the database or from the cache, and
      has not yet ended. */
  ghost predicate StaleFlight<V(!new)>(st: State<V>, p: ProcessId) {
    p in st.flights && Holds(st.flights[p]) && st.flights[p].phase.snapshot.version < |st.writes| - 1
  }

  lemma StaleFlightIsSeen<V(!new)>(st: State<V>, maxLoad: nat, p: ProcessId, r: ReaderId)
    requires StaleFlight(st, p) && r !in st.readers
    ensures StaleReadPossible(st, maxLoad)
  {
    if st.flights[p].phase.Loaded? {
      var one := Do(st, Store(p), maxLoad);
      RunOf(one, ReadHit(r), [], maxLoad);
      RunOf(st, Store(p), [ReadHit(r)] + [], maxLoad);
      assert Run(st, [Store(p)] + ([ReadHit(r)] + []), maxLoad).readers[r].snapshot == st.flights[p].phase.snapshot;
    } else {
      var one := Do(st, ReadMiss(r), maxLoad);
      var two := Do(one, Join(r, p), maxLoad);
      RunOf(two, Finish(p), [], maxLoad);
      RunOf(one, Join(r, p), [Finish(p)] + [], maxLoad);
      RunOf(st, ReadMiss(r), [Join(r, p)] + ([Finish(p)] + []), maxLoad);
      assert Run(st, [ReadMiss(r)] + ([Join(r, p)] + ([Finish(p)] + [])), maxLoad).readers[r].snapshot ==
             st.flights[p].phase.snapshot;
    }
  }

  /** After a hard invalidation, every read that starts reflects the last write, in every
      continuation, exactly when no flight that holds a list from before that write is still under way. */
  lemma InvalidationIsReflectedExactly<V(!new)>(st: State<V>, maxLoad: nat, spare: ReaderId)
    requires st.writes != [] && spare !in st.readers
    ensures var after := Do(st, Invalidate, maxLoad);
            StaleReadPossible(after, maxLoad) <==> exists p :: StaleFlight(after, p)
  {
    var after := Do(st, Invalidate, maxLoad);
    if p :| StaleFlight(after, p) {
      StaleFlightIsSeen(after, maxLoad, p, spare);
    } else {
      var v := |after.writes| - 1;
      forall p | p in after.flights && Holds(after.flights[p])
        ensures after.flights[p].phase.snapshot.version >= v
      {
        assert !StaleFlight(after, p);
      }
      assert NoneOlder(after, v, after.readers.Keys);
      forall actions, r: ReaderId | CanRun(after, actions, maxLoad) && r !in after.readers &&
          r in Run(after, actions, maxLoad).readers && Run(after, actions, maxLoad).readers[r].Got?
        ensures Run(after, actions, maxLoad).readers[r].snapshot.version >= v
      {
        RunKeepsNoneOlder(after, actions, maxLoad, v, after.readers.Keys);
      }
    }
  }
}
