/** Write caches that flush only while their lock manager owns the lock: one manager for each cache. */
module WriterElection {
  import Locking
  import Caches = WriteCacheRuns
  import opened WriteCaching
  import opened Optional

  /** Manager `i` stands beside cache `i`. */
  datatype Joint = Joint(locks: Locking.System, caches: Caches.System)

  datatype Action =
    | Lock(step: Locking.Action)
    | Request(i: nat, w: Write)
    | FlushStart(i: nat, sends: bool)
    | FlushDone(i: nat, succeeded: bool)

  /** What the step is to the caches; a flush finds out for itself whether its manager is the owner. */
  ghost function CacheAction(s: Joint, a: Action): Option<Caches.Action> {
    match a
    case Lock(_) => None
    case Request(i, w) => Some(Caches.Request(i, w))
    case FlushStart(i, sends) => Some(Caches.FlushStart(i, Locking.Owner(s.locks, i), sends))
    case FlushDone(i, succeeded) => Some(Caches.FlushDone(i, succeeded))
  }

  ghost function Step(s: Joint, a: Action, t: Locking.Terms): Joint {
    var c := CacheAction(s, a);
    Joint(if a.Lock? then Locking.Step(s.locks, a.step, t) else s.locks,
          if c.Some? then Caches.Step(s.caches, c.value) else s.caches)
  }

  ghost function Run(s: Joint, actions: seq<Action>, t: Locking.Terms): Joint
    decreases |actions|
  {
    if actions == [] then s else Run(Step(s, actions[0], t), actions[1..], t)
  }

  ghost predicate Initial(s: Joint) {
    Locking.Initial(s.locks) && Caches.Initial(s.caches)
  }

  // ---------------------------------------------------------------- the two systems in the joint one

  function LockActions(actions: seq<Action>): seq<Locking.Action> {
    if actions == [] then []
    else (if actions[0].Lock? then [actions[0].step] else []) + LockActions(actions[1..])
  }

  ghost function CacheActions(s: Joint, actions: seq<Action>, t: Locking.Terms): seq<Caches.Action>
    decreases |actions|
  {
    if actions == [] then []
    else
      var c := CacheAction(s, actions[0]);
      (if c.Some? then [c.value] else []) + CacheActions(Step(s, actions[0], t), actions[1..], t)
  }

  /** A run of both is a run of the managers and a run of the caches: whatever holds of all runs of
      either holds here. */
  lemma {:induction false} RunSplits(s: Joint, actions: seq<Action>, t: Locking.Terms)
    ensures Run(s, actions, t).locks == Locking.Run(s.locks, LockActions(actions), t)
    ensures Run(s, actions, t).caches == Caches.Run(s.caches, CacheActions(s, actions, t))
    decreases |actions|
  {
    if actions != [] {
      var a := actions[0];
      var locks, caches := LockActions(actions[1..]), CacheActions(Step(s, a, t), actions[1..], t);
      var c := CacheAction(s, a);
      RunSplits(Step(s, a, t), actions[1..], t);
      hide Locking.Step, Caches.Step, CacheAction;
      if a.Lock? {
        assert ([a.step] + locks)[1..] == locks;
        assert LockActions(actions) == [a.step] + locks;
      } else {
        assert LockActions(actions) == locks;
      }
      if c.Some? {
        assert ([c.value] + caches)[1..] == caches;
        assert CacheActions(s, actions, t) == [c.value] + caches;
      } else {
        assert CacheActions(s, actions, t) == caches;
      }
    }
  }

  // ---------------------------------------------------------------- who may start a batch

  predicate InFlight(s: Joint, i: int) {
    0 <= i < |s.caches.caches| && s.caches.caches[i].inflight != []
  }

  /** The step sends a batch of cache `i`. */
  ghost predicate Starts(s: Joint, a: Action, t: Locking.Terms, i: nat) {
    && i < |s.caches.caches| == |Step(s, a, t).caches.caches|
    && |Step(s, a, t).caches.caches[i].inflight| > |s.caches.caches[i].inflight|
  }

  /** Cache `i` needs only flush, and has something to send. */
  predicate MayStart(s: Joint, i: nat) {
    && i < |s.caches.caches| && Locking.Owner(s.locks, i)
    && s.caches.caches[i].changed && !s.caches.caches[i].flushing
  }

  lemma StartsExact(s: Joint, a: Action, t: Locking.Terms, i: nat)
    ensures Starts(s, a, t, i) <==>
            && a.FlushStart? && a.i == i && MayStart(s, i)
            && (a.sends || !Quiet(s.caches.caches[i].buf))
  {
    hide Quiet;
  }

  lemma MayStartExact(s: Joint, t: Locking.Terms, i: nat)
    ensures MayStart(s, i) <==> exists a :: Starts(s, a, t, i)
  {
    StartsExact(s, FlushStart(i, true), t, i);
    if a :| Starts(s, a, t, i) {
      StartsExact(s, a, t, i);
    }
  }

  /** Two managers that take themselves for the owner are two caches that may write. */
  lemma TwoOwnersTwoWriters(s: Joint, t: Locking.Terms, i: nat, j: nat, w: Write)
    requires i < |s.caches.caches| && j < |s.caches.caches| && i != j
    requires Locking.Owner(s.locks, i) && Locking.Owner(s.locks, j)
    requires !s.caches.caches[i].flushing && !s.caches.caches[j].flushing
    ensures var r := Step(Step(s, Request(i, w), t), Request(j, w), t);
            MayStart(r, i) && MayStart(r, j)
  {
  }

  /** No manager is granted the lock over another that takes itself for the owner; owners that renew
      in time are one way of that. */
  ghost predicate Exclusive(s: Joint, actions: seq<Action>, t: Locking.Terms) {
    Locking.NeverDoubles(s.locks, LockActions(actions), t)
  }

  lemma TimelyExclusive(s: Joint, actions: seq<Action>, t: Locking.Terms)
    requires Initial(s) && Locking.Timely(s.locks, LockActions(actions), t)
    ensures Exclusive(s, actions, t)
  {
    Locking.TimelyNeverDoubles(s.locks, LockActions(actions), t);
  }

  lemma {:induction false} ExclusiveRun(s: Locking.System, actions: seq<Locking.Action>, t: Locking.Terms)
    requires !Locking.TwoOwners(s) && Locking.NeverDoubles(s, actions, t)
    ensures !Locking.TwoOwners(Locking.Run(s, actions, t))
    decreases |actions|
  {
    if actions != [] {
      Locking.DoublesExact(s, actions[0], t);
      ExclusiveRun(Locking.Step(s, actions[0], t), actions[1..], t);
    }
  }

  /** In every state of an exclusive run no two caches can send a batch, whatever step comes next. */
  lemma OneWriter(s: Joint, actions: seq<Action>, t: Locking.Terms, i: nat, j: nat, a: Action, b: Action)
    requires Initial(s) && Exclusive(s, actions, t)
    requires Starts(Run(s, actions, t), a, t, i) && Starts(Run(s, actions, t), b, t, j)
    ensures i == j
  {
    var r := Run(s, actions, t);
    MayStartExact(r, t, i);
    MayStartExact(r, t, j);
    RunSplits(s, actions, t);
    ExclusiveRun(s.locks, LockActions(actions), t);
  }

  // ---------------------------------------------------------------- batches that outlive their lock

  /** A batch of cache `j` is under way although its manager has lost or given up the lock. */
  predicate Stale(s: Joint, j: int) {
    InFlight(s, j) && !Locking.Owner(s.locks, j)
  }

  ghost predicate OneInFlight(s: Joint) {
    forall i, j :: InFlight(s, i) && InFlight(s, j) ==> i == j
  }

  /** A new owner sends a batch while that of a former one is still under way. */
  ghost predicate Overtakes(s: Joint, a: Action, t: Locking.Terms) {
    (exists i :: Starts(s, a, t, i)) && exists j :: Stale(s, j)
  }

  lemma InFlightKept(s: Joint, a: Action, t: Locking.Terms, i: nat)
    ensures |Step(s, a, t).caches.caches| == |s.caches.caches|
    ensures !Starts(s, a, t, i) && InFlight(Step(s, a, t), i) ==> InFlight(s, i)
    ensures Starts(s, a, t, i) ==> InFlight(Step(s, a, t), i)
    ensures a.FlushStart? && InFlight(s, i) ==> InFlight(Step(s, a, t), i)
  {
    hide Quiet;
  }

  /** Among one owner's batches there is never a second: two are under way after a step if and only
      if a new owner overtook a former one. */
  lemma OneInFlightExact(s: Joint, a: Action, t: Locking.Terms)
    requires Caches.Orderly(s.caches) && !Locking.TwoOwners(s.locks) && OneInFlight(s)
    ensures OneInFlight(Step(s, a, t)) <==> !Overtakes(s, a, t)
  {
    hide Step, Quiet;
    var r := Step(s, a, t);
    if Overtakes(s, a, t) {
      var i: nat :| Starts(s, a, t, i);
      var j :| Stale(s, j);
      StartsExact(s, a, t, i);
      InFlightKept(s, a, t, i);
      InFlightKept(s, a, t, j);
      assert InFlight(r, i) && InFlight(r, j) && i != j;
    } else {
      forall i, j | InFlight(r, i) && InFlight(r, j)
        ensures i == j
      {
        InFlightKept(s, a, t, i);
        InFlightKept(s, a, t, j);
        StartsExact(s, a, t, i);
        StartsExact(s, a, t, j);
        assert Starts(s, a, t, i) && InFlight(s, j) && i != j ==> Stale(s, j);
        assert Starts(s, a, t, j) && InFlight(s, i) && i != j ==> Stale(s, i);
      }
    }
  }

  ghost predicate AlwaysOne(s: Joint, actions: seq<Action>, t: Locking.Terms)
    decreases |actions|
  {
    OneInFlight(s) && (actions == [] || AlwaysOne(Step(s, actions[0], t), actions[1..], t))
  }

  ghost predicate NeverOvertaken(s: Joint, actions: seq<Action>, t: Locking.Terms)
    decreases |actions|
  {
    actions == [] || (!Overtakes(s, actions[0], t) && NeverOvertaken(Step(s, actions[0], t), actions[1..], t))
  }

  lemma StepOrderly(s: Joint, a: Action, t: Locking.Terms)
    requires Caches.Orderly(s.caches)
    ensures Caches.Orderly(Step(s, a, t).caches)
  {
    forall i | 0 <= i < |s.caches.caches|
      ensures Caches.Single(s.caches.caches[i]) && Caches.Single(Step(s, a, t).caches.caches[i])
    {
    }
  }

  lemma {:induction false} AlwaysOneRun(s: Joint, actions: seq<Action>, t: Locking.Terms)
    requires Caches.Orderly(s.caches) && !Locking.TwoOwners(s.locks) && OneInFlight(s)
    requires Exclusive(s, actions, t)
    ensures AlwaysOne(s, actions, t) <==> NeverOvertaken(s, actions, t)
    decreases |actions|
  {
    if actions != [] {
      var a := actions[0];
      OneInFlightExact(s, a, t);
      StepOrderly(s, a, t);
      ExclusiveStep(s, actions, t);
      hide Step, Exclusive;
      if !Overtakes(s, a, t) {
        AlwaysOneRun(Step(s, a, t), actions[1..], t);
      }
    }
  }

  lemma ExclusiveStep(s: Joint, actions: seq<Action>, t: Locking.Terms)
    requires actions != [] && Exclusive(s, actions, t) && !Locking.TwoOwners(s.locks)
    ensures Exclusive(Step(s, actions[0], t), actions[1..], t) && !Locking.TwoOwners(Step(s, actions[0], t).locks)
  {
    if actions[0].Lock? {
      var rest := LockActions(actions[1..]);
      assert LockActions(actions)[1..] == rest;
      Locking.DoublesExact(s.locks, actions[0].step, t);
    } else {
      assert LockActions(actions) == LockActions(actions[1..]);
    }
  }

  /** For every exclusive run: there is never more than one batch under way if and only if no owner
      sends one while a former owner's is still to be answered. */
  lemma SerialExact(s: Joint, actions: seq<Action>, t: Locking.Terms)
    requires Initial(s) && Exclusive(s, actions, t)
    ensures AlwaysOne(s, actions, t) <==> NeverOvertaken(s, actions, t)
  {
    AlwaysOneRun(s, actions, t);
  }

  /** Once overtaken, the former owner's batch may be executed last. */
  lemma OvertakenMayComeLast(s: Joint, a: Action, t: Locking.Terms, i: nat, j: nat)
    requires Caches.Orderly(s.caches) && Starts(s, a, t, i) && Stale(s, j)
    ensures var older, newer := s.caches.caches[j].inflight[0], s.caches.caches[i].buf;
            var r := Step(Step(Step(s, a, t), FlushDone(i, true), t), FlushDone(j, true), t);
            r.caches.executed == s.caches.executed + [newer, older]
  {
    StartsExact(s, a, t, i);
    assert Caches.Single(s.caches.caches[i]) && Caches.Single(s.caches.caches[j]);
    hide Quiet, Caches.Executed;
    var older, newer := s.caches.caches[j].inflight[0], s.caches.caches[i].buf;
    var s1 := Step(s, a, t);
    assert i != j && s1.caches.caches[i].inflight == [newer];
    assert s1.caches.caches[j] == s.caches.caches[j];
    assert s1.caches.executed == s.caches.executed;
    var s2 := Step(s1, FlushDone(i, true), t);
    assert s2.caches.caches[j] == s.caches.caches[j];
    assert s2.caches.executed == s.caches.executed + [newer];
    var s3 := Step(s2, FlushDone(j, true), t);
    assert s3.caches.executed == s2.caches.executed + [older];
  }

  // ---------------------------------------------------------------- a run that ends with the former owner's value

  function Older(): Write {
    Set("k", Num(1))
  }

  function Newer(): Write {
    Set("k", Num(2))
  }

  /** The first manager steps down with its batch under way; the second takes over and writes. No time
      passes, so that every lock is unexpired throughout. */
  function Overtaking(): (r: seq<Action>)
    ensures |r| == 9
  {
    [Lock(Locking.Start(0, Locking.Delivered)), Request(0, Older()), FlushStart(0, true),
     Lock(Locking.Stop(0, Locking.Delivered)), Lock(Locking.Start(1, Locking.Delivered)),
     Request(1, Newer()), FlushStart(1, true), FlushDone(1, true), FlushDone(0, true)]
  }

  function Owning(token: nat, t: Locking.Terms): Locking.Manager {
    Locking.Manager(Some(Locking.Held(token, t.ttl - t.drift)), true, false)
  }

  /** The managers before step `k` of that run. */
  function LocksAt(k: nat, t: Locking.Terms): Locking.System {
    if k == 0 then Locking.System(0, None, 0, [Locking.IDLE, Locking.IDLE])
    else if k <= 3 then Locking.System(0, Some(Locking.Grant(0, t.ttl)), 1, [Owning(0, t), Locking.IDLE])
    else if k == 4 then Locking.System(0, None, 1, [Locking.IDLE, Locking.IDLE])
    else Locking.System(0, Some(Locking.Grant(1, t.ttl)), 2, [Locking.IDLE, Owning(1, t)])
  }

  /** A cache that has been asked for `w`, has sent it, and has heard of it, at these steps of the run. */
  function CacheAt(k: nat, w: Write, asked: nat, sent: nat, done: nat): Instance {
    if k < asked || k >= done then FRESH
    else if k < sent then Instance(Buffered(EmptyBuffer(), w), true, false, [])
    else Instance(EmptyBuffer(), false, true, [Buffered(EmptyBuffer(), w)])
  }

  ghost function CachesAt(k: nat, store: Store): Caches.System {
    var older, newer := Buffered(EmptyBuffer(), Older()), Buffered(EmptyBuffer(), Newer());
    var later := Caches.Executed(store, newer);
    Caches.System(
      if k < 8 then store else if k == 8 then later else Caches.Executed(later, older),
      [CacheAt(k, Older(), 2, 3, 9), CacheAt(k, Newer(), 6, 7, 8)],
      if k < 2 then [] else if k < 6 then [Older()] else [Older(), Newer()],
      if k < 8 then [] else if k == 8 then [newer] else [newer, older],
      [], [])
  }

  ghost function StateAt(k: nat, store: Store, t: Locking.Terms): Joint {
    Joint(LocksAt(k, t), CachesAt(k, store))
  }

  lemma LocksStep(k: nat, t: Locking.Terms)
    requires k < 9
    ensures var a := Overtaking()[k];
            LocksAt(k + 1, t) == if a.Lock? then Locking.Step(LocksAt(k, t), a.step, t) else LocksAt(k, t)
  {
  }

  lemma CachesStep(k: nat, store: Store, t: Locking.Terms)
    requires k < 9
    ensures var c := CacheAction(StateAt(k, store, t), Overtaking()[k]);
            CachesAt(k + 1, store) == if c.Some? then Caches.Step(CachesAt(k, store), c.value) else CachesAt(k, store)
  {
    hide Buffered, EmptyBuffer, Older, Newer, Caches.Executed, Quiet;
    var c := CacheAction(StateAt(k, store, t), Overtaking()[k]);
    var before, after := CachesAt(k, store), CachesAt(k + 1, store);
    var r := if c.Some? then Caches.Step(before, c.value) else before;
    assert c.Some? ==>
        var x := before.caches[c.value.i];
        x.inflight + [x.buf] == [x.buf] || x.inflight[1..] == [];
    assert after.caches == r.caches;
    assert after.requested == r.requested && after.executed == r.executed;
  }

  lemma {:induction false} OvertakingRun(k: nat, store: Store, t: Locking.Terms)
    requires k <= 9
    ensures Run(StateAt(k, store, t), Overtaking()[k..], t) == StateAt(9, store, t)
    decreases 9 - k
  {
    if k < 9 {
      LocksStep(k, t);
      CachesStep(k, store, t);
      assert Overtaking()[k..][1..] == Overtaking()[k + 1..];
      hide Overtaking, LocksAt, CachesAt, Locking.Step, Caches.Step, CacheAction;
      OvertakingRun(k + 1, store, t);
    }
  }

  lemma OvertakingTimely(t: Locking.Terms)
    requires t.drift < t.ttl
    ensures LockActions(Overtaking()) ==
            [Locking.Start(0, Locking.Delivered), Locking.Stop(0, Locking.Delivered),
             Locking.Start(1, Locking.Delivered)]
    ensures Locking.Timely(LocksAt(0, t), LockActions(Overtaking()), t)
  {
    assert Locking.Punctual(LocksAt(1, t)) && Locking.Punctual(LocksAt(4, t)) && Locking.Punctual(LocksAt(5, t));
  }

  /** Though owners always renew in time and each cache writes only as the owner, the value that stays
      is the one that was asked for, and sent, first. */
  lemma FormerOwnerComesLast(store: Store, t: Locking.Terms)
    requires t.drift < t.ttl
    ensures var s := StateAt(0, store, t);
            var r := Run(s, Overtaking(), t);
            && Initial(s) && Locking.Timely(s.locks, LockActions(Overtaking()), t)
            && r.caches.requested == [Set("k", Num(1)), Set("k", Num(2))]
            && r.caches.store(Plain("k")) == Some(Num(1))
  {
    OvertakingTimely(t);
    OvertakingRun(0, store, t);
    StartAndEnd(store, t);
    assert Overtaking()[0..] == Overtaking();
    hide *;
  }

  lemma StartAndEnd(store: Store, t: Locking.Terms)
    ensures Initial(StateAt(0, store, t)) && StateAt(0, store, t).locks == LocksAt(0, t)
    ensures var r := StateAt(9, store, t).caches;
            r.requested == [Set("k", Num(1)), Set("k", Num(2))] && r.store(Plain("k")) == Some(Num(1))
  {
    var older := Buffered(EmptyBuffer(), Older());
    assert EffectOf(Older(), Plain("k")) == Put(Num(1));
    assert older.puts(Plain("k")) == Some(Num(1));
    forall d | true
      ensures AfterBatch(older, Plain("k"), d) == Some(Num(1))
    {
    }
  }
}
