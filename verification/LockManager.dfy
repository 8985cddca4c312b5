/** Election of one writer by an expiring lease: each manager, and any number of them together. */
module Locking {
  import opened Optional

  /** What a manager keeps of its lock: the token it was granted and until when it may rely on it. */
  datatype Held = Held(token: nat, expiry: int)

  /** The lock field and the two timers. */
  datatype Manager = Manager(lock: Option<Held>, renewTimer: bool, electTimer: bool)

  const IDLE := Manager(None, false, false)
  const WAITING := Manager(None, false, true)

  predicate IsStopped(m: Manager) {
    m.lock.None? && !m.renewTimer && !m.electTimer
  }

  predicate IsElecting(m: Manager) {
    m.lock.None? && !m.renewTimer && m.electTimer
  }

  predicate IsOwning(m: Manager) {
    m.lock.Some? && m.renewTimer && !m.electTimer
  }

  predicate Proper(m: Manager) {
    IsStopped(m) || IsElecting(m) || IsOwning(m)
  }

  // ---------------------------------------------------------------- one manager

  /** What the lock service told the manager. */
  datatype LockReply = Granted(held: Held) | Refused
  datatype ExtendReply = Extended(held: Held) | Expired | Failed

  function Acquired(m: Manager, reply: LockReply): Manager {
    if m.lock.Some? then m
    else match reply
         case Granted(held) => Manager(Some(held), true, false)
         case Refused => WAITING
  }

  function Renewed(m: Manager, reply: ExtendReply): Manager {
    if m.lock.Some? && reply.Extended? then m.(lock := Some(reply.held)) else WAITING
  }

  class LockManager {
    var lock: Option<Held>
    var renewId: bool
    var electId: bool

    function View(): Manager
      reads this
    {
      Manager(lock, renewId, electId)
    }

    constructor ()
      ensures View() == IDLE
    {
      lock, renewId, electId := None, false, false;
    }

    function IsOwner(): bool
      reads this
    {
      lock.Some?
    }

    function IsStarted(): bool
      reads this
    {
      lock.Some? || electId || renewId
    }

    method ClearTimers()
      modifies this`renewId, this`electId
      ensures View() == Manager(lock, false, false)
    {
      if renewId {
        renewId := false;
      }
      if electId {
        electId := false;
      }
    }

    method SetElectTimeout()
      modifies this`electId
      ensures electId
    {
      electId := true;
    }

    /** `reply` is what the lock service would answer; an owner does not ask. */
    method Acquire(reply: LockReply) returns (owner: bool)
      modifies this
      ensures View() == Acquired(old(View()), reply)
      ensures owner <==> old(IsOwner()) || reply.Granted?
    {
      if IsOwner() {
        return true;
      }
      match reply {
        case Granted(held) =>
          lock := Some(held);
          ClearTimers();
          renewId := true;
        case Refused =>
          lock := None;
          ClearTimers();
          SetElectTimeout();
      }
      return IsOwner();
    }

    /** Returns also whether the lock has to be given back to the service. A manager that is not the
        owner starts electing, even a stopped one. */
    method Renew(reply: ExtendReply) returns (owner: bool, unlock: bool)
      requires Proper(View())
      modifies this
      ensures View() == Renewed(old(View()), reply)
      ensures owner <==> old(IsOwner()) && reply.Extended?
      ensures unlock <==> old(IsOwner()) && reply.Failed?
    {
      unlock := false;
      if IsOwner() {
        match reply {
          case Extended(held) =>
            lock := Some(held);
          case Expired =>
            ClearTimers();
            lock := None;
            SetElectTimeout();
          case Failed =>
            ClearTimers();
            unlock := true;
            lock := None;
            SetElectTimeout();
        }
      } else {
        ClearTimers();
        SetElectTimeout();
      }
      owner := IsOwner();
    }

    method Release() returns (unlock: bool)
      modifies this
      ensures View() == IDLE && (unlock <==> old(IsOwner()))
    {
      ClearTimers();
      unlock := IsOwner();
      lock := None;
    }

    method Stop() returns (unlock: bool)
      modifies this
      ensures View() == IDLE && (unlock <==> old(IsOwner()))
    {
      ClearTimers();
      unlock := false;
      if IsStarted() {
        unlock := Release();
      }
    }

    method Start(reply: LockReply) returns (owner: bool)
      requires Proper(View())
      modifies this
      ensures View() == if old(IsStopped(View())) then Acquired(IDLE, reply) else old(View())
      ensures owner <==> IsOwner()
    {
      if !IsStarted() {
        var _ := Acquire(reply);
      }
      return IsOwner();
    }
  }

  // ---------------------------------------------------------------- the lease and many managers

  datatype Grant = Grant(token: nat, expiry: int)

  /** The service grants for `ttl`; a holder relies on the grant for `drift` less. */
  datatype Terms = Terms(ttl: nat, drift: nat)

  datatype System = System(now: int, lease: Option<Grant>, nextToken: nat, managers: seq<Manager>)

  /** How one request to the lock service may go. */
  datatype Net = Delivered | RequestLost | ReplyLost

  datatype Action =
    | Advance(elapsed: nat)
    | Start(i: nat, net: Net)
    | Acquire(i: nat, net: Net)
    | Renew(i: nat, net: Net, unlockNet: Net)
    | Release(i: nat, net: Net)
    | Stop(i: nat, net: Net)

  predicate Live(s: System) {
    s.lease.Some? && s.now < s.lease.value.expiry
  }

  function LockLease(s: System, net: Net, t: Terms): (System, LockReply) {
    if Live(s) || net.RequestLost? then (s, Refused)
    else
      var s' := s.(lease := Some(Grant(s.nextToken, s.now + t.ttl)), nextToken := s.nextToken + 1);
      (s', if net.Delivered? then Granted(Held(s.nextToken, s.now + t.ttl - t.drift)) else Refused)
  }

  function ExtendLease(s: System, h: Held, net: Net, t: Terms): (System, ExtendReply) {
    if h.expiry < s.now then (s, Expired)
    else if net.RequestLost? || !Live(s) || s.lease.value.token != h.token then (s, Failed)
    else
      var s' := s.(lease := Some(Grant(h.token, s.now + t.ttl)));
      (s', if net.Delivered? then Extended(Held(h.token, s.now + t.ttl - t.drift)) else Failed)
  }

  function UnlockLease(s: System, h: Held, net: Net): System {
    if !net.RequestLost? && s.lease.Some? && s.lease.value.token == h.token then s.(lease := None) else s
  }

  function Set(s: System, i: nat, m: Manager): System
    requires i < |s.managers|
  {
    s.(managers := s.managers[i := m])
  }

  function AcquireStep(s: System, i: nat, net: Net, t: Terms): System
    requires i < |s.managers|
  {
    if s.managers[i].lock.Some? then s
    else
      var (s', reply) := LockLease(s, net, t);
      Set(s', i, Acquired(s.managers[i], reply))
  }

  function RenewStep(s: System, i: nat, net: Net, unlockNet: Net, t: Terms): System
    requires i < |s.managers|
  {
    var m := s.managers[i];
    if m.lock.None? then Set(s, i, Renewed(m, Failed))
    else
      var (s', reply) := ExtendLease(s, m.lock.value, net, t);
      var s'' := if reply.Failed? then UnlockLease(s', m.lock.value, unlockNet) else s';
      Set(s'', i, Renewed(m, reply))
  }

  function ReleaseStep(s: System, i: nat, net: Net): System
    requires i < |s.managers|
  {
    var m := s.managers[i];
    Set(if m.lock.Some? then UnlockLease(s, m.lock.value, net) else s, i, IDLE)
  }

  function Step(s: System, a: Action, t: Terms): System {
    match a
    case Advance(elapsed) => s.(now := s.now + elapsed)
    case Start(i, net) => if i < |s.managers| && IsStopped(s.managers[i]) then AcquireStep(s, i, net, t) else s
    case Acquire(i, net) => if i < |s.managers| then AcquireStep(s, i, net, t) else s
    case Renew(i, net, unlockNet) => if i < |s.managers| then RenewStep(s, i, net, unlockNet, t) else s
    case Release(i, net) => if i < |s.managers| then ReleaseStep(s, i, net) else s
    case Stop(i, net) => if i < |s.managers| then ReleaseStep(s, i, net) else s
  }

  function Run(s: System, actions: seq<Action>, t: Terms): System
    decreases |actions|
  {
    if actions == [] then s else Run(Step(s, actions[0], t), actions[1..], t)
  }

  ghost predicate Initial(s: System) {
    s.lease.None? && forall i :: 0 <= i < |s.managers| ==> s.managers[i] == IDLE
  }

  predicate Owner(s: System, i: int) {
    0 <= i < |s.managers| && s.managers[i].lock.Some?
  }

  /** Manager `i` may still rely on its lock. */
  predicate Unexpired(s: System, i: int) {
    Owner(s, i) && s.now < s.managers[i].lock.value.expiry
  }

  // ---------------------------------------------------------------- safety

  /** An unexpired lock is the live lease, and nobody else has its token. */
  ghost predicate Backed(s: System, i: int) {
    0 <= i < |s.managers| && s.managers[i].lock.Some? ==>
      var h := s.managers[i].lock.value;
      && h.token < s.nextToken
      && (s.now < h.expiry ==> s.lease.Some? && s.lease.value.token == h.token && h.expiry <= s.lease.value.expiry)
  }

  predicate Apart(a: Manager, b: Manager) {
    a.lock.Some? && b.lock.Some? ==> a.lock.value.token != b.lock.value.token
  }

  ghost predicate Safe(s: System) {
    && (forall i :: 0 <= i < |s.managers| ==> Proper(s.managers[i]) && Backed(s, i))
    && (forall i, j :: 0 <= i < j < |s.managers| ==> Apart(s.managers[i], s.managers[j]))
    && (s.lease.Some? ==> s.lease.value.token < s.nextToken)
  }

  /** Replacing one manager, with the lease changed only in ways that other owners do not notice. */
  lemma SafeSet(s: System, s': System, i: nat, m: Manager)
    requires Safe(s) && i < |s.managers| && s'.now == s.now && s'.managers == s.managers
    requires s'.nextToken >= s.nextToken && (s'.lease.Some? ==> s'.lease.value.token < s'.nextToken)
    requires forall j :: 0 <= j < |s.managers| && j != i ==> Backed(s', j)
    requires Proper(m) && Backed(Set(s', i, m), i)
    requires m.lock.Some? ==>
               m.lock.value.token >= s.nextToken ||
               (s.managers[i].lock.Some? && m.lock.value.token == s.managers[i].lock.value.token)
    ensures Safe(Set(s', i, m))
  {
    var r := Set(s', i, m);
    forall j | 0 <= j < |r.managers|
      ensures Proper(r.managers[j]) && Backed(r, j)
    {
      assert j != i ==> Backed(s', j) && Backed(s, j);
    }
    forall j, k | 0 <= j < k < |r.managers|
      ensures Apart(r.managers[j], r.managers[k])
    {
      assert Apart(s.managers[j], s.managers[k]);
      assert Backed(s, j) && Backed(s, k);
    }
  }

  lemma SafeAcquire(s: System, i: nat, net: Net, t: Terms)
    requires Safe(s) && i < |s.managers|
    ensures Safe(AcquireStep(s, i, net, t))
  {
    if s.managers[i].lock.None? {
      var (s', reply) := LockLease(s, net, t);
      forall j | 0 <= j < |s.managers| && j != i
        ensures Backed(s', j)
      {
        assert Backed(s, j);
      }
      SafeSet(s, s', i, Acquired(s.managers[i], reply));
    }
  }

  /** A change of one's own lease goes unnoticed by the other owners. */
  lemma SafeOwn(s: System, s': System, i: nat, m: Manager)
    requires Safe(s) && Owner(s, i) && s' == s.(lease := s'.lease)
    requires s'.lease == s.lease ||
             (s.lease.Some? && s.lease.value.token == s.managers[i].lock.value.token &&
              (s'.lease.Some? ==> s'.lease.value.token == s.lease.value.token))
    requires Proper(m) && Backed(Set(s', i, m), i)
    requires m.lock.Some? ==> m.lock.value.token == s.managers[i].lock.value.token
    ensures Safe(Set(s', i, m))
  {
    assert Backed(s, i);
    forall j | 0 <= j < |s.managers| && j != i
      ensures Backed(s', j)
    {
      assert Backed(s, j);
      assert Apart(s.managers[if i < j then i else j], s.managers[if i < j then j else i]);
    }
    SafeSet(s, s', i, m);
  }

  lemma SafeRenew(s: System, i: nat, net: Net, unlockNet: Net, t: Terms)
    requires Safe(s) && i < |s.managers|
    ensures Safe(RenewStep(s, i, net, unlockNet, t))
  {
    var m := s.managers[i];
    if m.lock.None? {
      SafeSet(s, s, i, WAITING);
    } else {
      assert Backed(s, i);
      var (s', reply) := ExtendLease(s, m.lock.value, net, t);
      var s'' := if reply.Failed? then UnlockLease(s', m.lock.value, unlockNet) else s';
      SafeOwn(s, s'', i, Renewed(m, reply));
    }
  }

  lemma SafeRelease(s: System, i: nat, net: Net)
    requires Safe(s) && i < |s.managers|
    ensures Safe(ReleaseStep(s, i, net))
  {
    if s.managers[i].lock.Some? {
      SafeOwn(s, UnlockLease(s, s.managers[i].lock.value, net), i, IDLE);
    } else {
      SafeSet(s, s, i, IDLE);
    }
  }

  lemma SafeStep(s: System, a: Action, t: Terms)
    requires Safe(s)
    ensures Safe(Step(s, a, t))
  {
    match a {
      case Advance(elapsed) =>
        var s' := s.(now := s.now + elapsed);
        forall j | 0 <= j < |s'.managers|
          ensures Proper(s'.managers[j]) && Backed(s', j)
        {
          assert Backed(s, j);
        }
      case Start(i, net) =>
        if i < |s.managers| {
          SafeAcquire(s, i, net, t);
        }
      case Acquire(i, net) =>
        if i < |s.managers| {
          SafeAcquire(s, i, net, t);
        }
      case Renew(i, net, unlockNet) =>
        if i < |s.managers| {
          SafeRenew(s, i, net, unlockNet, t);
        }
      case Release(i, net) =>
        if i < |s.managers| {
          SafeRelease(s, i, net);
        }
      case Stop(i, net) =>
        if i < |s.managers| {
          SafeRelease(s, i, net);
        }
    }
  }

  lemma {:induction false} SafeRun(s: System, actions: seq<Action>, t: Terms)
    requires Safe(s)
    ensures Safe(Run(s, actions, t))
    decreases |actions|
  {
    if actions != [] {
      SafeStep(s, actions[0], t);
      SafeRun(Step(s, actions[0], t), actions[1..], t);
    }
  }

  /** In every reachable state each manager is in exactly one of the three modes, and at most one
      manager has a lock it may still rely on, whatever requests and replies were lost. */
  lemma OneUnexpiredOwner(s: System, actions: seq<Action>, t: Terms, i: int, j: int)
    requires Initial(s)
    ensures var r := Run(s, actions, t);
            && (0 <= i < |r.managers| ==>
                  && (IsStopped(r.managers[i]) || IsElecting(r.managers[i]) || IsOwning(r.managers[i]))
                  && (Owner(r, i) <==> IsOwning(r.managers[i])))
            && (Unexpired(r, i) && Unexpired(r, j) ==> i == j)
  {
    SafeRun(s, actions, t);
    var r := Run(s, actions, t);
    hide Run;
    assert 0 <= i < |r.managers| ==> Proper(r.managers[i]) && Backed(r, i);
    assert 0 <= j < |r.managers| ==> Backed(r, j);
    if 0 <= i < j < |r.managers| {
      assert Apart(r.managers[i], r.managers[j]);
    } else if 0 <= j < i < |r.managers| {
      assert Apart(r.managers[j], r.managers[i]);
    }
  }

  // ---------------------------------------------------------------- managers that keep trying

  /** Where a manager stands as a caller sees it: not started, or stopped; trying; or holding the lock. */
  datatype Standing = Out | Trying | In

  predicate Grants(s: System, net: Net) {
    net.Delivered? && !Live(s)
  }

  predicate Extends(s: System, i: nat, net: Net) {
    && net.Delivered? && Live(s) && Owner(s, i)
    && s.now <= s.managers[i].lock.value.expiry && s.lease.value.token == s.managers[i].lock.value.token
  }

  function StandNext(st: Standing, s: System, a: Action, i: nat): Standing {
    if a.Advance? || a.i != i then st
    else match a
         case Start(_, net) => if st != Out then st else if Grants(s, net) then In else Trying
         case Acquire(_, net) => if st == In || Grants(s, net) then In else Trying
         case Renew(_, net, _) => if st == In && Extends(s, i, net) then In else Trying
         case Release(_, _) => Out
         case Stop(_, _) => Out
  }

  function StandAfter(st: Standing, s: System, actions: seq<Action>, t: Terms, i: nat): Standing
    decreases |actions|
  {
    if actions == [] then st
    else StandAfter(StandNext(st, s, actions[0], i), Step(s, actions[0], t), actions[1..], t, i)
  }

  predicate StandsAt(m: Manager, st: Standing) {
    match st
    case Out => IsStopped(m)
    case Trying => IsElecting(m)
    case In => IsOwning(m)
  }

  lemma StandStep(st: Standing, s: System, a: Action, t: Terms, i: nat)
    requires i < |s.managers| && StandsAt(s.managers[i], st)
    ensures i < |Step(s, a, t).managers| && StandsAt(Step(s, a, t).managers[i], StandNext(st, s, a, i))
  {
  }

  lemma {:induction false} StandRun(st: Standing, s: System, actions: seq<Action>, t: Terms, i: nat)
    requires i < |s.managers| && StandsAt(s.managers[i], st)
    ensures i < |Run(s, actions, t).managers|
    ensures StandsAt(Run(s, actions, t).managers[i], StandAfter(st, s, actions, t, i))
    decreases |actions|
  {
    if actions != [] {
      StandStep(st, s, actions[0], t, i);
      StandRun(StandNext(st, s, actions[0], i), Step(s, actions[0], t), actions[1..], t, i);
    }
  }

  /** In every run a manager owns the lock exactly if the last request of its that the service answered
      was granted or extended and it was not given up since, and it is electing exactly if it has
      asked, in vain or no longer, and was not stopped since. */
  lemma ModeFollowsReplies(s: System, actions: seq<Action>, t: Terms, i: nat)
    requires Initial(s) && i < |s.managers|
    ensures i < |Run(s, actions, t).managers|
    ensures var m, st := Run(s, actions, t).managers[i], StandAfter(Out, s, actions, t, i);
            && (IsStopped(m) <==> st == Out) && (IsElecting(m) <==> st == Trying) && (IsOwning(m) <==> st == In)
  {
    StandRun(Out, s, actions, t, i);
  }

  /** The last action that concerns manager `i`. */
  function LastFor(actions: seq<Action>, i: nat): Option<Action>
    decreases |actions|
  {
    if actions == [] then None
    else
      var a := actions[|actions| - 1];
      if !a.Advance? && a.i == i then Some(a) else LastFor(actions[..|actions| - 1], i)
  }

  lemma {:induction false} StandMore(st: Standing, s: System, actions: seq<Action>, a: Action, t: Terms, i: nat)
    ensures StandAfter(st, s, actions + [a], t, i) ==
            StandNext(StandAfter(st, s, actions, t, i), Run(s, actions, t), a, i)
    decreases |actions|
  {
    if actions == [] {
      assert ([] + [a])[1..] == [] && ([] + [a])[0] == a;
      assert StandAfter(StandNext(st, s, a, i), Step(s, a, t), [], t, i) == StandNext(st, s, a, i);
    } else {
      assert (actions + [a])[1..] == actions[1..] + [a];
      StandMore(StandNext(st, s, actions[0], i), Step(s, actions[0], t), actions[1..], a, t, i);
    }
  }

  lemma {:induction false} StandOfLast(s: System, actions: seq<Action>, t: Terms, i: nat)
    ensures var last := LastFor(actions, i);
            StandAfter(Out, s, actions, t, i) == Out <==> last.None? || last.value.Release? || last.value.Stop?
    decreases |actions|
  {
    if actions != [] {
      var front, a := actions[..|actions| - 1], actions[|actions| - 1];
      assert actions == front + [a];
      StandMore(Out, s, front, a, t, i);
      StandOfLast(s, front, t, i);
    }
  }

  /** A manager that was started, asked or renewed, and was neither released nor stopped since, holds the
      lock or has its elect timer running, whatever it was answered: it never gives up by itself. */
  lemma KeepsTrying(s: System, actions: seq<Action>, t: Terms, i: nat)
    requires Initial(s) && i < |s.managers|
    ensures i < |Run(s, actions, t).managers|
    ensures var m, last := Run(s, actions, t).managers[i], LastFor(actions, i);
            if last.None? || last.value.Release? || last.value.Stop? then IsStopped(m)
            else IsElecting(m) || IsOwning(m)
  {
    StandRun(Out, s, actions, t, i);
    StandOfLast(s, actions, t, i);
  }

  /** A lock that is released, or whose renewal went wrong before it expired, is free at once if the
      request to give it back arrives; one that expired is not given back. */
  lemma GivenBack(s: System, i: nat, net: Net, unlockNet: Net, t: Terms)
    requires Owner(s, i) && s.lease.Some? && s.lease.value.token == s.managers[i].lock.value.token
    ensures unlockNet != RequestLost ==>
              && Step(s, Release(i, unlockNet), t).lease == None && Step(s, Stop(i, unlockNet), t).lease == None
              && (net != Delivered && s.now <= s.managers[i].lock.value.expiry ==>
                    Step(s, Renew(i, net, unlockNet), t).lease == None)
    ensures unlockNet == RequestLost ==>
              && Step(s, Release(i, unlockNet), t).lease == s.lease && Step(s, Stop(i, unlockNet), t).lease == s.lease
    ensures s.managers[i].lock.value.expiry < s.now ==> Step(s, Renew(i, net, unlockNet), t).lease == s.lease
  {
  }

  // ---------------------------------------------------------------- owners that renew in time

  /** Time never passes an owner's expiry before that owner has renewed or given up its lock. */
  ghost predicate Timely(s: System, actions: seq<Action>, t: Terms)
    decreases |actions|
  {
    actions == [] ||
    (Punctual(Step(s, actions[0], t)) && Timely(Step(s, actions[0], t), actions[1..], t))
  }

  ghost predicate Punctual(s: System) {
    forall i :: Owner(s, i) ==> Unexpired(s, i)
  }

  lemma {:induction false} PunctualRun(s: System, actions: seq<Action>, t: Terms)
    requires Punctual(s) && Timely(s, actions, t)
    ensures Punctual(Run(s, actions, t))
    decreases |actions|
  {
    if actions != [] {
      PunctualRun(Step(s, actions[0], t), actions[1..], t);
    }
  }

  /** When every owner renews before its lock expires, no reachable state has two owners. */
  lemma OneOwner(s: System, actions: seq<Action>, t: Terms, i: int, j: int)
    requires Initial(s) && Timely(s, actions, t)
    requires Owner(Run(s, actions, t), i) && Owner(Run(s, actions, t), j)
    ensures i == j
  {
    assert Punctual(s);
    PunctualRun(s, actions, t);
    OneUnexpiredOwner(s, actions, t, i, j);
  }

  // ---------------------------------------------------------------- exactly when there are two

  ghost predicate TwoOwners(s: System) {
    exists i, j :: i != j && Owner(s, i) && Owner(s, j)
  }

  /** A manager that does not own the lock asks for it, and is answered, while the lease has lapsed
      and another manager still takes itself for the owner. */
  ghost predicate Doubles(s: System, a: Action) {
    && (a.Acquire? || (a.Start? && a.i < |s.managers| && IsStopped(s.managers[a.i])))
    && a.i < |s.managers| && !Owner(s, a.i) && a.net.Delivered? && !Live(s)
    && exists j :: Owner(s, j)
  }

  /** Only a delivered grant to the manager that asks makes an owner. */
  lemma NewOwner(s: System, a: Action, t: Terms, i: int)
    ensures Owner(Step(s, a, t), i) && !Owner(s, i) ==>
              && (a.Acquire? || a.Start?) && i == a.i && a.net.Delivered? && !Live(s)
              && (a.Start? ==> IsStopped(s.managers[a.i]))
  {
  }

  lemma DoublesExact(s: System, a: Action, t: Terms)
    requires !TwoOwners(s)
    ensures TwoOwners(Step(s, a, t)) <==> Doubles(s, a)
  {
    var r := Step(s, a, t);
    if Doubles(s, a) {
      var j :| Owner(s, j);
      assert Owner(r, a.i) && Owner(r, j) && a.i != j;
    } else {
      forall i, j | i != j
        ensures !(Owner(r, i) && Owner(r, j))
      {
        assert !(Owner(s, i) && Owner(s, j));
        assert Owner(s, i) || Owner(s, j) ==> exists k :: Owner(s, k);
        NewOwner(s, a, t, i);
        NewOwner(s, a, t, j);
      }
    }
  }

  /** No state along the run has two owners. */
  ghost predicate NeverTwo(s: System, actions: seq<Action>, t: Terms)
    decreases |actions|
  {
    !TwoOwners(s) && (actions == [] || NeverTwo(Step(s, actions[0], t), actions[1..], t))
  }

  ghost predicate NeverDoubles(s: System, actions: seq<Action>, t: Terms)
    decreases |actions|
  {
    actions == [] || (!Doubles(s, actions[0]) && NeverDoubles(Step(s, actions[0], t), actions[1..], t))
  }

  lemma {:induction false} NeverTwoExact(s: System, actions: seq<Action>, t: Terms)
    requires !TwoOwners(s)
    ensures NeverTwo(s, actions, t) <==> NeverDoubles(s, actions, t)
    decreases |actions|
  {
    if actions != [] {
      DoublesExact(s, actions[0], t);
      if !Doubles(s, actions[0]) {
        NeverTwoExact(Step(s, actions[0], t), actions[1..], t);
      }
    }
  }

  /** For every run of any number of managers: no reachable state has two owners if and only if no
      manager is granted the lock after the lease of one that still takes itself for the owner. */
  lemma OneOwnerExact(s: System, actions: seq<Action>, t: Terms)
    requires Initial(s)
    ensures NeverTwo(s, actions, t) <==> NeverDoubles(s, actions, t)
  {
    NeverTwoExact(s, actions, t);
  }

  /** Renewing in time is one way of meeting the condition, and not the only one. */
  lemma {:induction false} TimelyNeverDoubles(s: System, actions: seq<Action>, t: Terms)
    requires Safe(s) && Punctual(s) && Timely(s, actions, t)
    ensures NeverDoubles(s, actions, t)
    decreases |actions|
  {
    if actions != [] {
      SafeStep(s, actions[0], t);
      TimelyNeverDoubles(Step(s, actions[0], t), actions[1..], t);
      forall j | Owner(s, j)
        ensures Live(s)
      {
        assert Unexpired(s, j) && Backed(s, j);
      }
    }
  }

  lemma LateButAlone()
    ensures var s, t := System(0, None, 0, [IDLE, IDLE]), Terms(10, 1);
            var actions := [Start(0, Delivered), Advance(9), Acquire(1, Delivered)];
            !Timely(s, actions, t) && NeverTwo(s, actions, t)
  {
    var s0, t := System(0, None, 0, [IDLE, IDLE]), Terms(10, 1);
    var a0, a1, a2 := Start(0, Delivered), Advance(9), Acquire(1, Delivered);
    var s1 := Step(s0, a0, t);
    var s2 := Step(s1, a1, t);
    var s3 := Step(s2, a2, t);
    assert [a0, a1, a2][1..] == [a1, a2] && [a1, a2][1..] == [a2] && [a2][1..] == [];
    assert Owner(s2, 0) && !Unexpired(s2, 0);
    assert !Punctual(s2);
    assert !Timely(s1, [a1, a2], t);
    assert !Timely(s0, [a0, a1, a2], t);
    assert !Doubles(s0, a0) && !Doubles(s1, a1) && !Doubles(s2, a2);
    assert NeverDoubles(s3, [], t);
    assert NeverDoubles(s2, [a2], t);
    assert NeverDoubles(s1, [a1, a2], t);
    assert NeverDoubles(s0, [a0, a1, a2], t);
    NeverTwoExact(s0, [a0, a1, a2], t);
  }

  /** The step that makes a second owner: an owner's lease has lapsed unrenewed, another asks. */
  lemma LateOwnerIsDoubled(s: System, i: int, j: int, t: Terms)
    requires Owner(s, i) && !Live(s) && 0 <= j < |s.managers| && !Owner(s, j)
    ensures var r := Step(s, Acquire(j, Delivered), t);
            i != j && Owner(r, i) && Owner(r, j)
  {
  }

  /** Such a run: the first manager acquires, its lease runs out, the second acquires. */
  lemma LateRenewalBreaksOwnership(t: Terms)
    ensures var s := System(0, None, 0, [IDLE, IDLE]);
            var actions := [Start(0, Delivered), Start(1, Delivered), Advance(t.ttl), Acquire(1, Delivered)];
            && Initial(s)
            && Owner(Run(s, actions, t), 0) && Owner(Run(s, actions, t), 1)
            && !Timely(s, actions, t)
  {
    var s0 := System(0, None, 0, [IDLE, IDLE]);
    var a0, a1, a2, a3 := Start(0, Delivered), Start(1, Delivered), Advance(t.ttl), Acquire(1, Delivered);
    var s1 := Step(s0, a0, t);
    var s2 := Step(s1, a1, t);
    var s3 := Step(s2, a2, t);
    var s4 := Step(s3, a3, t);
    assert [a2, a3][1..] == [a3] && [a1, a2, a3][1..] == [a2, a3] && [a0, a1, a2, a3][1..] == [a1, a2, a3];
    assert [a3][1..] == [];
    assert Run(s3, [a3], t) == s4;
    assert Run(s2, [a2, a3], t) == s4;
    assert Run(s1, [a1, a2, a3], t) == s4;
    assert Run(s0, [a0, a1, a2, a3], t) == s4;
    assert Owner(s1, 0) && Owner(s2, 0) && Owner(s3, 0) && Owner(s4, 0);
    assert Owner(s4, 1);
    if Timely(s0, [a0, a1, a2, a3], t) {
      OneOwner(s0, [a0, a1, a2, a3], t, 0, 1);
    }
  }

  /** A renew timer that fires with period `p` while a rival keeps asking for the lock. */
  function Rounds(p: nat, k: nat): seq<Action> {
    if k == 0 then [] else [Advance(p), Acquire(1, Delivered), Renew(0, Delivered, Delivered)] + Rounds(p, k - 1)
  }

  predicate Holding(s: System, t: Terms) {
    && |s.managers| == 2 && s.managers[0].lock.Some? && s.managers[1].lock.None?
    && s.managers[0].lock.value.expiry == s.now + t.ttl - t.drift
    && s.lease == Some(Grant(s.managers[0].lock.value.token, s.now + t.ttl))
  }

  lemma OneRound(s: System, p: nat, t: Terms, rest: seq<Action>)
    requires Holding(s, t) && p < t.ttl - t.drift
    ensures exists s' ::
              && Holding(s', t)
              && Run(s, [Advance(p), Acquire(1, Delivered), Renew(0, Delivered, Delivered)] + rest, t) ==
                 Run(s', rest, t)
              && (Timely(s', rest, t) ==>
                    Timely(s, [Advance(p), Acquire(1, Delivered), Renew(0, Delivered, Delivered)] + rest, t))
  {
    var a0, a1, a2 := Advance(p), Acquire(1, Delivered), Renew(0, Delivered, Delivered);
    var s1 := Step(s, a0, t);
    var s2 := Step(s1, a1, t);
    var s3 := Step(s2, a2, t);
    assert [a2] + rest == ([a1, a2] + rest)[1..] && [a1, a2] + rest == ([a0, a1, a2] + rest)[1..];
    assert rest == ([a2] + rest)[1..];
    assert Run(s2, [a2] + rest, t) == Run(s3, rest, t);
    assert Run(s1, [a1, a2] + rest, t) == Run(s3, rest, t);
    assert Holding(s3, t) && Punctual(s1) && Punctual(s2) && Punctual(s3);
    if Timely(s3, rest, t) {
      assert Timely(s2, [a2] + rest, t);
      assert Timely(s1, [a1, a2] + rest, t);
    }
  }

  /** An owner whose renew timer is shorter than the lease keeps the lock for good: the run is timely
      and every attempt of the rival is refused. */
  lemma {:induction false} SteadyOwner(s: System, p: nat, k: nat, t: Terms)
    requires Holding(s, t) && p < t.ttl - t.drift
    ensures Timely(s, Rounds(p, k), t) && Holding(Run(s, Rounds(p, k), t), t)
    decreases k
  {
    if k > 0 {
      OneRound(s, p, t, Rounds(p, k - 1));
      var s' :| && Holding(s', t)
                && Run(s, Rounds(p, k), t) == Run(s', Rounds(p, k - 1), t)
                && (Timely(s', Rounds(p, k - 1), t) ==> Timely(s, Rounds(p, k), t));
      SteadyOwner(s', p, k - 1, t);
    }
  }
}
