/**
 Many processes running the policy operations on one keyring. Every backend call is a step of its
 own; between any two steps a process may crash, which drops its lock; a call may fail before or
 after its effect; a stored policy item may become unreadable at any time.
 */
module PolicyMachine {
  import opened ByteStrings
  import opened SecretPolicy

  /** What a process does: nothing, wait for the policy lock, or run an operation holding it. */
  datatype Proc = Idle | Waiting(op: Op) | Running(op: Op, phase: Phase)

  /** Whose value a generation is, and the policy its set asked for. */
  datatype Origin = Origin(name: string, policy: Option<SecretMeta>)

  datatype State = State(
    store: Store,
    procs: map<nat, Proc>,
    next: nat,                     // the next unused generation
    origins: map<nat, Origin>,     // by generation
    landed: map<string, nat>,      // by name: the last set whose pending marker was stored
    gone: set<nat>                 // generations removed from the store or overwritten
  )

  datatype Event =
    | Start(pid: nat, op: Op)
    | GiveUp(pid: nat)
    | Acquire(pid: nat)
    | Call(pid: nat, fault: Fault, time: int)
    | Release(pid: nat)
    | Crash(pid: nat)
    | Corrupt(name: string)

  /** Reads and dry runs share the lock; everything that changes the keyring excludes. */
  predicate Shares(op: Op) {
    op.kind.ResolveOp? || (op.kind.PruneOp? && op.kind.dryRun)
  }

  predicate RunsCall(s: State, p: nat) {
    p in s.procs && s.procs[p].Running?
  }

  /** flock: an exclusive holder has the lock alone. */
  ghost predicate CanLock(s: State, p: nat, op: Op) {
    forall q :: q != p && RunsCall(s, q) ==> Shares(op) && Shares(s.procs[q].op)
  }

  /** A set writes a value no one has written before. */
  function Tagged(s: State, op: Op): Op {
    if op.kind.StoreOp? then Op(op.name, StoreOp(s.next, op.kind.policy)) else op
  }

  ghost predicate Enabled(s: State, e: Event) {
    match e
    case Start(p, op) => p in s.procs && s.procs[p].Idle? && !IsMetaKey(op.name)
    case GiveUp(p) => p in s.procs && s.procs[p].Waiting?
    case Acquire(p) => p in s.procs && s.procs[p].Waiting? && CanLock(s, p, s.procs[p].op)
    case Call(p, _, _) => RunsCall(s, p) && !s.procs[p].phase.Done? && Fits(s.procs[p].op, s.procs[p].phase)
    case Release(p) => RunsCall(s, p) && s.procs[p].phase.Done?
    case Crash(p) => p in s.procs
    case Corrupt(name) => MetaKey(name) in s.store
  }

  function Turned(s: State, p: nat, fault: Fault, time: int): Turn
    requires RunsCall(s, p) && Fits(s.procs[p].op, s.procs[p].phase)
  {
    Advance(s.procs[p].op, s.procs[p].phase, s.store, fault, time)
  }

  /** The generations a store holds under a name. */
  function GenAt(st: Store, name: string): Option<nat> {
    if name in st && st[name].Value? then Some(st[name].gen) else None
  }

  function Apply(s: State, e: Event): State
    requires Enabled(s, e)
  {
    match e
    case Start(p, op) =>
      var op := Tagged(s, op);
      var s := s.(procs := s.procs[p := Waiting(op)]);
      if op.kind.StoreOp? then
        s.(next := s.next + 1, origins := s.origins[s.next := Origin(op.name, op.kind.policy)])
      else s
    case GiveUp(p) => s.(procs := s.procs[p := Idle])
    case Acquire(p) => s.(procs := s.procs[p := Running(s.procs[p].op, FirstPhase(s.procs[p].op))])
    case Call(p, fault, time) =>
      var op, ph := s.procs[p].op, s.procs[p].phase;
      var turn := Turned(s, p, fault, time);
      var before := GenAt(s.store, op.name);
      s.(store := turn.store,
         procs := s.procs[p := Running(op, turn.phase)],
         landed := if ph.Mark? && fault != FailBefore then s.landed[op.name := op.kind.gen] else s.landed,
         gone := if before.Some? && GenAt(turn.store, op.name) != before then s.gone + {before.value} else s.gone)
    case Release(p) => s.(procs := s.procs[p := Idle])
    case Crash(p) => s.(procs := s.procs[p := Idle])
    case Corrupt(name) => s.(store := s.store[MetaKey(name) := Garbled])
  }

  // ---------------------------------------------------------------------------------------------
  // The invariant
  // ---------------------------------------------------------------------------------------------

  predicate Blocked(st: Store, name: string) {
    match MetaOf(st, name)
    case NoMeta => false
    case Readable(m) => m.pending
    case Unreadable => true
  }

  /** The stored policy state is exactly the one generation gen was set with. */
  predicate GovernedBy(st: Store, name: string, policy: Option<SecretMeta>) {
    match MetaOf(st, name)
    case NoMeta => policy.None?
    case Readable(m) => policy == Some(m)
    case Unreadable => false
  }

  /** gen is a value of name's own, still current. */
  predicate Current(s: State, name: string, gen: nat) {
    gen in s.origins && s.origins[gen].name == name && gen !in s.gone && gen < s.next
  }

  /**
   A stored value is blocked by a pending or unreadable policy item, or governed by exactly the
   policy of the set that wrote it, which is then the last set to have left its marker.
   */
  predicate NameOk(s: State, name: string) {
    name in s.store ==>
      && s.store[name].Value?
      && Current(s, name, s.store[name].gen)
      && (Blocked(s.store, name) ||
          (GovernedBy(s.store, name, s.origins[s.store[name].gen].policy) &&
           name in s.landed && s.landed[name] == s.store[name].gen))
  }

  /** The op's generation is known and still to be written. */
  predicate Unwritten(s: State, op: Op) {
    op.kind.StoreOp? ==>
      && Current(s, op.name, op.kind.gen)
      && s.origins[op.kind.gen].policy == op.kind.policy
      && GenAt(s.store, op.name) != Some(op.kind.gen)
  }

  /**
   The value under name, if any, was set with policy m and is the latest, and its policy item still
   says m unless it became unreadable.
   */
  predicate ValueGovernedBy(s: State, name: string, m: Option<SecretMeta>) {
    name in s.store ==>
      && s.store[name].Value?
      && s.store[name].gen in s.origins && s.origins[s.store[name].gen].policy == m
      && name in s.landed && s.landed[name] == s.store[name].gen
      && (MetaOf(s.store, name).Unreadable? || GovernedBy(s.store, name, m))
  }

  /** What prune has made sure of before it deletes: the value's own policy has lapsed. */
  predicate Prunable(s: State, op: Op) {
    op.kind.PruneOp? ==>
      && (op.name in s.store ==>
            && s.store[op.name].Value? && s.store[op.name].gen in s.origins
            && s.origins[s.store[op.name].gen].policy.Some?
            && Lapsed(s.origins[s.store[op.name].gen].policy.value, op.kind.pruneNow))
      && (MetaOf(s.store, op.name).Readable? ==> Lapsed(MetaOf(s.store, op.name).meta, op.kind.pruneNow))
  }

  /** What a running operation may rely on at each phase. */
  predicate PhaseOk(s: State, op: Op, ph: Phase) {
    && !IsMetaKey(op.name)
    && Fits(op, ph)
    && match ph
       case Mark => Unwritten(s, op)
       case WriteValue =>
         && Unwritten(s, op) && Blocked(s.store, op.name)
         && op.name in s.landed && s.landed[op.name] == op.kind.gen
       case Commit =>
         && GenAt(s.store, op.name) == Some(op.kind.gen) && Blocked(s.store, op.name)
         && op.kind.gen in s.origins && s.origins[op.kind.gen].policy == op.kind.policy
         && op.name in s.landed && s.landed[op.name] == op.kind.gen
       case Probe => Prunable(s, op)
       case DropValue(_) => Prunable(s, op)
       case DropMeta => Prunable(s, op) && op.name !in s.store
       case Tombstone(_) => op.name !in s.store
       case ReadValue(m) => ValueGovernedBy(s, op.name, m) && !(m.Some? && m.value.pending) && !IsRevoked(m)
       case Check(g, m) =>
         && GenAt(s.store, op.name) == Some(g)
         && ValueGovernedBy(s, op.name, m) && !(m.Some? && m.value.pending) && !IsRevoked(m)
       case _ => true
  }

  predicate ProcOk(s: State, p: nat) {
    p in s.procs ==>
      match s.procs[p]
      case Idle => true
      case Waiting(op) => !IsMetaKey(op.name) && Unwritten(s, op)
      case Running(op, ph) => PhaseOk(s, op, ph) && (op.kind.StoreOp? ==> op.kind.gen < s.next)
  }

  /** Two processes never write the same generation, and an excluding one runs alone. */
  ghost predicate Apart(s: State, p: nat, q: nat) {
    p in s.procs && q in s.procs && p != q ==>
      && (!s.procs[p].Idle? && !s.procs[q].Idle? && s.procs[p].op.kind.StoreOp? && s.procs[q].op.kind.StoreOp? ==>
            s.procs[p].op.kind.gen != s.procs[q].op.kind.gen)
      && (s.procs[p].Running? && s.procs[q].Running? ==> Shares(s.procs[p].op) && Shares(s.procs[q].op))
  }

  ghost predicate Inv(s: State) {
    && (forall name :: !IsMetaKey(name) ==> NameOk(s, name))
    && (forall p :: ProcOk(s, p))
    && (forall p, q :: Apart(s, p, q))
    && (forall g :: g in s.origins || g in s.gone ==> g < s.next)
  }

  /** Any keyring this protocol could have left behind, and nobody running. */
  ghost predicate Init(s: State) {
    && (forall p :: p in s.procs ==> s.procs[p].Idle?)
    && (forall name :: !IsMetaKey(name) ==> NameOk(s, name))
    && (forall g :: g in s.origins || g in s.gone ==> g < s.next)
  }

  // ---------------------------------------------------------------------------------------------
  // Steps keep it
  // ---------------------------------------------------------------------------------------------

  /** An operation touches only its own two keys. */
  lemma CallFrame(op: Op, ph: Phase, st: Store, fault: Fault, t: int, other: string)
    requires Fits(op, ph) && !IsMetaKey(op.name) && !IsMetaKey(other) && other != op.name
    ensures var st' := Advance(op, ph, st, fault, t).store;
      && (other in st' <==> other in st) && (other in st ==> st'[other] == st[other])
      && (MetaKey(other) in st' <==> MetaKey(other) in st)
      && (MetaKey(other) in st ==> st'[MetaKey(other)] == st[MetaKey(other)])
      && MetaOf(st', other) == MetaOf(st, other)
  {
    MetaKeysApart(op.name, other);
    MetaKeysApart(other, op.name);
  }

  lemma SharedCallChangesNothing(op: Op, ph: Phase, st: Store, fault: Fault, t: int)
    requires Fits(op, ph) && Shares(op)
    ensures Advance(op, ph, st, fault, t).store == st && !ph.Mark?
  {
  }

  lemma CallOwnName(s: State, p: nat, fault: Fault, time: int)
    requires Enabled(s, Call(p, fault, time)) && ProcOk(s, p) && NameOk(s, s.procs[p].op.name)
    ensures NameOk(Apply(s, Call(p, fault, time)), s.procs[p].op.name)
  {
    MetaKeysApart(s.procs[p].op.name, s.procs[p].op.name);
  }

  lemma CallOtherName(s: State, p: nat, fault: Fault, time: int, other: string)
    requires Enabled(s, Call(p, fault, time)) && ProcOk(s, p)
    requires NameOk(s, s.procs[p].op.name) && NameOk(s, other)
    requires !IsMetaKey(other) && other != s.procs[p].op.name
    ensures NameOk(Apply(s, Call(p, fault, time)), other)
  {
    CallFrame(s.procs[p].op, s.procs[p].phase, s.store, fault, time, other);
  }

  /** The operation's next phase may rely on what that phase needs. */
  lemma CallOwnPhase(s: State, p: nat, fault: Fault, time: int)
    requires Enabled(s, Call(p, fault, time)) && ProcOk(s, p) && NameOk(s, s.procs[p].op.name)
    ensures ProcOk(Apply(s, Call(p, fault, time)), p)
  {
    var op := s.procs[p].op;
    if op.kind.StoreOp? {
      StorePhase(s, p, fault, time);
    } else if op.kind.ResolveOp? {
      ResolvePhase(s, p, fault, time);
    } else {
      WipePhase(s, p, fault, time);
    }
  }

  lemma StorePhase(s: State, p: nat, fault: Fault, time: int)
    requires Enabled(s, Call(p, fault, time)) && ProcOk(s, p) && NameOk(s, s.procs[p].op.name)
    requires s.procs[p].op.kind.StoreOp?
    ensures ProcOk(Apply(s, Call(p, fault, time)), p)
  {
    MetaKeysApart(s.procs[p].op.name, s.procs[p].op.name);
  }

  lemma ResolvePhase(s: State, p: nat, fault: Fault, time: int)
    requires Enabled(s, Call(p, fault, time)) && ProcOk(s, p) && NameOk(s, s.procs[p].op.name)
    requires s.procs[p].op.kind.ResolveOp?
    ensures ProcOk(Apply(s, Call(p, fault, time)), p)
  {
  }

  lemma WipePhase(s: State, p: nat, fault: Fault, time: int)
    requires Enabled(s, Call(p, fault, time)) && ProcOk(s, p) && NameOk(s, s.procs[p].op.name)
    requires !s.procs[p].op.kind.StoreOp? && !s.procs[p].op.kind.ResolveOp?
    ensures ProcOk(Apply(s, Call(p, fault, time)), p)
  {
    MetaKeysApart(s.procs[p].op.name, s.procs[p].op.name);
  }

  lemma CallOtherRunning(s: State, p: nat, fault: Fault, time: int, q: nat)
    requires Enabled(s, Call(p, fault, time)) && ProcOk(s, p) && NameOk(s, s.procs[p].op.name)
    requires q != p && ProcOk(s, q) && Apart(s, p, q)
    requires RunsCall(s, q)
    ensures ProcOk(Apply(s, Call(p, fault, time)), q)
  {
    hide Advance, FirstPhase, MetaOf, Blocked, GovernedBy, Lapsed, GenAt, Fits, IsRevoked, NameOk;
    CallFits(s, p, fault, time);
    SharedCallChangesNothing(s.procs[p].op, s.procs[p].phase, s.store, fault, time);
  }

  lemma CallFits(s: State, p: nat, fault: Fault, time: int)
    requires Enabled(s, Call(p, fault, time))
    ensures RunsCall(s, p) && Fits(s.procs[p].op, s.procs[p].phase)
  {
  }

  lemma CallOtherWaiting(s: State, p: nat, fault: Fault, time: int, q: nat)
    requires Enabled(s, Call(p, fault, time)) && ProcOk(s, p) && NameOk(s, s.procs[p].op.name)
    requires q != p && ProcOk(s, q) && Apart(s, p, q)
    requires q in s.procs && s.procs[q].Waiting?
    ensures ProcOk(Apply(s, Call(p, fault, time)), q)
  {
    hide Prunable, ValueGovernedBy, GovernedBy, Lapsed, MetaOf, IsExpiredAt, IsRevoked;
    var op := s.procs[p].op;
    if s.procs[q].op.name != op.name {
      CallFrame(op, s.procs[p].phase, s.store, fault, time, s.procs[q].op.name);
    } else {
      MetaKeysApart(op.name, op.name);
    }
  }

  lemma CallOtherProc(s: State, p: nat, fault: Fault, time: int, q: nat)
    requires Enabled(s, Call(p, fault, time)) && ProcOk(s, p) && NameOk(s, s.procs[p].op.name)
    requires q != p && ProcOk(s, q) && Apart(s, p, q)
    ensures ProcOk(Apply(s, Call(p, fault, time)), q)
  {
    hide Advance, PhaseOk, NameOk;
    if q in s.procs {
      if s.procs[q].Running? {
        CallOtherRunning(s, p, fault, time, q);
      } else if s.procs[q].Waiting? {
        CallOtherWaiting(s, p, fault, time, q);
      }
    }
  }

  lemma CallKeepsInv(s: State, p: nat, fault: Fault, time: int)
    requires Inv(s) && Enabled(s, Call(p, fault, time))
    ensures Inv(Apply(s, Call(p, fault, time)))
  {
    var s' := Apply(s, Call(p, fault, time));
    assert ProcOk(s, p) && NameOk(s, s.procs[p].op.name);
    forall name | !IsMetaKey(name) ensures NameOk(s', name) {
      if name == s.procs[p].op.name {
        CallOwnName(s, p, fault, time);
      } else {
        CallOtherName(s, p, fault, time, name);
      }
    }
    forall q ensures ProcOk(s', q) {
      assert ProcOk(s, q) && Apart(s, p, q);
      if q == p {
        CallOwnPhase(s, p, fault, time);
      } else {
        CallOtherProc(s, p, fault, time, q);
      }
    }
    forall q, r ensures Apart(s', q, r) {
      assert Apart(s, q, r);
    }
  }

  lemma StartOwnProc(s: State, p: nat, op: Op)
    requires Inv(s) && Enabled(s, Start(p, op))
    ensures ProcOk(Apply(s, Start(p, op)), p)
  {
    assert NameOk(s, op.name);
  }

  lemma StartOtherProc(s: State, p: nat, op: Op, q: nat)
    requires Inv(s) && Enabled(s, Start(p, op)) && q != p
    ensures ProcOk(Apply(s, Start(p, op)), q)
  {
    hide Advance, FirstPhase, MetaOf, Blocked, GovernedBy, Lapsed, GenAt, Fits, IsRevoked, NameOk, Apart;
    assert ProcOk(s, q);
  }

  lemma StartApart(s: State, p: nat, op: Op, q: nat, r: nat)
    requires Inv(s) && Enabled(s, Start(p, op))
    ensures Apart(Apply(s, Start(p, op)), q, r)
  {
    assert Apart(s, q, r) && ProcOk(s, q) && ProcOk(s, r);
  }

  lemma StartNames(s: State, p: nat, op: Op, name: string)
    requires Inv(s) && Enabled(s, Start(p, op)) && !IsMetaKey(name)
    ensures NameOk(Apply(s, Start(p, op)), name)
  {
    assert NameOk(s, name);
  }

  lemma StartKeepsInv(s: State, p: nat, op: Op)
    requires Inv(s) && Enabled(s, Start(p, op))
    ensures Inv(Apply(s, Start(p, op)))
  {
    hide NameOk, ProcOk, Apart;
    var s' := Apply(s, Start(p, op));
    forall name | !IsMetaKey(name) ensures NameOk(s', name) {
      StartNames(s, p, op, name);
    }
    forall q ensures ProcOk(s', q) {
      if q == p {
        StartOwnProc(s, p, op);
      } else {
        StartOtherProc(s, p, op, q);
      }
    }
    forall q, r ensures Apart(s', q, r) {
      StartApart(s, p, op, q, r);
    }
  }

  lemma AcquireOther(s: State, p: nat, q: nat)
    requires Inv(s) && Enabled(s, Acquire(p)) && q != p
    ensures ProcOk(Apply(s, Acquire(p)), q)
  {
    hide Advance, FirstPhase, MetaOf, Blocked, GovernedBy, Lapsed, GenAt, Fits, IsRevoked, NameOk, Apart;
    assert ProcOk(s, q);
  }

  lemma AcquireOwn(s: State, p: nat)
    requires Inv(s) && Enabled(s, Acquire(p))
    ensures ProcOk(Apply(s, Acquire(p)), p)
  {
    hide Advance, MetaOf, Blocked, GovernedBy, Lapsed, GenAt, IsRevoked, NameOk, Apart;
    assert ProcOk(s, p);
  }

  lemma AcquireApart(s: State, p: nat, q: nat, r: nat)
    requires Inv(s) && Enabled(s, Acquire(p))
    ensures Apart(Apply(s, Acquire(p)), q, r)
  {
    assert Apart(s, q, r);
  }

  lemma AcquireKeepsInv(s: State, p: nat)
    requires Inv(s) && Enabled(s, Acquire(p))
    ensures Inv(Apply(s, Acquire(p)))
  {
    hide ProcOk, Apart;
    var s' := Apply(s, Acquire(p));
    forall name | !IsMetaKey(name) ensures NameOk(s', name) {
      assert NameOk(s, name);
    }
    forall q ensures ProcOk(s', q) {
      if q == p {
        AcquireOwn(s, p);
      } else {
        AcquireOther(s, p, q);
      }
    }
    forall q, r ensures Apart(s', q, r) {
      AcquireApart(s, p, q, r);
    }
  }

  lemma CorruptKeepsInv(s: State, name: string)
    requires Inv(s) && Enabled(s, Corrupt(name))
    ensures Inv(Apply(s, Corrupt(name)))
  {
    var s' := Apply(s, Corrupt(name));
    forall other | !IsMetaKey(other) ensures NameOk(s', other) {
      assert NameOk(s, other);
      MetaKeysApart(name, other);
    }
    forall q ensures ProcOk(s', q) {
      assert ProcOk(s, q);
      if q in s.procs && !s.procs[q].Idle? {
        MetaKeysApart(name, s.procs[q].op.name);
      }
    }
    forall q, r ensures Apart(s', q, r) {
      assert Apart(s, q, r);
    }
  }

  /** Release, giving up the lock wait, and a crash all leave the process idle. */
  lemma StopKeepsInv(s: State, p: nat)
    requires Inv(s) && p in s.procs
    ensures Inv(s.(procs := s.procs[p := Idle]))
  {
    var s' := s.(procs := s.procs[p := Idle]);
    forall name | !IsMetaKey(name) ensures NameOk(s', name) {
      assert NameOk(s, name);
    }
    forall q ensures ProcOk(s', q) {
      assert ProcOk(s, q);
    }
    forall q, r ensures Apart(s', q, r) {
      assert Apart(s, q, r);
    }
  }

  lemma StepKeepsInv(s: State, e: Event)
    requires Inv(s) && Enabled(s, e)
    ensures Inv(Apply(s, e))
  {
    hide Inv, Enabled;
    match e
    case Start(p, op) => StartKeepsInv(s, p, op);
    case Acquire(p) => AcquireKeepsInv(s, p);
    case Call(p, fault, time) => CallKeepsInv(s, p, fault, time);
    case Corrupt(name) => CorruptKeepsInv(s, name);
    case GiveUp(p) => Known(s, e); StopKeepsInv(s, p);
    case Release(p) => Known(s, e); StopKeepsInv(s, p);
    case Crash(p) => Known(s, e); StopKeepsInv(s, p);
  }

  lemma Known(s: State, e: Event)
    requires Enabled(s, e)
    ensures !e.Corrupt? ==> e.pid in s.procs
  {
  }

  // ---------------------------------------------------------------------------------------------
  // Runs
  // ---------------------------------------------------------------------------------------------

  ghost predicate IsRun(s: State, events: seq<Event>)
    decreases |events|
  {
    events == [] || (Enabled(s, events[0]) && IsRun(Apply(s, events[0]), events[1..]))
  }

  ghost function After(s: State, events: seq<Event>): State
    requires IsRun(s, events)
    decreases |events|
  {
    if events == [] then s else After(Apply(s, events[0]), events[1..])
  }

  /**
   The operation from its present phase on, as the machine runs it when no one else steps: the
   same outcome and the same store as the operation on its own.
   */
  lemma {:induction false} Uninterrupted(s: State, p: nat, plan: nat -> Fault, clock: nat -> int, k: nat)
    returns (events: seq<Event>)
    requires RunsCall(s, p) && Fits(s.procs[p].op, s.procs[p].phase)
    ensures IsRun(s, events)
    ensures var op := s.procs[p].op;
      var result, s' := Finish(op, s.procs[p].phase, s.store, plan, clock, k), After(s, events);
      s'.store == result.store && s'.procs == s.procs[p := Running(op, Done(result.outcome))]
    decreases CallsLeft(s.procs[p].phase)
  {
    hide Advance;
    var op, ph := s.procs[p].op, s.procs[p].phase;
    if ph.Done? {
      events := [];
    } else {
      var e := Call(p, plan(k), clock(k));
      FewerCalls(op, ph, s.store, plan(k), clock(k));
      var rest := Uninterrupted(Apply(s, e), p, plan, clock, k + 1);
      events := [e] + rest;
    }
  }

  lemma FewerCalls(op: Op, ph: Phase, st: Store, fault: Fault, t: int)
    requires Fits(op, ph) && !ph.Done?
    ensures CallsLeft(Advance(op, ph, st, fault, t).phase) < CallsLeft(ph)
  {
  }

  lemma InitInv(s: State)
    requires Init(s)
    ensures Inv(s)
  {
  }

  lemma {:induction false} RunKeepsInv(s: State, events: seq<Event>)
    requires Inv(s) && IsRun(s, events)
    ensures Inv(After(s, events))
    decreases |events|
  {
    if events != [] {
      StepKeepsInv(s, events[0]);
      RunKeepsInv(Apply(s, events[0]), events[1..]);
    }
  }

  /**
   In every run, a value in the store is blocked by a pending or unreadable policy item, or its
   policy item says exactly what the set that wrote it asked for.
   */
  lemma ValueNeverUnderForeignPolicy(s: State, events: seq<Event>, name: string)
    requires Init(s) && IsRun(s, events) && !IsMetaKey(name)
    ensures var st := After(s, events);
      name in st.store ==>
        && st.store[name].Value? && st.store[name].gen in st.origins
        && st.origins[st.store[name].gen].name == name
        && (Blocked(st.store, name) || GovernedBy(st.store, name, st.origins[st.store[name].gen].policy))
  {
    InitInv(s);
    RunKeepsInv(s, events);
    assert NameOk(After(s, events), name);
  }

  /** The call by which a resolve hands out generation g at time t. */
  predicate Resolves(s: State, p: nat, fault: Fault, t: int, g: nat) {
    && RunsCall(s, p) && !s.procs[p].phase.Done? && Fits(s.procs[p].op, s.procs[p].phase)
    && Turned(s, p, fault, t).phase == Done(Returned(g))
  }

  /**
   In every run, a value handed out is the one stored at that moment, written by the last set on
   the name that left its marker, never wiped since, and not lapsed; its own policy is committed:
   the policy item says exactly that policy, or became unreadable after the check.
   */
  lemma ResolveIsCurrent(s: State, events: seq<Event>, p: nat, fault: Fault, t: int, g: nat)
    requires Init(s) && IsRun(s, events) && Resolves(After(s, events), p, fault, t, g)
    ensures var now := After(s, events); var name := now.procs[p].op.name;
      && GenAt(now.store, name) == Some(g)
      && g in now.origins && now.origins[g].name == name
      && name in now.landed && now.landed[name] == g
      && g !in now.gone
      && (MetaOf(now.store, name).Unreadable? || GovernedBy(now.store, name, now.origins[g].policy))
      && !IsExpiredAt(now.origins[g].policy, t)
      && !IsRevoked(now.origins[g].policy)
      && (now.origins[g].policy.Some? ==> !now.origins[g].policy.value.pending)
  {
    InitInv(s);
    RunKeepsInv(s, events);
    ResolvedIsCurrentValue(After(s, events), p, fault, t, g);
  }

  lemma ResolvedIsCurrentValue(now: State, p: nat, fault: Fault, t: int, g: nat)
    requires Inv(now) && Resolves(now, p, fault, t, g)
    ensures var name := now.procs[p].op.name;
      && GenAt(now.store, name) == Some(g)
      && g in now.origins && now.origins[g].name == name
      && name in now.landed && now.landed[name] == g
      && g !in now.gone
      && (MetaOf(now.store, name).Unreadable? || GovernedBy(now.store, name, now.origins[g].policy))
      && !IsExpiredAt(now.origins[g].policy, t)
      && !IsRevoked(now.origins[g].policy)
      && (now.origins[g].policy.Some? ==> !now.origins[g].policy.value.pending)
  {
    assert ProcOk(now, p) && NameOk(now, now.procs[p].op.name);
  }

  /** A delete, revoke or prune that reports success has left no value under the name. */
  lemma SuccessfulWipe(s: State, events: seq<Event>, p: nat, fault: Fault, t: int)
    requires Init(s) && IsRun(s, events)
    requires var now := After(s, events);
      && RunsCall(now, p) && !now.procs[p].phase.Done? && Fits(now.procs[p].op, now.procs[p].phase)
      && Turned(now, p, fault, t).phase == Done(Success) && !Shares(now.procs[p].op) && !now.procs[p].op.kind.StoreOp?
    ensures var now := After(s, events); var op, st' := now.procs[p].op, Turned(now, p, fault, t).store;
      && op.name !in st'
      && (!op.kind.RevokeOp? ==> MetaOf(st', op.name) == NoMeta)
      && (op.kind.RevokeOp? ==> MetaOf(st', op.name).Readable? && MetaOf(st', op.name).meta.revoked == Some(op.kind.revokeNow))
  {
    InitInv(s);
    RunKeepsInv(s, events);
    SuccessLeavesNothing(After(s, events), p, fault, t);
  }

  lemma SuccessLeavesNothing(now: State, p: nat, fault: Fault, t: int)
    requires Inv(now)
    requires && RunsCall(now, p) && !now.procs[p].phase.Done? && Fits(now.procs[p].op, now.procs[p].phase)
      && Turned(now, p, fault, t).phase == Done(Success) && !Shares(now.procs[p].op) && !now.procs[p].op.kind.StoreOp?
    ensures var op, st' := now.procs[p].op, Turned(now, p, fault, t).store;
      && op.name !in st'
      && (!op.kind.RevokeOp? ==> MetaOf(st', op.name) == NoMeta)
      && (op.kind.RevokeOp? ==> MetaOf(st', op.name).Readable? && MetaOf(st', op.name).meta.revoked == Some(op.kind.revokeNow))
  {
    assert ProcOk(now, p);
    MetaKeysApart(now.procs[p].op.name, now.procs[p].op.name);
  }

  /**
   The call with which a set reports success leaves its own value, with its policy item exactly as
   asked for; it is the last set on the name, and a policy of a known version that is not itself a
   marker governs the value from then on.
   */
  lemma SuccessfulSet(s: State, events: seq<Event>, p: nat, fault: Fault, t: int)
    requires Init(s) && IsRun(s, events)
    requires var now := After(s, events);
      && RunsCall(now, p) && !now.procs[p].phase.Done? && Fits(now.procs[p].op, now.procs[p].phase)
      && now.procs[p].op.kind.StoreOp? && Turned(now, p, fault, t).phase == Done(Success)
    ensures var now := After(s, events); var op, st' := now.procs[p].op, Turned(now, p, fault, t).store;
      var policy := op.kind.policy;
      && fault == NoFault
      && GenAt(st', op.name) == Some(op.kind.gen)
      && (policy.None? ==> MetaKey(op.name) !in st')
      && (policy.Some? ==> MetaKey(op.name) in st' && st'[MetaKey(op.name)] == Metadata(policy.value))
      && (policy.None? || policy.value.version == 1 || policy.value.version == 2 ==> GovernedBy(st', op.name, policy))
      && op.name in now.landed && now.landed[op.name] == op.kind.gen
  {
    InitInv(s);
    RunKeepsInv(s, events);
    SetLeavesValue(After(s, events), p, fault, t);
  }

  lemma SetLeavesValue(now: State, p: nat, fault: Fault, t: int)
    requires Inv(now)
    requires && RunsCall(now, p) && !now.procs[p].phase.Done? && Fits(now.procs[p].op, now.procs[p].phase)
      && now.procs[p].op.kind.StoreOp? && Turned(now, p, fault, t).phase == Done(Success)
    ensures var op, st' := now.procs[p].op, Turned(now, p, fault, t).store;
      var policy := op.kind.policy;
      && fault == NoFault
      && GenAt(st', op.name) == Some(op.kind.gen)
      && (policy.None? ==> MetaKey(op.name) !in st')
      && (policy.Some? ==> MetaKey(op.name) in st' && st'[MetaKey(op.name)] == Metadata(policy.value))
      && (policy.None? || policy.value.version == 1 || policy.value.version == 2 ==> GovernedBy(st', op.name, policy))
      && op.name in now.landed && now.landed[op.name] == op.kind.gen
  {
    hide Prunable, ValueGovernedBy, NameOk, Apart, Lapsed, IsExpiredAt, IsRevoked;
    assert ProcOk(now, p);
    MetaKeysApart(now.procs[p].op.name, now.procs[p].op.name);
    assert now.procs[p].phase == Commit;
    MarkerStands(now, p);
  }

  /** Before its commit a set's policy item is there: the marker, or what it became. */
  lemma MarkerStands(now: State, p: nat)
    requires ProcOk(now, p) && RunsCall(now, p) && now.procs[p].phase == Commit
    ensures MetaKey(now.procs[p].op.name) in now.store
  {
  }

  /** No run ends in a deadlock: while any process is busy, some process can go on. */
  lemma NoDeadlock(s: State, events: seq<Event>, p: nat) returns (e: Event)
    requires Init(s) && IsRun(s, events)
    requires p in After(s, events).procs && !After(s, events).procs[p].Idle?
    ensures Enabled(After(s, events), e) && (e.Call? || e.Release? || e.Acquire?)
  {
    hide Inv, Init, NameOk, Apart, Prunable, ValueGovernedBy, Unwritten;
    InitInv(s);
    RunKeepsInv(s, events);
    e := Goes(After(s, events), p);
  }

  lemma Goes(now: State, p: nat) returns (e: Event)
    requires Inv(now) && p in now.procs && !now.procs[p].Idle?
    ensures Enabled(now, e) && (e.Call? || e.Release? || e.Acquire?)
  {
    hide NameOk, Apart, Prunable, ValueGovernedBy, Unwritten;
    if q :| RunsCall(now, q) {
      assert ProcOk(now, q);
      e := if now.procs[q].phase.Done? then Release(q) else Call(q, NoFault, 0);
    } else {
      assert !RunsCall(now, p);
      e := Acquire(p);
    }
  }

  lemma {:induction false} GoneStaysGone(s: State, events: seq<Event>, g: nat)
    requires IsRun(s, events) && g in s.gone
    ensures g in After(s, events).gone
    decreases |events|
  {
    if events != [] {
      GoneStaysGone(Apply(s, events[0]), events[1..], g);
    }
  }

  /** Generation g is stored under name, or no longer anywhere. */
  predicate StoredOrGone(s: State, name: string, g: nat) {
    GenAt(s.store, name) == Some(g) || g in s.gone
  }

  /** A stored value that a step removes or overwrites is recorded as gone. */
  lemma StoredOrGoneStep(s: State, e: Event, name: string, g: nat)
    requires Inv(s) && Enabled(s, e) && !IsMetaKey(name) && StoredOrGone(s, name, g)
    ensures StoredOrGone(Apply(s, e), name, g)
  {
    if e.Call? {
      assert ProcOk(s, e.pid);
      var op := s.procs[e.pid].op;
      if op.name != name {
        CallFrame(op, s.procs[e.pid].phase, s.store, e.fault, e.time, name);
      }
    } else if e.Corrupt? {
      MetaKeysApart(e.name, name);
    }
  }

  lemma {:induction false} StoredOrGoneRun(s: State, events: seq<Event>, name: string, g: nat)
    requires Inv(s) && IsRun(s, events) && !IsMetaKey(name) && StoredOrGone(s, name, g)
    ensures StoredOrGone(After(s, events), name, g)
    decreases |events|
  {
    if events != [] {
      StoredOrGoneStep(s, events[0], name, g);
      StepKeepsInv(s, events[0]);
      StoredOrGoneRun(Apply(s, events[0]), events[1..], name, g);
    }
  }

  lemma GoneNeverReturned(s: State, events: seq<Event>, g: nat, p: nat, fault: Fault, t: int)
    requires Inv(s) && IsRun(s, events) && g in s.gone
    ensures !Resolves(After(s, events), p, fault, t, g)
  {
    GoneStaysGone(s, events, g);
    RunKeepsInv(s, events);
    if Resolves(After(s, events), p, fault, t, g) {
      ResolvedIsCurrentValue(After(s, events), p, fault, t, g);
      assert false;
    }
  }

  /** A value that some call wiped or overwrote is never handed out again, whatever follows. */
  lemma WipedNeverReturned(
      s: State, events: seq<Event>, wipe: Event, more: seq<Event>, name: string, g: nat, p: nat, fault: Fault, t: int)
    requires Init(s) && IsRun(s, events) && wipe.Call?
    requires Enabled(After(s, events), wipe) && IsRun(Apply(After(s, events), wipe), more)
    requires !IsMetaKey(name) && GenAt(After(s, events).store, name) == Some(g)
    requires GenAt(Apply(After(s, events), wipe).store, name) != Some(g)
    ensures !Resolves(After(Apply(After(s, events), wipe), more), p, fault, t, g)
  {
    InitInv(s);
    RunKeepsInv(s, events);
    StepKeepsInv(After(s, events), wipe);
    StoredOrGoneStep(After(s, events), wipe, name, g);
    GoneNeverReturned(Apply(After(s, events), wipe), more, g, p, fault, t);
  }

  /** The call with which a delete, revoke or prune of name reports success. */
  ghost predicate WipesWithSuccess(s: State, wipe: Event, name: string) {
    && wipe.Call? && Enabled(s, wipe)
    && var op := s.procs[wipe.pid].op;
       && op.name == name && !Shares(op) && !op.kind.StoreOp?
       && Turned(s, wipe.pid, wipe.fault, wipe.time).phase == Done(Success)
  }

  /**
   Once a delete, revoke or prune of a name has succeeded, no value stored under that name at any
   moment before is ever handed out, whatever happened in between and whatever follows.
   */
  lemma SuccessfulWipeIsFinal(
      s: State, events: seq<Event>, between: seq<Event>, wipe: Event, more: seq<Event>,
      name: string, g: nat, p: nat, fault: Fault, t: int)
    requires Init(s) && IsRun(s, events) && !IsMetaKey(name) && GenAt(After(s, events).store, name) == Some(g)
    requires IsRun(After(s, events), between)
    requires var now := After(After(s, events), between);
      WipesWithSuccess(now, wipe, name) && IsRun(Apply(now, wipe), more)
    ensures !Resolves(After(Apply(After(After(s, events), between), wipe), more), p, fault, t, g)
  {
    InitInv(s);
    RunKeepsInv(s, events);
    var stored := After(s, events);
    RunKeepsInv(stored, between);
    StoredOrGoneRun(stored, between, name, g);
    var now := After(stored, between);
    StepKeepsInv(now, wipe);
    StoredOrGoneStep(now, wipe, name, g);
    SuccessLeavesNothing(now, wipe.pid, wipe.fault, wipe.time);
    GoneNeverReturned(Apply(now, wipe), more, g, p, fault, t);
  }

  /**
   Whatever happened since prune took its listing, one of its calls removes a value only if that
   value's own policy has lapsed, removes no pending item and no tombstone, and a dry run
   changes nothing.
   */
  lemma PruneOnlyLapsed(s: State, events: seq<Event>, p: nat, fault: Fault, t: int)
    requires Init(s) && IsRun(s, events)
    requires var now := After(s, events);
      && RunsCall(now, p) && !now.procs[p].phase.Done? && Fits(now.procs[p].op, now.procs[p].phase)
      && now.procs[p].op.kind.PruneOp?
    ensures var now := After(s, events); var op, st' := now.procs[p].op, Turned(now, p, fault, t).store;
      && (op.kind.dryRun ==> st' == now.store)
      && (op.name in now.store && op.name !in st' ==>
            && now.store[op.name].Value? && now.store[op.name].gen in now.origins
            && now.origins[now.store[op.name].gen].policy.Some?
            && Lapsed(now.origins[now.store[op.name].gen].policy.value, op.kind.pruneNow))
      && (MetaOf(now.store, op.name).Readable? && MetaKey(op.name) !in st' ==>
            Lapsed(MetaOf(now.store, op.name).meta, op.kind.pruneNow))
      && (forall key :: key in now.store && key != op.name && key != MetaKey(op.name) ==>
            key in st' && st'[key] == now.store[key])
      && (forall key :: key in st' ==> key in now.store)
  {
    InitInv(s);
    RunKeepsInv(s, events);
    var now := After(s, events);
    var op := now.procs[p].op;
    assert ProcOk(now, p) && NameOk(now, op.name);
    MetaKeysApart(op.name, op.name);
    if op.kind.dryRun {
      SharedCallChangesNothing(op, now.procs[p].phase, now.store, fault, t);
    }
  }
}
