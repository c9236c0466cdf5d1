/**
 A secret's value and its policy live under two independent keyring items. This module gives the
 items, the keyring with its possible failures, and every operation as a sequence of backend calls.
 */
module SecretPolicy {
  import opened ByteStrings

  // ---------------------------------------------------------------------------------------------
  // Keys
  // ---------------------------------------------------------------------------------------------

  const META_PREFIX := "meta/"

  function MetaKey(name: string): string {
    META_PREFIX + name
  }

  predicate IsMetaKey(key: string) {
    META_PREFIX <= key
  }

  function SecretNameFromMetaKey(key: string): Option<string> {
    if IsMetaKey(key) then Some(key[|META_PREFIX|..]) else None
  }

  predicate NameChar(c: char) {
    || 'A' <= c <= 'Z' || 'a' <= c <= 'z' || '0' <= c <= '9'
    || c == '_' || c == '.' || c == '-'
  }

  predicate ValidSecretName(name: string) {
    1 <= |name| <= 128 && forall i :: 0 <= i < |name| ==> NameChar(name[i])
  }

  /** No valid name is a policy key, and each policy key names exactly one secret. */
  lemma MetaKeysApart(name: string, other: string)
    ensures ValidSecretName(name) ==> !IsMetaKey(name) && name != MetaKey(other)
    ensures MetaKey(name) == MetaKey(other) ==> name == other
    ensures IsMetaKey(MetaKey(name)) && SecretNameFromMetaKey(MetaKey(name)) == Some(name)
    ensures IsMetaKey(name) ==> MetaKey(SecretNameFromMetaKey(name).value) == name
    ensures MetaKey(name) == "meta/" + name
  {
    assert MetaKey(name)[5..] == name && MetaKey(other)[5..] == other;
    SlashAtFour(name);
  }

  lemma SlashAtFour(key: string)
    ensures IsMetaKey(key) ==> |key| > 4 && key[4] == '/' && !NameChar(key[4])
  {
    if IsMetaKey(key) {
      assert key[4] == META_PREFIX[4];
    }
  }

  /** The names a listing shows: everything that is not a policy key, in order. */
  method FilterVisibleSecretNames(keys: seq<string>) returns (names: seq<string>)
    ensures names == Visible(keys)
  {
    names := [];
    for i := 0 to |keys|
      invariant names == Visible(keys[..i])
    {
      assert keys[..i + 1][..i] == keys[..i];
      if IsMetaKey(keys[i]) {
        continue;
      }
      names := names + [keys[i]];
    }
    assert keys[..|keys|] == keys;
  }

  function Visible(keys: seq<string>): seq<string> {
    if keys == [] then []
    else
      var front, k := Visible(keys[..|keys| - 1]), keys[|keys| - 1];
      if IsMetaKey(k) then front else front + [k]
  }

  /** names are the keys at the positions at, in order, and these are all that show no policy key. */
  ghost predicate NamesAt(keys: seq<string>, names: seq<string>, at: seq<nat>) {
    && |at| == |names|
    && (forall k :: 0 <= k < |at| ==> at[k] < |keys| && keys[at[k]] == names[k])
    && (forall j, k :: 0 <= j < k < |at| ==> at[j] < at[k])
    && (forall i :: 0 <= i < |keys| ==> (!("meta/" <= keys[i]) <==> i in at))
  }

  /** The listing drops the policy keys and nothing else, and keeps the order. */
  lemma {:induction false} VisibleInOrder(keys: seq<string>) returns (at: seq<nat>)
    ensures NamesAt(keys, Visible(keys), at)
  {
    if keys == [] {
      at := [];
    } else {
      var n := |keys| - 1;
      var front := VisibleInOrder(keys[..n]);
      at := if IsMetaKey(keys[n]) then front else front + [n];
      NamesStep(keys, Visible(keys[..n]), front);
    }
  }

  lemma NamesStep(keys: seq<string>, names: seq<string>, at: seq<nat>)
    requires |keys| > 0 && NamesAt(keys[..|keys| - 1], names, at)
    ensures var n := |keys| - 1;
      && (IsMetaKey(keys[n]) ==> NamesAt(keys, names, at))
      && (!IsMetaKey(keys[n]) ==> NamesAt(keys, names + [keys[n]], at + [n]))
  {
    var n := |keys| - 1;
    assert forall i :: 0 <= i < n ==> keys[..n][i] == keys[i];
  }

  /** The names prune goes over: each listed value key once; policy keys are skipped. */
  method PruneNames(keys: seq<string>) returns (names: seq<string>)
    ensures forall k :: k in names <==> k in keys && !IsMetaKey(k)
    ensures forall i, j :: 0 <= i < j < |names| ==> names[i] != names[j]
  {
    var seen: map<string, bool> := map[];
    names := [];
    for i := 0 to |keys|
      invariant forall k :: k in names <==> k in keys[..i] && !IsMetaKey(k)
      invariant forall k :: k in seen <==> k in names
      invariant forall i, j :: 0 <= i < j < |names| ==> names[i] != names[j]
    {
      var k := keys[i];
      assert keys[..i + 1] == keys[..i] + [k];
      if IsMetaKey(k) {
        continue;
      }
      if k !in seen {
        seen := seen[k := true];
        names := names + [k];
      }
    }
    assert keys[..|keys|] == keys;
  }

  // ---------------------------------------------------------------------------------------------
  // Items
  // ---------------------------------------------------------------------------------------------

  /** A policy record; an unset time is None. */
  datatype SecretMeta = SecretMeta(
    version: int, pending: bool, created: Option<int>, expires: Option<int>, revoked: Option<int>)

  predicate IsRevoked(m: Option<SecretMeta>) {
    m.Some? && m.value.revoked.Some?
  }

  /** The deadline itself counts as expired. */
  predicate IsExpiredAt(m: Option<SecretMeta>, now: int) {
    m.Some? && m.value.expires.Some? && m.value.expires.value <= now
  }

  /** What prune sweeps: expired, and neither a tombstone nor an update still pending. */
  predicate Lapsed(m: SecretMeta, now: int) {
    !m.pending && m.revoked.None? && m.expires.Some? && m.expires.value <= now
  }

  const META_VERSION := 2

  const PENDING := SecretMeta(META_VERSION, true, None, None, None)

  /**
   A keyring item: the value written by one particular set (its generation), a parseable policy
   record, or bytes that do not parse as one.
   */
  datatype Item = Value(gen: nat) | Metadata(meta: SecretMeta) | Garbled

  type Store = map<string, Item>

  /** What loadMeta sees. */
  datatype MetaState = NoMeta | Readable(meta: SecretMeta) | Unreadable

  function MetaOf(st: Store, name: string): MetaState {
    if MetaKey(name) !in st then NoMeta
    else
      match st[MetaKey(name)]
      case Metadata(m) => if m.version == 1 || m.version == META_VERSION then Readable(m) else Unreadable
      case _ => Unreadable
  }

  // ---------------------------------------------------------------------------------------------
  // The keyring: a call may fail before its effect, or report an error after it
  // ---------------------------------------------------------------------------------------------

  datatype Fault = NoFault | FailBefore | FailAfter

  datatype SetReply = SetReply(ok: bool, store: Store)

  function SetKey(st: Store, key: string, item: Item, fault: Fault): SetReply {
    match fault
    case NoFault => SetReply(true, st[key := item])
    case FailBefore => SetReply(false, st)
    case FailAfter => SetReply(false, st[key := item])
  }

  datatype DeleteStatus = Deleted | Missing | DeleteFailed

  datatype DeleteReply = DeleteReply(status: DeleteStatus, store: Store)

  function DeleteKey(st: Store, key: string, fault: Fault): DeleteReply {
    match fault
    case FailBefore => DeleteReply(DeleteFailed, st)
    case _ =>
      if key !in st then DeleteReply(Missing, st)
      else DeleteReply(if fault.NoFault? then Deleted else DeleteFailed, st - {key})
  }

  datatype GetReply = Found(item: Item) | NotFound | GetFailed

  function GetKey(st: Store, key: string, fault: Fault): GetReply {
    if fault != NoFault then GetFailed
    else if key in st then Found(st[key])
    else NotFound
  }

  datatype LoadReply = Loaded(meta: Option<SecretMeta>) | LoadFailed

  function Load(st: Store, name: string, fault: Fault): LoadReply {
    if fault != NoFault then LoadFailed
    else
      match MetaOf(st, name)
      case NoMeta => Loaded(None)
      case Readable(m) => Loaded(Some(m))
      case Unreadable => LoadFailed
  }

  // ---------------------------------------------------------------------------------------------
  // Operations as sequences of backend calls
  // ---------------------------------------------------------------------------------------------

  datatype Kind =
    | StoreOp(gen: nat, policy: Option<SecretMeta>)
    | DeleteOp
    | RevokeOp(revokeNow: int)
    | PruneOp(pruneNow: int, dryRun: bool)
    | ResolveOp

  datatype Op = Op(name: string, kind: Kind)

  datatype Outcome =
    | Success
    | Kept                       // prune: nothing to do here
    | Returned(gen: nat)         // resolve: the value
    | Failure(error: Error)

  datatype Error = SecretNotFound | UpdatePending | SecretRevoked | SecretExpired | BackendError

  /** Where an operation stands: the backend call it makes next, with what it remembers. */
  datatype Phase =
    | Mark | WriteValue | Commit
    | Probe | DropValue(metaExisted: bool) | DropMeta
    | LoadRevoke | DropRevoked(existing: Option<SecretMeta>, metaErr: bool) | Tombstone(kept: Option<SecretMeta>)
    | LoadPrune
    | LoadResolve | ReadValue(meta: Option<SecretMeta>) | Check(gen: nat, meta: Option<SecretMeta>)
    | Done(outcome: Outcome)

  function FirstPhase(op: Op): Phase {
    match op.kind
    case StoreOp(_, _) => Mark
    case DeleteOp => Probe
    case RevokeOp(_) => LoadRevoke
    case PruneOp(_, _) => LoadPrune
    case ResolveOp => if ValidSecretName(op.name) then LoadResolve else Done(Failure(SecretNotFound))
  }

  predicate Fits(op: Op, ph: Phase) {
    match ph
    case Mark | WriteValue | Commit => op.kind.StoreOp?
    case Probe | DropValue(_) | DropMeta => op.kind.DeleteOp? || (op.kind.PruneOp? && !op.kind.dryRun)
    case LoadRevoke | DropRevoked(_, _) | Tombstone(_) => op.kind.RevokeOp?
    case LoadPrune => op.kind.PruneOp?
    case LoadResolve | ReadValue(_) | Check(_, _) => op.kind.ResolveOp?
    case Done(_) => true
  }

  function TombstoneFor(existing: Option<SecretMeta>, now: int): SecretMeta {
    SecretMeta(META_VERSION, false,
               if existing.Some? then existing.value.created else None,
               if existing.Some? then existing.value.expires else None,
               Some(now))
  }

  datatype Turn = Turn(phase: Phase, store: Store)

  function AfterSet(r: SetReply, next: Phase): Turn {
    Turn(if r.ok then next else Done(Failure(BackendError)), r.store)
  }

  /** deleteMeta: a missing item is no error. */
  function AfterDeleteMeta(r: DeleteReply): Turn {
    Turn(Done(if r.status == DeleteFailed then Failure(BackendError) else Success), r.store)
  }

  /** One backend call of op at phase ph, at time t; fault decides how the call goes. */
  function Advance(op: Op, ph: Phase, st: Store, fault: Fault, t: int): (r: Turn)
    requires Fits(op, ph)
    ensures Fits(op, r.phase)
  {
    var name, metaKey := op.name, MetaKey(op.name);
    match ph
    case Mark => AfterSet(SetKey(st, metaKey, Metadata(PENDING), fault), WriteValue)
    case WriteValue => AfterSet(SetKey(st, name, Value(op.kind.gen), fault), Commit)
    case Commit =>
      if op.kind.policy.None? then AfterDeleteMeta(DeleteKey(st, metaKey, fault))
      else AfterSet(SetKey(st, metaKey, Metadata(op.kind.policy.value), fault), Done(Success))
    case Probe =>
      (match GetKey(st, metaKey, fault)
       case Found(_) => Turn(DropValue(true), st)
       case NotFound => Turn(DropValue(false), st)
       case GetFailed => Turn(Done(Failure(BackendError)), st))
    case DropValue(metaExisted) =>
      var r := DeleteKey(st, name, fault);
      Turn(match r.status
           case Deleted => DropMeta
           case Missing => if metaExisted then DropMeta else Done(Failure(SecretNotFound))
           case DeleteFailed => Done(Failure(BackendError)),
           r.store)
    case DropMeta => AfterDeleteMeta(DeleteKey(st, metaKey, fault))
    case LoadRevoke =>
      (match Load(st, name, fault)
       case Loaded(m) => Turn(DropRevoked(m, false), st)
       case LoadFailed => Turn(DropRevoked(None, true), st))
    case DropRevoked(existing, metaErr) =>
      var r := DeleteKey(st, name, fault);
      Turn(match r.status
           case Deleted => Tombstone(existing)
           case Missing =>
             if existing.Some? then Tombstone(existing)
             else if metaErr then Done(Failure(BackendError))
             else Done(Failure(SecretNotFound))
           case DeleteFailed => Done(Failure(BackendError)),
           r.store)
    case Tombstone(existing) =>
      AfterSet(SetKey(st, metaKey, Metadata(TombstoneFor(existing, op.kind.revokeNow)), fault), Done(Success))
    case LoadPrune =>
      (match Load(st, name, fault)
       case LoadFailed => Turn(Done(Failure(BackendError)), st)
       case Loaded(m) =>
         if m.Some? && m.value.pending then Turn(Done(Failure(UpdatePending)), st)
         else if IsRevoked(m) || !IsExpiredAt(m, op.kind.pruneNow) then Turn(Done(Kept), st)
         else if op.kind.dryRun then Turn(Done(Success), st)
         else Turn(Probe, st))
    case LoadResolve =>
      (match Load(st, name, fault)
       case LoadFailed => Turn(Done(Failure(BackendError)), st)
       case Loaded(m) =>
         if m.Some? && m.value.pending then Turn(Done(Failure(UpdatePending)), st)
         else if IsRevoked(m) then Turn(Done(Failure(SecretRevoked)), st)
         else if IsExpiredAt(m, t) then Turn(Done(Failure(SecretExpired)), st)
         else Turn(ReadValue(m), st))
    case ReadValue(m) =>
      (match GetKey(st, name, fault)
       case Found(Value(g)) => Turn(Check(g, m), st)
       case NotFound => Turn(Done(Failure(SecretNotFound)), st)
       case _ => Turn(Done(Failure(BackendError)), st))
    case Check(g, m) =>
      if fault != NoFault then Turn(Done(Failure(BackendError)), st)
      else if IsExpiredAt(m, t) then Turn(Done(Failure(SecretExpired)), st)
      else Turn(Done(Returned(g)), st)
    case Done(_) => Turn(ph, st)
  }

  // ---------------------------------------------------------------------------------------------
  // An operation from start to end under the lock
  // ---------------------------------------------------------------------------------------------

  function CallsLeft(ph: Phase): nat {
    match ph
    case LoadPrune => 4
    case Mark | Probe | LoadRevoke | LoadResolve => 3
    case WriteValue | DropValue(_) | DropRevoked(_, _) | ReadValue(_) => 2
    case Commit | DropMeta | Tombstone(_) | Check(_, _) => 1
    case Done(_) => 0
  }

  datatype Result = Result(outcome: Outcome, store: Store)

  /** The operation's outcome and store when its k-th and later calls go as plan and clock say. */
  function Finish(op: Op, ph: Phase, st: Store, plan: nat -> Fault, clock: nat -> int, k: nat): Result
    requires Fits(op, ph)
    decreases CallsLeft(ph)
  {
    if ph.Done? then Result(ph.outcome, st)
    else
      var turn := Advance(op, ph, st, plan(k), clock(k));
      Finish(op, turn.phase, turn.store, plan, clock, k + 1)
  }

  function Execute(op: Op, st: Store, plan: nat -> Fault, clock: nat -> int): Result {
    Finish(op, FirstPhase(op), st, plan, clock, 0)
  }

  /** One backend call, and the rest. */
  lemma NextCall(op: Op, ph: Phase, st: Store, plan: nat -> Fault, clock: nat -> int, k: nat)
    requires Fits(op, ph) && !ph.Done?
    ensures var turn := Advance(op, ph, st, plan(k), clock(k));
      Finish(op, ph, st, plan, clock, k) ==
      if turn.phase.Done? then Result(turn.phase.outcome, turn.store)
      else Finish(op, turn.phase, turn.store, plan, clock, k + 1)
  {
  }

  /** A failing call either does nothing or does everything and reports an error all the same. */
  lemma FaultsExactly(st: Store, key: string, item: Item, fault: Fault)
    ensures var r := SetKey(st, key, item, fault);
      && (r.ok <==> fault == NoFault)
      && (fault == FailBefore ==> r.store == st)
      && (fault != FailBefore ==> r.store == st[key := item])
    ensures var r := DeleteKey(st, key, fault);
      && (r.status == Deleted <==> key in st && fault == NoFault)
      && (r.status == Missing <==> key !in st && fault != FailBefore)
      && (fault == FailBefore ==> r.store == st)
      && (fault != FailBefore ==> r.store == st - {key})
    ensures var r := GetKey(st, key, fault);
      && (r.GetFailed? <==> fault != NoFault)
      && (r.Found? <==> key in st && fault == NoFault) && (r.Found? ==> r.item == st[key])
  {
    assert key !in st ==> st - {key} == st;
  }

  // ---------------------------------------------------------------------------------------------
  // What each operation answers and leaves behind, whichever of its calls go wrong
  // ---------------------------------------------------------------------------------------------

  /** What a set that goes through leaves: the value, and exactly its policy or none. */
  function Written(name: string, gen: nat, policy: Option<SecretMeta>, st: Store): Store {
    var valued := st[name := Value(gen)];
    if policy.None? then valued - {MetaKey(name)} else valued[MetaKey(name) := Metadata(policy.value)]
  }

  function Marked(name: string, st: Store): Store {
    st[MetaKey(name) := Metadata(PENDING)]
  }

  lemma CommitOutcome(op: Op, st: Store, plan: nat -> Fault, clock: nat -> int)
    requires op.kind.StoreOp? && MetaKey(op.name) in st
    ensures var r := Finish(op, Commit, st, plan, clock, 2);
      && r.outcome == (if plan(2) == NoFault then Success else Failure(BackendError))
      && r.store == (if plan(2) == FailBefore then st
                     else if op.kind.policy.None? then st - {MetaKey(op.name)}
                     else st[MetaKey(op.name) := Metadata(op.kind.policy.value)])
  {
    hide Finish;
    NextCall(op, Commit, st, plan, clock, 2);
  }

  lemma WriteOutcome(op: Op, st: Store, plan: nat -> Fault, clock: nat -> int)
    requires op.kind.StoreOp?
    ensures var valued := st[op.name := Value(op.kind.gen)];
      Finish(op, WriteValue, st, plan, clock, 1) ==
        if plan(1) == NoFault then Finish(op, Commit, valued, plan, clock, 2)
        else Result(Failure(BackendError), if plan(1) == FailBefore then st else valued)
  {
    hide Finish;
    NextCall(op, WriteValue, st, plan, clock, 1);
  }

  lemma MarkOutcome(op: Op, st: Store, plan: nat -> Fault, clock: nat -> int)
    requires op.kind.StoreOp?
    ensures Finish(op, Mark, st, plan, clock, 0) ==
        if plan(0) == NoFault then Finish(op, WriteValue, Marked(op.name, st), plan, clock, 1)
        else Result(Failure(BackendError), if plan(0) == FailBefore then st else Marked(op.name, st))
  {
    hide Finish;
    NextCall(op, Mark, st, plan, clock, 0);
  }

  lemma WrittenOver(name: string, gen: nat, policy: Option<SecretMeta>, st: Store)
    ensures var valued := Marked(name, st)[name := Value(gen)];
      Written(name, gen, policy, st) ==
        if policy.None? then valued - {MetaKey(name)} else valued[MetaKey(name) := Metadata(policy.value)]
  {
    assert name != MetaKey(name);
    var valued := Marked(name, st)[name := Value(gen)];
    if policy.None? {
      assert valued - {MetaKey(name)} == Written(name, gen, policy, st);
    } else {
      assert valued[MetaKey(name) := Metadata(policy.value)] == Written(name, gen, policy, st);
    }
  }

  /**
   A set reports success exactly if none of its three calls went wrong, and then value and policy
   are in place. Otherwise the store is as before, or as after a success, or blocked by the marker.
   */
  lemma StoreOutcome(name: string, gen: nat, policy: Option<SecretMeta>, st: Store, plan: nat -> Fault, clock: nat -> int)
    ensures var r := Execute(Op(name, StoreOp(gen, policy)), st, plan, clock);
      && (r.outcome == Success <==> plan(0) == plan(1) == plan(2) == NoFault)
      && (r.outcome != Success ==> r.outcome == Failure(BackendError))
      && (r.outcome == Success ==> r.store == Written(name, gen, policy, st))
      && (r.outcome != Success ==>
            || r.store == st || r.store == Written(name, gen, policy, st)
            || (MetaOf(r.store, name) == Readable(PENDING) &&
                (r.store == Marked(name, st) || r.store == Marked(name, st)[name := Value(gen)])))
  {
    hide Finish, MetaOf, Advance, Written;
    var op := Op(name, StoreOp(gen, policy));
    assert name != MetaKey(name);
    var valued := Marked(name, st)[name := Value(gen)];
    MarkOutcome(op, st, plan, clock);
    WriteOutcome(op, Marked(name, st), plan, clock);
    CommitOutcome(op, valued, plan, clock);
    MarkerBlocks(Marked(name, st), name);
    MarkerBlocks(valued, name);
    WrittenOver(name, gen, policy, st);
  }

  lemma MarkerBlocks(st: Store, name: string)
    requires MetaKey(name) in st && st[MetaKey(name)] == Metadata(PENDING)
    ensures MetaOf(st, name) == Readable(PENDING)
  {
  }

  /** The call is answered without an error: nothing went wrong, or there was nothing to remove. */
  predicate Answered(fault: Fault, present: bool) {
    fault == NoFault || (fault == FailAfter && !present)
  }

  lemma DropMetaOutcome(op: Op, st: Store, plan: nat -> Fault, clock: nat -> int)
    requires op.kind.DeleteOp?
    ensures var r := Finish(op, DropMeta, st, plan, clock, 2); var item := MetaKey(op.name) in st;
      && r.outcome == (if Answered(plan(2), item) then Success else Failure(BackendError))
      && r.store == (if plan(2) == FailBefore then st else st - {MetaKey(op.name)})
  {
    hide Finish;
    NextCall(op, DropMeta, st, plan, clock, 2);
    assert MetaKey(op.name) !in st ==> st - {MetaKey(op.name)} == st;
  }

  lemma DropValueOutcome(op: Op, item: bool, st: Store, plan: nat -> Fault, clock: nat -> int)
    requires op.kind.DeleteOp?
    ensures var value, left := op.name in st, st - {op.name};
      Finish(op, DropValue(item), st, plan, clock, 1) ==
        if !Answered(plan(1), value) then Result(Failure(BackendError), if plan(1) == FailBefore then st else left)
        else if value || item then Finish(op, DropMeta, left, plan, clock, 2)
        else Result(Failure(SecretNotFound), st)
  {
    hide Finish;
    NextCall(op, DropValue(item), st, plan, clock, 1);
    assert op.name !in st ==> st - {op.name} == st;
  }

  /**
   A delete succeeds exactly if there was something to delete and no call was answered with an
   error; then both items are gone. A value that stays keeps its policy item.
   */
  lemma DeleteOutcome(name: string, st: Store, plan: nat -> Fault, clock: nat -> int)
    ensures var r := Execute(Op(name, DeleteOp), st, plan, clock);
      var value, item := name in st, MetaKey(name) in st;
      && (r.outcome == Success <==>
            (value || item) && plan(0) == NoFault && Answered(plan(1), value) && Answered(plan(2), item))
      && (r.outcome == Failure(SecretNotFound) <==>
            !value && !item && plan(0) == NoFault && Answered(plan(1), value))
      && (r.outcome != Success && r.outcome != Failure(SecretNotFound) ==> r.outcome == Failure(BackendError))
      && (r.outcome == Success ==> r.store == st - {name, MetaKey(name)})
      && (r.outcome == Failure(SecretNotFound) ==> r.store == st)
      && (name in r.store ==> r.store == st)
  {
    hide Finish, Advance, DeleteKey, GetKey;
    var op := Op(name, DeleteOp);
    var item := MetaKey(name) in st;
    DropValueOutcome(op, item, st, plan, clock);
    DropMetaOutcome(op, st - {name}, plan, clock);
    ProbeOutcome(op, st, plan, clock);
    DropsBoth(name, st);
  }

  lemma ProbeOutcome(op: Op, st: Store, plan: nat -> Fault, clock: nat -> int)
    requires op.kind.DeleteOp?
    ensures Finish(op, Probe, st, plan, clock, 0) ==
      if plan(0) != NoFault then Result(Failure(BackendError), st)
      else Finish(op, DropValue(MetaKey(op.name) in st), st, plan, clock, 1)
  {
    hide Finish;
    NextCall(op, Probe, st, plan, clock, 0);
  }

  lemma DropsBoth(name: string, st: Store)
    ensures name != MetaKey(name) && st - {name} - {MetaKey(name)} == st - {name, MetaKey(name)}
    ensures name !in st ==> st - {name} == st
    ensures MetaKey(name) !in st ==> st - {name, MetaKey(name)} == st - {name}
  {
  }

  /**
   A revoke needs a value or a readable policy item. With neither it changes nothing, and says
   whether the name is unknown or its policy item unreadable. Success leaves no value and a
   tombstone with the times that could be read; the policy item only changes once the value is gone.
   */
  lemma RevokeOutcome(name: string, now: int, st: Store, plan: nat -> Fault, clock: nat -> int)
    ensures var r := Execute(Op(name, RevokeOp(now)), st, plan, clock);
      var value, read := name in st, plan(0) == NoFault && MetaOf(st, name).Readable?;
      var known := plan(0) == NoFault && MetaOf(st, name) == NoMeta;
      && (r.outcome == Success <==> (value || read) && Answered(plan(1), value) && plan(2) == NoFault)
      && (r.outcome == Failure(SecretNotFound) <==> !value && known && Answered(plan(1), value))
      && (r.outcome != Success && r.outcome != Failure(SecretNotFound) ==> r.outcome == Failure(BackendError))
      && (r.outcome == Success ==>
            r.store == (st - {name})[MetaKey(name) := Metadata(SecretMeta(
              META_VERSION, false,
              if read then MetaOf(st, name).meta.created else None,
              if read then MetaOf(st, name).meta.expires else None, Some(now)))])
      && (!value && !read ==> r.store == st)
      && (name in r.store ==> r.store == st)
  {
    hide Finish;
    var op := Op(name, RevokeOp(now));
    var load := Load(st, name, plan(0));
    var existing := if load.Loaded? then load.meta else None;
    assert name != MetaKey(name);
    NextCall(op, LoadRevoke, st, plan, clock, 0);
    NextCall(op, DropRevoked(existing, load.LoadFailed?), st, plan, clock, 1);
    NextCall(op, Tombstone(existing), st - {name}, plan, clock, 2);
    NextCall(op, Tombstone(existing), st, plan, clock, 2);
    assert name !in st ==> st - {name} == st;
  }

  /** A read's answer for every store, every clock and every failing call: the first of these that applies. */
  lemma ResolveOutcome(name: string, st: Store, plan: nat -> Fault, clock: nat -> int)
    ensures Execute(Op(name, ResolveOp), st, plan, clock).store == st
    ensures Execute(Op(name, ResolveOp), st, plan, clock).outcome ==
      var item := if MetaKey(name) in st then Some(st[MetaKey(name)]) else None;
      if !ValidSecretName(name) then Failure(SecretNotFound)
      else if plan(0) != NoFault || (item.Some? && !ParsesAs(item.value)) then Failure(BackendError)
      else if item.Some? && item.value.meta.pending then Failure(UpdatePending)
      else if item.Some? && item.value.meta.revoked.Some? then Failure(SecretRevoked)
      else if item.Some? && DueAt(item.value.meta, clock(0)) then Failure(SecretExpired)
      else if plan(1) != NoFault then Failure(BackendError)
      else if name !in st then Failure(SecretNotFound)
      else if !st[name].Value? || plan(2) != NoFault then Failure(BackendError)
      else if item.Some? && DueAt(item.value.meta, clock(2)) then Failure(SecretExpired)
      else Returned(st[name].gen)
  {
    hide Finish;
    if !ValidSecretName(name) {
      InvalidIsUnknown(name, st, plan, clock);
    } else {
      var op := Op(name, ResolveOp);
      NextCall(op, LoadResolve, st, plan, clock, 0);
      var load := Load(st, name, plan(0));
      if load.Loaded? {
        NextCall(op, ReadValue(load.meta), st, plan, clock, 1);
        if name in st && st[name].Value? {
          NextCall(op, Check(st[name].gen, load.meta), st, plan, clock, 2);
        }
      }
    }
  }

  lemma InvalidIsUnknown(name: string, st: Store, plan: nat -> Fault, clock: nat -> int)
    requires !ValidSecretName(name)
    ensures Execute(Op(name, ResolveOp), st, plan, clock) == Result(Failure(SecretNotFound), st)
  {
  }

  /** A policy record of a known version. */
  predicate ParsesAs(item: Item) {
    item.Metadata? && (item.meta.version == 1 || item.meta.version == 2)
  }

  /** The deadline is reached: a time equal to it is too late. */
  predicate DueAt(m: SecretMeta, now: int) {
    m.expires.Some? && now >= m.expires.value
  }

  /** Records of both known versions are read; any other item is an error and none is no policy. */
  lemma VersionsReadable(st: Store, name: string)
    ensures MetaKey(name) !in st <==> Load(st, name, NoFault) == Loaded(None)
    ensures forall m :: MetaKey(name) in st && st[MetaKey(name)] == Metadata(m) && (m.version == 1 || m.version == 2)
                   <==> Load(st, name, NoFault) == Loaded(Some(m))
    ensures forall fault :: fault != NoFault ==> Load(st, name, fault) == LoadFailed
  {
  }

  class Keyring {
    var items: Store

    method Get(key: string, fault: Fault) returns (r: GetReply)
      ensures r == GetKey(items, key, fault)
    {
      if fault != NoFault {
        return GetFailed;
      }
      if key in items {
        return Found(items[key]);
      }
      return NotFound;
    }

    method Set(key: string, item: Item, fault: Fault) returns (ok: bool)
      modifies this
      ensures SetReply(ok, items) == SetKey(old(items), key, item, fault)
    {
      if fault == FailBefore {
        return false;
      }
      items := items[key := item];
      return fault == NoFault;
    }

    method Delete(key: string, fault: Fault) returns (r: DeleteStatus)
      modifies this
      ensures DeleteReply(r, items) == DeleteKey(old(items), key, fault)
    {
      if fault == FailBefore {
        return DeleteFailed;
      }
      if key !in items {
        return Missing;
      }
      items := items - {key};
      return if fault == NoFault then Deleted else DeleteFailed;
    }

    method LoadMeta(name: string, fault: Fault) returns (r: LoadReply)
      ensures r == Load(items, name, fault)
    {
      var got := Get(MetaKey(name), fault);
      match got
      case NotFound => return Loaded(None);
      case GetFailed => return LoadFailed;
      case Found(item) =>
        if item.Metadata? && (item.meta.version == 1 || item.meta.version == META_VERSION) {
          return Loaded(Some(item.meta));
        }
        return LoadFailed;
    }

    method DeleteMeta(name: string, fault: Fault) returns (o: Outcome)
      modifies this
      ensures Turn(Done(o), items) == AfterDeleteMeta(DeleteKey(old(items), MetaKey(name), fault))
    {
      var status := Delete(MetaKey(name), fault);
      return if status == DeleteFailed then Failure(BackendError) else Success;
    }

    method StoreSecret(name: string, gen: nat, meta: Option<SecretMeta>, plan: nat -> Fault, ghost clock: nat -> int)
      returns (o: Outcome)
      modifies this
      ensures Result(o, items) == Execute(Op(name, StoreOp(gen, meta)), old(items), plan, clock)
      ensures o == Success <==> plan(0) == plan(1) == plan(2) == NoFault
      ensures o == Success ==> name in items && items[name] == Value(gen)
      ensures o == Success && meta.None? ==> MetaKey(name) !in items
      ensures o == Success && meta.Some? ==> MetaKey(name) in items && items[MetaKey(name)] == Metadata(meta.value)
    {
      StoreOutcome(name, gen, meta, items, plan, clock);
      assert name != MetaKey(name);
      var ok := Set(MetaKey(name), Metadata(PENDING), plan(0));
      if !ok {
        return Failure(BackendError);
      }
      ok := Set(name, Value(gen), plan(1));
      if !ok {
        return Failure(BackendError);
      }
      if meta.None? {
        o := DeleteMeta(name, plan(2));
        return;
      }
      ok := Set(MetaKey(name), Metadata(meta.value), plan(2));
      return if ok then Success else Failure(BackendError);
    }

    method DeleteSecretLocked(op: Op, plan: nat -> Fault, ghost clock: nat -> int, k: nat) returns (o: Outcome)
      requires Fits(op, Probe)
      modifies this
      ensures Result(o, items) == Finish(op, Probe, old(items), plan, clock, k)
    {
      var meta := Get(MetaKey(op.name), plan(k));
      var metaExisted := meta.Found?;
      if meta.GetFailed? {
        return Failure(BackendError);
      }
      var status := Delete(op.name, plan(k + 1));
      if status == DeleteFailed {
        return Failure(BackendError);
      }
      if status == Missing && !metaExisted {
        return Failure(SecretNotFound);
      }
      o := DeleteMeta(op.name, plan(k + 2));
    }

    method RevokeSecret(name: string, now: int, plan: nat -> Fault, ghost clock: nat -> int) returns (o: Outcome)
      modifies this
      ensures Result(o, items) == Execute(Op(name, RevokeOp(now)), old(items), plan, clock)
      ensures plan == RELIABLE ==>
        && (o == Success <==> name in old(items) || MetaOf(old(items), name).Readable?)
        && (o == Failure(SecretNotFound) <==> name !in old(items) && MetaKey(name) !in old(items))
        && (o != Success ==> items == old(items))
    {
      RevokeOutcome(name, now, items, plan, clock);
      var load := LoadMeta(name, plan(0));
      var existing := if load.Loaded? then load.meta else None;
      assert Execute(Op(name, RevokeOp(now)), items, plan, clock)
          == Finish(Op(name, RevokeOp(now)), DropRevoked(existing, load.LoadFailed?), items, plan, clock, 1);
      NextCall(Op(name, RevokeOp(now)), DropRevoked(existing, load.LoadFailed?), items, plan, clock, 1);
      var status := Delete(name, plan(1));
      if status != Deleted {
        if status != Missing {
          return Failure(BackendError);
        }
        if existing.None? {
          return Failure(if load.LoadFailed? then BackendError else SecretNotFound);
        }
      }
      var tomb := SecretMeta(META_VERSION, false, None, None, Some(now));
      if existing.Some? {
        tomb := tomb.(created := existing.value.created, expires := existing.value.expires);
      }
      var ok := Set(MetaKey(name), Metadata(tomb), plan(2));
      return if ok then Success else Failure(BackendError);
    }

    method PruneSecret(name: string, now: int, dryRun: bool, plan: nat -> Fault, ghost clock: nat -> int)
      returns (o: Outcome)
      modifies this
      ensures Result(o, items) == Execute(Op(name, PruneOp(now, dryRun)), old(items), plan, clock)
    {
      var load := LoadMeta(name, plan(0));
      if load.LoadFailed? {
        return Failure(BackendError);
      }
      var m := load.meta;
      if m.Some? && m.value.pending {
        return Failure(UpdatePending);
      }
      if IsRevoked(m) || !IsExpiredAt(m, now) {
        return Kept;
      }
      if !dryRun {
        o := DeleteSecretLocked(Op(name, PruneOp(now, false)), plan, clock, 1);
        return;
      }
      return Success;
    }

    method ResolveSecret(name: string, plan: nat -> Fault, clock: nat -> int) returns (o: Outcome)
      ensures Result(o, items) == Execute(Op(name, ResolveOp), items, plan, clock)
      ensures plan == RELIABLE ==>
        var item := if MetaKey(name) in items then Some(items[MetaKey(name)]) else None;
        o ==
          if !ValidSecretName(name) then Failure(SecretNotFound)
          else if item.Some? && !ParsesAs(item.value) then Failure(BackendError)
          else if item.Some? && item.value.meta.pending then Failure(UpdatePending)
          else if item.Some? && item.value.meta.revoked.Some? then Failure(SecretRevoked)
          else if item.Some? && DueAt(item.value.meta, clock(0)) then Failure(SecretExpired)
          else if name !in items then Failure(SecretNotFound)
          else if !items[name].Value? then Failure(BackendError)
          else if item.Some? && DueAt(item.value.meta, clock(2)) then Failure(SecretExpired)
          else Returned(items[name].gen)
    {
      ResolveOutcome(name, items, plan, clock);
      if !ValidSecretName(name) {
        return Failure(SecretNotFound);
      }
      var load := LoadMeta(name, plan(0));
      if load.LoadFailed? {
        return Failure(BackendError);
      }
      var meta := load.meta;
      if meta.Some? && meta.value.pending {
        return Failure(UpdatePending);
      }
      if IsRevoked(meta) {
        return Failure(SecretRevoked);
      }
      if IsExpiredAt(meta, clock(0)) {
        return Failure(SecretExpired);
      }
      assert Execute(Op(name, ResolveOp), items, plan, clock)
          == Finish(Op(name, ResolveOp), ReadValue(meta), items, plan, clock, 1);
      NextCall(Op(name, ResolveOp), ReadValue(meta), items, plan, clock, 1);
      var value := Get(name, plan(1));
      match value
      case NotFound => return Failure(SecretNotFound);
      case GetFailed => return Failure(BackendError);
      case Found(item) =>
        if !item.Value? {
          return Failure(BackendError);
        }
        assert Execute(Op(name, ResolveOp), items, plan, clock)
            == Finish(Op(name, ResolveOp), Check(item.gen, meta), items, plan, clock, 2);
        NextCall(Op(name, ResolveOp), Check(item.gen, meta), items, plan, clock, 2);
        if plan(2) != NoFault {
          return Failure(BackendError);
        }
        if IsExpiredAt(meta, clock(2)) {
          return Failure(SecretExpired);
        }
        return Returned(item.gen);
    }
  }

  // ---------------------------------------------------------------------------------------------
  // Recovery from every stored state when nothing fails
  // ---------------------------------------------------------------------------------------------

  const RELIABLE: nat -> Fault := _ => NoFault

  /** A set makes its value readable under its policy, whatever was stored before. */
  lemma SetRecovers(name: string, gen: nat, meta: Option<SecretMeta>, st: Store, clock: nat -> int, later: nat -> int)
    requires ValidSecretName(name)
    requires meta.Some? ==> meta.value.version == META_VERSION && !meta.value.pending && meta.value.revoked.None?
    requires !IsExpiredAt(meta, later(0)) && !IsExpiredAt(meta, later(2))
    ensures var r := Execute(Op(name, StoreOp(gen, meta)), st, RELIABLE, clock);
      && r.outcome == Success
      && r.store == (if meta.None? then st - {MetaKey(name)} else st[MetaKey(name) := Metadata(meta.value)])[name := Value(gen)]
      && Execute(Op(name, ResolveOp), r.store, RELIABLE, later).outcome == Returned(gen)
  {
    hide Execute, MetaOf;
    MetaKeysApart(name, name);
    StoreOutcome(name, gen, meta, st, RELIABLE, clock);
    var r := Execute(Op(name, StoreOp(gen, meta)), st, RELIABLE, clock);
    assert r.store == (if meta.None? then st - {MetaKey(name)} else st[MetaKey(name) := Metadata(meta.value)])[name := Value(gen)];
    ResolveOutcome(name, r.store, RELIABLE, later);
  }

  /** A delete leaves both keys absent, and fails only when both were. */
  lemma DeleteRecovers(name: string, st: Store, clock: nat -> int)
    requires ValidSecretName(name)
    ensures var r := Execute(Op(name, DeleteOp), st, RELIABLE, clock);
      && r.store == st - {name, MetaKey(name)}
      && r.outcome == if name in st || MetaKey(name) in st then Success else Failure(SecretNotFound)
  {
    hide Execute;
    MetaKeysApart(name, name);
    DeleteOutcome(name, st, RELIABLE, clock);
    assert name !in st && MetaKey(name) !in st ==> st - {name, MetaKey(name)} == st;
  }

  /**
   A revoke of a present value, or of a name with a readable policy item, leaves no value and a
   readable tombstone; with neither it answers why, and changes nothing.
   */
  lemma RevokeRecovers(name: string, now: int, st: Store, clock: nat -> int)
    requires ValidSecretName(name)
    ensures var r := Execute(Op(name, RevokeOp(now)), st, RELIABLE, clock);
      && (r.outcome == Success <==> name in st || MetaOf(st, name).Readable?)
      && (name !in st && MetaOf(st, name).NoMeta? ==> r == Result(Failure(SecretNotFound), st))
      && (name !in st && MetaOf(st, name).Unreadable? ==> r == Result(Failure(BackendError), st))
      && (r.outcome == Success ==> RevokedAt(name, now, st, r.store))
      && (r.outcome == Success ==>
            forall t :: Execute(Op(name, ResolveOp), r.store, RELIABLE, t).outcome == Failure(SecretRevoked))
  {
    RevokeOutcome(name, now, st, RELIABLE, clock);
    var r := Execute(Op(name, RevokeOp(now)), st, RELIABLE, clock);
    if r.outcome == Success {
      forall t: nat -> int ensures Execute(Op(name, ResolveOp), r.store, RELIABLE, t).outcome == Failure(SecretRevoked) {
        ResolveOutcome(name, r.store, RELIABLE, t);
      }
    }
  }

  /** No value, and a readable tombstone with the times of the policy item that could be read. */
  predicate RevokedAt(name: string, now: int, st: Store, st': Store) {
    && name !in st'
    && MetaOf(st', name).Readable?
    && MetaOf(st', name).meta.revoked == Some(now)
    && (MetaOf(st, name).Readable? ==>
          && MetaOf(st', name).meta.created == MetaOf(st, name).meta.created
          && MetaOf(st', name).meta.expires == MetaOf(st, name).meta.expires)
  }
  // ---------------------------------------------------------------------------------------------
  // A whole sweep
  // ---------------------------------------------------------------------------------------------

  predicate LapsedName(st: Store, name: string, now: int) {
    MetaOf(st, name).Readable? && Lapsed(MetaOf(st, name).meta, now)
  }

  /** The keys a sweep over the names removes. */
  ghost function SweptKeys(st: Store, names: seq<string>, now: int): (keys: set<string>)
    ensures forall k :: k in keys <==> exists n :: n in names && LapsedName(st, n, now) && (k == n || k == MetaKey(n))
  {
    (set n | n in names && LapsedName(st, n, now)) + (set n | n in names && LapsedName(st, n, now) :: MetaKey(n))
  }

  /** Nothing for prune to do: no policy item, a tombstone, or a policy that is not due. */
  predicate Untouched(m: MetaState, now: int) {
    m.NoMeta? || (m.Readable? && !m.meta.pending && (m.meta.revoked.Some? || !DueAt(m.meta, now)))
  }

  /**
   One name, whatever fails: nothing goes unless its policy has lapsed, the policy item never goes
   before the value, and success means that both are gone. A dry run only answers.
   */
  lemma PruneOne(name: string, now: int, dryRun: bool, st: Store, plan: nat -> Fault, clock: nat -> int)
    requires !IsMetaKey(name)
    ensures var r := Execute(Op(name, PruneOp(now, dryRun)), st, plan, clock);
      && (r.store == st || r.store == st - {name} || r.store == st - {name, MetaKey(name)})
      && (dryRun || !LapsedName(st, name, now) ==> r.store == st)
      && (r.outcome == Success ==> LapsedName(st, name, now))
      && (r.outcome == Success && !dryRun ==> r.store == st - {name, MetaKey(name)})
      && (plan == RELIABLE && LapsedName(st, name, now) ==> r.outcome == Success)
      && (r.outcome == Success <==>
            LapsedName(st, name, now) && plan(0) == NoFault &&
            (dryRun || (plan(1) == NoFault && Answered(plan(2), name in st) && plan(3) == NoFault)))
      && (r.outcome == Failure(UpdatePending) <==>
            plan(0) == NoFault && MetaOf(st, name).Readable? && MetaOf(st, name).meta.pending)
      && (r.outcome == Kept <==> plan(0) == NoFault && Untouched(MetaOf(st, name), now))
      && (r.outcome !in {Success, Kept, Failure(UpdatePending)} ==> r.outcome == Failure(BackendError))
  {
    hide Finish, DeleteKey, GetKey;
    var op := Op(name, PruneOp(now, dryRun));
    NextCall(op, LoadPrune, st, plan, clock, 0);
    if LapsedName(st, name, now) && !dryRun && plan(0) == NoFault {
      SweepFinishes(op, st, plan, clock);
    }
  }

  lemma SweepFinishes(op: Op, st: Store, plan: nat -> Fault, clock: nat -> int)
    requires Fits(op, Probe) && !IsMetaKey(op.name) && MetaKey(op.name) in st
    ensures var r := Finish(op, Probe, st, plan, clock, 1);
      && (r.store == st || r.store == st - {op.name} || r.store == st - {op.name, MetaKey(op.name)})
      && (r.outcome == Success ==> r.store == st - {op.name, MetaKey(op.name)})
      && (plan == RELIABLE ==> r.outcome == Success)
      && (r.outcome == Success <==> plan(1) == NoFault && Answered(plan(2), op.name in st) && plan(3) == NoFault)
      && (r.outcome != Success ==> r.outcome == Failure(BackendError))
  {
    hide Finish;
    MetaKeysApart(op.name, op.name);
    NextCall(op, Probe, st, plan, clock, 1);
    NextCall(op, DropValue(true), st, plan, clock, 2);
    NextCall(op, DropMeta, st - {op.name}, plan, clock, 3);
    assert st - {op.name} - {MetaKey(op.name)} == st - {op.name, MetaKey(op.name)};
    assert op.name !in st ==> st - {op.name} == st;
  }

  /** st' is st without some of the swept keys of visited and without all of those of pruned. */
  ghost predicate Sweeping(st: Store, st': Store, visited: seq<string>, pruned: seq<string>, now: int) {
    && (forall k :: k in st' ==> k in st && st'[k] == st[k])
    && (forall k :: k in st && k !in st' ==> k in SweptKeys(st, visited, now))
    && (forall k :: k in SweptKeys(st, pruned, now) ==> k !in st')
  }

  lemma SweepSame(st: Store, st': Store, visited: seq<string>, pruned: seq<string>, name: string, now: int)
    requires Sweeping(st, st', visited, pruned, now)
    requires !IsMetaKey(name) && name !in visited && forall n :: n in visited ==> !IsMetaKey(n)
    ensures MetaOf(st', name) == MetaOf(st, name)
    ensures LapsedName(st', name, now) == LapsedName(st, name, now)
  {
    forall n | n in visited ensures MetaKey(n) != MetaKey(name) && n != MetaKey(name) {
      MetaKeysApart(n, name);
    }
    assert MetaKey(name) !in SweptKeys(st, visited, now);
  }

  lemma SweepStep(
      st: Store, st': Store, next: Store, visited: seq<string>, pruned: seq<string>, name: string, now: int, success: bool)
    requires Sweeping(st, st', visited, pruned, now)
    requires next == st' || (LapsedName(st, name, now) && (next == st' - {name} || next == st' - {name, MetaKey(name)}))
    requires success ==> next == st' - {name, MetaKey(name)}
    ensures Sweeping(st, next, visited + [name], if success then pruned + [name] else pruned, now)
  {
    hide SweptKeys, LapsedName;
    SweptAppend(st, visited, name, now);
    SweptAppend(st, pruned, name, now);
  }

  lemma SweptAppend(st: Store, names: seq<string>, name: string, now: int)
    ensures SweptKeys(st, names + [name], now)
         == SweptKeys(st, names, now) + (if LapsedName(st, name, now) then {name, MetaKey(name)} else {})
  {
    hide LapsedName;
    assert forall n :: n in names + [name] <==> n in names || n == name;
  }

  lemma SweepExact(st: Store, st': Store, visited: seq<string>, pruned: seq<string>, now: int)
    requires Sweeping(st, st', visited, pruned, now)
    requires forall n :: n in visited && LapsedName(st, n, now) ==> n in pruned
    ensures st' == st - SweptKeys(st, pruned, now)
  {
    assert forall k :: k in SweptKeys(st, visited, now) ==> k in SweptKeys(st, pruned, now);
  }

  /**
   Prune over a listing of keys, with any calls failing for any of the names: only listed names
   whose policy has lapsed lose anything, those reported as pruned have lost both items, and when
   nothing fails those are all the lapsed ones. Everything else stays; a dry run changes nothing.
   */
  method Prune(k: Keyring, keys: seq<string>, now: int, dryRun: bool, plans: string -> nat -> Fault, ghost clock: nat -> int)
    returns (pruned: seq<string>)
    modifies k
    ensures forall n :: n in pruned ==> n in keys && !IsMetaKey(n) && LapsedName(old(k.items), n, now)
    ensures forall i, j :: 0 <= i < j < |pruned| ==> pruned[i] != pruned[j]
    ensures dryRun ==> k.items == old(k.items)
    ensures !dryRun ==> Sweeping(old(k.items), k.items, Visible(keys), pruned, now)
    ensures (forall n :: plans(n) == RELIABLE) ==>
      && (forall n :: n in keys && !IsMetaKey(n) && LapsedName(old(k.items), n, now) ==> n in pruned)
      && (!dryRun ==> k.items == old(k.items) - SweptKeys(old(k.items), pruned, now))
  {
    hide Execute, Advance, MetaOf, IsMetaKey, Sweeping, LapsedName, SweptKeys;
    var names := PruneNames(keys);
    ghost var st, visible := k.items, Visible(keys);
    VisibleHolds(keys);
    pruned := [];
    NothingSwept(st, now);
    for i := 0 to |names|
      invariant forall n :: n in pruned ==> n in names[..i] && LapsedName(st, n, now)
      invariant forall a, b :: 0 <= a < b < |pruned| ==> pruned[a] != pruned[b]
      invariant dryRun ==> k.items == st
      invariant !dryRun ==> Sweeping(st, k.items, names[..i], pruned, now)
      invariant (forall n :: plans(n) == RELIABLE) ==> forall n :: n in names[..i] && LapsedName(st, n, now) ==> n in pruned
    {
      var name := names[i];
      assert names[..i + 1] == names[..i] + [name];
      ghost var before := k.items;
      PruneOne(name, now, dryRun, before, plans(name), clock);
      if !dryRun {
        SweepSame(st, before, names[..i], pruned, name, now);
      }
      var o := k.PruneSecret(name, now, dryRun, plans(name), clock);
      if !dryRun {
        SweepStep(st, before, k.items, names[..i], pruned, name, now, o == Success);
      }
      if o == Success {
        pruned := pruned + [name];
      }
    }
    assert names[..|names|] == names;
    if !dryRun {
      SweepOver(st, k.items, names, visible, pruned, now);
      if forall n :: plans(n) == RELIABLE {
        SweepExact(st, k.items, names, pruned, now);
      }
    }
  }

  /**
   A fault-free sweep over a listing of everything stored removes a lapsed policy item exactly if
   there is still a value under its name: an item on its own is not visited.
   */
  lemma LapsedItemGoesExactly(
      st: Store, st': Store, keys: seq<string>, pruned: seq<string>, now: int, name: string)
    requires forall k :: k in keys <==> k in st
    requires forall n :: n in pruned <==> n in keys && !IsMetaKey(n) && LapsedName(st, n, now)
    requires st' == st - SweptKeys(st, pruned, now)
    requires !IsMetaKey(name) && LapsedName(st, name, now)
    ensures MetaKey(name) !in st' <==> name in st
  {
    forall n | n in pruned ensures n != MetaKey(name) && (MetaKey(n) == MetaKey(name) ==> n == name) {
      MetaKeysApart(n, name);
    }
    MetaKeysApart(name, name);
  }

  /** A store with nothing but a lapsed policy item: the sweep finds no name, and the item stays. */
  lemma LapsedItemStays()
    ensures var item := Metadata(SecretMeta(META_VERSION, false, None, Some(0), None));
      var st: Store := map[MetaKey("a") := item];
      && LapsedName(st, "a", 1)
      && Visible([MetaKey("a")]) == []
      && st - SweptKeys(st, [], 1) == st
  {
    MetaKeysApart("a", "a");
    var keys := [MetaKey("a")];
    assert keys[..0] == [];
  }

  lemma NothingSwept(st: Store, now: int)
    ensures Sweeping(st, st, [], [], now)
  {
  }

  lemma SweepOver(st: Store, st': Store, names: seq<string>, visible: seq<string>, pruned: seq<string>, now: int)
    requires Sweeping(st, st', names, pruned, now) && forall n :: n in names <==> n in visible
    ensures Sweeping(st, st', visible, pruned, now)
  {
  }

  lemma {:induction false} VisibleHolds(keys: seq<string>)
    ensures forall k :: k in Visible(keys) <==> k in keys && !IsMetaKey(k)
  {
    if keys != [] {
      var n := |keys| - 1;
      VisibleHolds(keys[..n]);
      assert keys == keys[..n] + [keys[n]];
    }
  }
}
