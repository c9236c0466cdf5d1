/** One process's append, statement by statement, and that it is what the shared log's steps do. */
module AuditWriter {
  import opened ByteStrings
  import opened AuditLines
  import opened AuditLog

  /** Reopen a descriptor that no longer refers to audit.log, or was never opened. */
  function Ensured(s: Log, p: nat): Log {
    if p in s.cached && s.active == Some(s.cached[p]) then s
    else OpenActive(CloseCached(s, p), p)
  }

  /** Start a fresh file when the current one has reached the threshold. */
  function RotatedIfTooLarge(s: Log, p: nat): Log
    requires CachesActive(s, p)
  {
    if Size(s.files[s.cached[p]]) < s.config.threshold then s
    else OpenActive(RenameActive(CloseCached(s, p)), p)
  }

  /** The whole append. */
  function Appended(s: Log, p: nat, record: bytes): Log
    requires FilesOk(s)
  {
    EnsuredKeepsFiles(s, p);
    var ready := RotatedIfTooLarge(Ensured(s, p), p);
    RotatedKeepsFiles(Ensured(s, p), p);
    AppendTo(ready, ready.cached[p], record)
  }

  lemma EnsuredKeepsFiles(s: Log, p: nat)
    requires FilesOk(s)
    ensures FilesOk(Ensured(s, p)) && CachesActive(Ensured(s, p), p)
    ensures Ensured(s, p).history == s.history && Retained(Ensured(s, p)) == Retained(s)
  {
    OpenKeepsFiles(CloseCached(s, p), p);
  }

  lemma RotatedKeepsFiles(s: Log, p: nat)
    requires FilesOk(s) && CachesActive(s, p)
    ensures var r := RotatedIfTooLarge(s, p);
      && FilesOk(r) && CachesActive(r, p) && r.history == s.history
      && Size(Content(r, r.active)) < r.config.threshold
  {
    SizeOfNone();
    if s.config.threshold <= Size(s.files[s.cached[p]]) {
      var closed := CloseCached(s, p);
      RenameKeepsFiles(closed);
      OpenKeepsFiles(RenameActive(closed), p);
    }
  }

  lemma AppendedKeepsFiles(s: Log, p: nat, record: bytes)
    requires FilesOk(s) && IsRecord(record)
    ensures FilesOk(Appended(s, p, record))
  {
    hide Encode, Size, FilesOk, OpenActive, RotatedIfTooLarge, Ensured, AppendTo, CachesActive;
    EnsuredKeepsFiles(s, p);
    RotatedKeepsFiles(Ensured(s, p), p);
    AppendKeepsFiles(RotatedIfTooLarge(Ensured(s, p), p), p, record);
  }

  lemma AppendedHistory(s: Log, p: nat, record: bytes)
    requires FilesOk(s)
    ensures Appended(s, p, record).history == s.history + [record]
  {
    hide Encode, Size, FilesOk, OpenActive, RotatedIfTooLarge, Ensured, CachesActive;
    EnsuredKeepsFiles(s, p);
    RotatedKeepsFiles(Ensured(s, p), p);
  }

  /** Files other than the one at audit.log stay as they are. */
  predicate OthersKept(s: Log, r: Log) {
    forall i :: i in s.files && r.active != Some(i) ==> i in r.files && r.files[i] == s.files[i]
  }

  lemma EnsuredKeepsOthers(s: Log, p: nat)
    requires FilesOk(s)
    ensures var r := Ensured(s, p); forall i :: i in s.files ==> i in r.files && r.files[i] == s.files[i]
  {
    hide Encode, Size;
  }

  lemma RotatedKeepsOthers(s: Log, p: nat)
    requires FilesOk(s) && CachesActive(s, p)
    ensures var r := RotatedIfTooLarge(s, p); forall i :: i in s.files ==> i in r.files && r.files[i] == s.files[i]
  {
    hide Encode, Size;
  }

  lemma LastInActive(s: Log, p: nat, record: bytes)
    requires CachesActive(s, p)
    ensures var r := AppendTo(s, s.cached[p], record);
      && Content(r, r.active) == Content(s, s.active) + [record] && CachesActive(r, p) && OthersKept(s, r)
  {
  }

  /**
   An append adds its record at the end of audit.log and of the history, loses none but what
   rotation drops, and leaves every other file as it was.
   */
  lemma AppendedIsLast(s: Log, p: nat, record: bytes)
    requires FilesOk(s) && IsRecord(record)
    ensures var r := Appended(s, p, record);
      && FilesOk(r)
      && r.history == s.history + [record]
      && Content(r, r.active) != [] && Content(r, r.active)[|Content(r, r.active)| - 1] == record
      && CachesActive(r, p) && OthersKept(s, r)
  {
    hide Encode, Size, FilesOk, Content, Retained, OpenActive, RotatedIfTooLarge, Ensured, AppendTo, CachesActive;
    AppendedKeepsFiles(s, p, record);
    AppendedHistory(s, p, record);
    EnsuredKeepsFiles(s, p);
    var ready := Ensured(s, p);
    EnsuredKeepsOthers(s, p);
    RotatedKeepsFiles(ready, p);
    RotatedKeepsOthers(ready, p);
    LastInActive(RotatedIfTooLarge(ready, p), p, record);
  }

  /** What audit.log holds when the record is written: what it held, or nothing after a rotation. */
  function Before(s: Log): nat {
    var size := Size(Content(s, s.active));
    if size < s.config.threshold then size else 0
  }

  lemma SizeAfterAppend(s: Log, p: nat, record: bytes)
    requires FilesOk(s) && IsRecord(record)
    ensures var r := Appended(s, p, record); Size(Content(r, r.active)) == Before(s) + |record| + 1
  {
    hide Encode, Size, FilesOk, CachesActive, AppendTo, Appended;
    var ready := Ensured(s, p);
    EnsuredKeepsFiles(s, p);
    RotatedKeepsFiles(ready, p);
    AppendedUnfolds(s, p, record);
    SizeBefore(s, p);
    var room := RotatedIfTooLarge(ready, p);
    LastInActive(room, p, record);
    SizeOfAppend(Content(room, room.active), record);
  }

  lemma AppendedUnfolds(s: Log, p: nat, record: bytes)
    requires FilesOk(s)
    ensures CachesActive(Ensured(s, p), p)
    ensures var room := RotatedIfTooLarge(Ensured(s, p), p);
      CachesActive(room, p) && Appended(s, p, record) == AppendTo(room, room.cached[p], record)
  {
    hide Encode, Size, FilesOk, OpenActive, AppendTo, Ensured, RotatedIfTooLarge;
    EnsuredKeepsFiles(s, p);
    RotatedKeepsFiles(Ensured(s, p), p);
  }

  lemma SizeBefore(s: Log, p: nat)
    requires FilesOk(s)
    ensures CachesActive(Ensured(s, p), p)
    ensures var room := RotatedIfTooLarge(Ensured(s, p), p); Size(Content(room, room.active)) == Before(s)
  {
    hide Encode, Size;
    SizeOfNone();
    EnsuredKeepsFiles(s, p);
    var ready := Ensured(s, p);
    assert Content(ready, ready.active) == Content(s, s.active);
  }

  /** audit.log exceeds the threshold after an append exactly if the line does not fit into what is left. */
  lemma OvershootsExactly(s: Log, p: nat, record: bytes)
    requires FilesOk(s) && IsRecord(record)
    ensures var r := Appended(s, p, record);
      s.config.threshold < Size(Content(r, r.active)) <==> s.config.threshold < Before(s) + |record| + 1
  {
    SizeAfterAppend(s, p, record);
  }

  function EmptyLog(config: Config): Log {
    Log(config, map[], 0, None, None, map[], [], [], 0)
  }

  lemma EmptyLogOk(config: Config)
    requires 0 < config.threshold
    ensures FilesOk(EmptyLog(config)) && Before(EmptyLog(config)) == 0
  {
    SizeOfNone();
  }

  /** From an empty directory two appends exceed the threshold, and reach the bound on file sizes. */
  lemma BoundIsReached(config: Config, p: nat, first: bytes, second: bytes)
    requires IsRecord(first) && IsRecord(second) && |first| <= |second| && config.threshold == |first| + 2
    ensures FilesOk(EmptyLog(config)) && FilesOk(Appended(EmptyLog(config), p, first))
    ensures var r := Appended(Appended(EmptyLog(config), p, first), p, second);
      && config.threshold < Size(Content(r, r.active))
      && r.longest == |second| + 1 && Size(Content(r, r.active)) == config.threshold - 1 + r.longest
  {
    hide Encode, Size, Content, FilesOk, Appended, Before;
    var empty := EmptyLog(config);
    EmptyLogOk(config);
    AppendedKeepsFiles(empty, p, first);
    var one := Appended(empty, p, first);
    LongestAfter(empty, p, first);
    SizeAfterAppend(empty, p, first);
    LongestAfter(one, p, second);
    SizeAfterAppend(one, p, second);
    RoomLeft(one);
  }

  lemma RoomLeft(s: Log)
    ensures Size(Content(s, s.active)) < s.config.threshold ==> Before(s) == Size(Content(s, s.active))
  {
  }

  lemma LongestAfter(s: Log, p: nat, record: bytes)
    requires FilesOk(s)
    ensures var r := Appended(s, p, record); r.longest == Max(s.longest, |record| + 1) && r.config == s.config
  {
    hide Encode, Size, FilesOk;
    EnsuredKeepsFiles(s, p);
    RotatedKeepsFiles(Ensured(s, p), p);
  }

  // ---------------------------------------------------------------------------------------------
  // The same, as the shared log's steps with nobody interrupting
  // ---------------------------------------------------------------------------------------------

  function StepsLeft(at: WriterPhase): nat {
    match at
    case Ensure => 6
    case Open => 5
    case Rotate => 4
    case Rename => 3
    case Reopen => 2
    case Append => 1
    case _ => 0
  }

  /** The steps of thread t from the start of its critical section until it unlocks. */
  function Section(s: State, t: nat): State
    requires FilesOk(s.log) && ThreadOk(s, t) && LocksOk(s) && Present(s, t) && s.threads[t].Writing?
    decreases StepsLeft(s.threads[t].at)
  {
    if StepsLeft(s.threads[t].at) == 0 then s
    else
      SectionGoesOn(s, t);
      Section(WriterStep(s, t), t)
  }

  lemma SectionGoesOn(s: State, t: nat)
    requires FilesOk(s.log) && ThreadOk(s, t) && LocksOk(s) && Present(s, t) && s.threads[t].Writing?
    requires StepsLeft(s.threads[t].at) != 0
    ensures Enabled(s, Step(t))
    ensures var s' := WriterStep(s, t);
      && FilesOk(s'.log) && ThreadOk(s', t) && LocksOk(s') && Present(s', t) && s'.threads[t].Writing?
      && StepsLeft(s'.threads[t].at) < StepsLeft(s.threads[t].at)
  {
    WriterStepFiles(s, t);
    WriterStepOwn(s, t);
  }

  /** Two steps as one: what remains of the section is the same. */
  lemma SectionAfter(s: State, t: nat) returns (next: State)
    requires FilesOk(s.log) && ThreadOk(s, t) && LocksOk(s) && Present(s, t) && s.threads[t].Writing?
    requires StepsLeft(s.threads[t].at) != 0
    ensures Enabled(s, Step(t)) && next == WriterStep(s, t)
    ensures FilesOk(next.log) && ThreadOk(next, t) && LocksOk(next) && Present(next, t) && next.threads[t].Writing?
    ensures Section(s, t) == Section(next, t)
  {
    SectionGoesOn(s, t);
    next := WriterStep(s, t);
  }

  /** Inside the critical section the steps amount to the append. */
  lemma SectionIsAppend(s: State, t: nat)
    requires FilesOk(s.log) && ThreadOk(s, t) && LocksOk(s) && Present(s, t)
    requires s.threads[t].Writing? && s.threads[t].at.Ensure?
    ensures var p, record := s.processOf[t], s.threads[t].record;
      Section(s, t) == s.(log := Appended(s.log, p, record), threads := s.threads[t := Writing(record, Unlock)])
  {
    hide Encode, Size, Records, Retained, FilesOk, OpenActive, AppendTo, ThreadOk, LocksOk, Section;
    var p, record := s.processOf[t], s.threads[t].record;
    var next := SectionAfter(s, t);
    if next.threads[t].at.Open? {
      next := SectionAfter(next, t);
    }
    assert next.log == Ensured(s.log, p) && next.threads == s.threads[t := Writing(record, Rotate)];
    SectionFromRotate(next, t);
  }

  lemma RotatesActive(s: State, t: nat)
    requires ThreadOk(s, t) && t in s.threads && s.threads[t].Writing? && s.threads[t].at.Rotate?
    ensures t in s.processOf && CachesActive(s.log, s.processOf[t])
  {
  }

  lemma SectionRenames(s: State, t: nat) returns (next: State)
    requires FilesOk(s.log) && ThreadOk(s, t) && LocksOk(s) && Present(s, t)
    requires s.threads[t].Writing? && s.threads[t].at.Rename?
    ensures FilesOk(next.log) && ThreadOk(next, t) && LocksOk(next) && Present(next, t)
    ensures next == s.(log := OpenActive(RenameActive(s.log), s.processOf[t]), threads := s.threads[t := Writing(s.threads[t].record, Append)])
    ensures Section(s, t) == Section(next, t)
  {
    hide Encode, Size, Records, Retained, FilesOk, OpenActive, RenameActive, ThreadOk, LocksOk, Section;
    next := SectionAfter(s, t);
    next := SectionAfter(next, t);
  }

  lemma SectionFromRotate(s: State, t: nat)
    requires FilesOk(s.log) && ThreadOk(s, t) && LocksOk(s) && Present(s, t)
    requires s.threads[t].Writing? && s.threads[t].at.Rotate?
    ensures CachesActive(s.log, s.processOf[t])
    ensures var p, record := s.processOf[t], s.threads[t].record;
      var ready := RotatedIfTooLarge(s.log, p);
      && CachesActive(ready, p)
      && Section(s, t) ==
         s.(log := AppendTo(ready, ready.cached[p], record), threads := s.threads[t := Writing(record, Unlock)])
  {
    hide Encode, Size, Records, Retained, FilesOk, OpenActive, AppendTo, ThreadOk, LocksOk, Section, RotatedIfTooLarge, CachesActive;
    RotatesActive(s, t);
    RotatedKeepsFiles(s.log, s.processOf[t]);
    var next := SectionRotates(s, t);
    SectionEnds(next, t);
  }

  /** From the size check to the write, with or without a rotation in between. */
  lemma SectionRotates(s: State, t: nat) returns (next: State)
    requires FilesOk(s.log) && ThreadOk(s, t) && LocksOk(s) && Present(s, t)
    requires s.threads[t].Writing? && s.threads[t].at.Rotate?
    ensures CachesActive(s.log, s.processOf[t])
    ensures FilesOk(next.log) && ThreadOk(next, t) && LocksOk(next) && Present(next, t)
    ensures next == s.(log := RotatedIfTooLarge(s.log, s.processOf[t]), threads := s.threads[t := Writing(s.threads[t].record, Append)])
    ensures Section(s, t) == Section(next, t)
  {
    hide Encode, Size, Records, Retained, Content, FilesOk, OpenActive, RenameActive, ThreadOk, LocksOk, Section;
    RotatesActive(s, t);
    next := SectionAfter(s, t);
    if next.threads[t].at.Rename? {
      next := SectionRenames(next, t);
    }
  }

  lemma SectionEnds(s: State, t: nat)
    requires FilesOk(s.log) && ThreadOk(s, t) && LocksOk(s) && Present(s, t)
    requires s.threads[t].Writing? && s.threads[t].at.Append?
    ensures Enabled(s, Step(t)) && Section(s, t) == WriterStep(s, t)
  {
    SectionGoesOn(s, t);
  }

  // ---------------------------------------------------------------------------------------------
  // The append with its error exits
  // ---------------------------------------------------------------------------------------------

  /** The system call that goes wrong, if one does. */
  datatype Trouble = NoTrouble | StatFails | CloseFails | RenameFails | OpenFails | ChmodFails | WriteFails | SyncFails

  /** What an attempt left behind, and whether it succeeded. */
  datatype Attempt = Attempt(log: Log, ok: bool)

  function TryOpen(s: Log, p: nat, t: Trouble): Attempt {
    if t.OpenFails? then Attempt(s, false)
    else if t.ChmodFails? then Attempt(OpenedAndClosed(s, p), false)
    else Attempt(OpenActive(s, p), true)
  }

  function TryEnsure(s: Log, p: nat, t: Trouble): Attempt {
    if p !in s.cached then TryOpen(s, p, t)
    else if t.StatFails? then Attempt(s, false)
    else if s.active == Some(s.cached[p]) then Attempt(s, true)
    else if t.CloseFails? then Attempt(CloseCached(s, p), false)
    else TryOpen(CloseCached(s, p), p, t)
  }

  function TryRotate(s: Log, p: nat, t: Trouble): Attempt
    requires CachesActive(s, p)
  {
    if t.StatFails? then Attempt(s, false)
    else if Size(s.files[s.cached[p]]) < s.config.threshold then Attempt(s, true)
    else if t.CloseFails? || t.RenameFails? then Attempt(CloseCached(s, p), false)
    else TryOpen(RenameActive(CloseCached(s, p)), p, t)
  }

  function TryWrite(s: Log, p: nat, record: bytes, t: Trouble): Attempt
    requires CachesActive(s, p)
  {
    if t.WriteFails? then Attempt(s, false) else Attempt(AppendTo(s, s.cached[p], record), !t.SyncFails?)
  }

  function TryAppend(s: Log, p: nat, record: bytes, ensuring: Trouble, rotating: Trouble, writing: Trouble): Attempt
    requires FilesOk(s)
  {
    var ready := TryEnsure(s, p, ensuring);
    EnsureAttempt(s, p, ensuring);
    if !ready.ok then ready
    else
      var room := TryRotate(ready.log, p, rotating);
      RotateAttempt(ready.log, p, rotating);
      if !room.ok then room else TryWrite(room.log, p, record, writing)
  }

  /** Nothing of the history is lost or changed, whatever went wrong on the way. */
  predicate SameHistory(s: Log, r: Log) {
    r.history == s.history && r.config == s.config && r.longest == s.longest && s.dropped <= r.dropped
  }

  lemma OpenAttempt(s: Log, p: nat, t: Trouble)
    requires FilesOk(s)
    ensures var r := TryOpen(s, p, t);
      && FilesOk(r.log) && SameHistory(s, r.log)
      && (r.ok ==> CachesActive(r.log, p) && r.log == OpenActive(s, p))
      && (!r.ok ==> p in r.log.cached ==> r.log == s)
  {
    OpenKeepsFiles(s, p);
  }

  lemma EnsureAttempt(s: Log, p: nat, t: Trouble)
    requires FilesOk(s)
    ensures var r := TryEnsure(s, p, t);
      FilesOk(r.log) && SameHistory(s, r.log) && (r.ok ==> r.log == Ensured(s, p) && CachesActive(r.log, p))
  {
    hide Encode, Size, OpenActive, FilesOk;
    EnsuredKeepsFiles(s, p);
    var closed := CloseCached(s, p);
    ClosedKeepsFiles(s, p);
    OpenAttempt(s, p, t);
    OpenAttempt(closed, p, t);
    if p !in s.cached {
      assert closed == s;
    }
  }

  lemma ClosedKeepsFiles(s: Log, p: nat)
    requires FilesOk(s)
    ensures FilesOk(CloseCached(s, p))
  {
  }

  lemma RotateAttempt(s: Log, p: nat, t: Trouble)
    requires FilesOk(s) && CachesActive(s, p)
    ensures var r := TryRotate(s, p, t);
      && FilesOk(r.log) && SameHistory(s, r.log)
      && (r.ok ==> r.log == RotatedIfTooLarge(s, p) && CachesActive(r.log, p) && Size(Content(r.log, r.log.active)) < r.log.config.threshold)
  {
    hide Encode, OpenActive, FilesOk, Size;
    RotatedKeepsFiles(s, p);
    var closed := CloseCached(s, p);
    ClosedKeepsFiles(s, p);
    if s.config.threshold <= Size(s.files[s.cached[p]]) {
      RenameKeepsFiles(closed);
      OpenAttempt(RenameActive(closed), p, t);
    }
  }

  /**
   An append either succeeds, and is the append that the uninterrupted steps make; or it fails, and
   then the log is as good as before: files and bounds are kept, and so is the history, to which a
   failed sync alone still adds the record.
   */
  lemma FailedAppendKeepsLog(s: Log, p: nat, record: bytes, ensuring: Trouble, rotating: Trouble, writing: Trouble)
    requires FilesOk(s) && IsRecord(record)
    ensures var r := TryAppend(s, p, record, ensuring, rotating, writing);
      && FilesOk(r.log)
      && (r.ok ==> r.log == Appended(s, p, record))
      && (r.log.history == s.history || r.log == Appended(s, p, record))
      && (!r.ok && !writing.SyncFails? ==> SameHistory(s, r.log))
      && (ensuring == rotating == NoTrouble ==>
            && (r.ok <==> !writing.WriteFails? && !writing.SyncFails?)
            && (r.log == Appended(s, p, record) || writing.WriteFails?))
  {
    hide Encode, Size, OpenActive, FilesOk, RotatedIfTooLarge, Ensured, CachesActive, AppendTo;
    AppendedKeepsFiles(s, p, record);
    EnsureAttempt(s, p, ensuring);
    var ready := TryEnsure(s, p, ensuring);
    if ready.ok {
      RotateAttempt(ready.log, p, rotating);
    }
  }

  /** Which calls can fail an attempt: only those that are made. */
  lemma FailsExactly(s: Log, p: nat, t: Trouble)
    requires FilesOk(s)
    ensures var cached := p in s.cached; var stale := !cached || s.active != Some(s.cached[p]);
      !TryEnsure(s, p, t).ok <==>
        (cached && t.StatFails?) || (cached && stale && t.CloseFails?) || (stale && (t.OpenFails? || t.ChmodFails?))
    ensures CachesActive(s, p) ==>
      var full := s.config.threshold <= Size(Content(s, s.active));
      !TryRotate(s, p, t).ok <==>
        t.StatFails? || (full && (t.CloseFails? || t.RenameFails? || t.OpenFails? || t.ChmodFails?))
  {
    hide Encode, Size;
  }

  /** A failed rotation other than of the size check leaves no descriptor behind, and no record lost unless renamed. */
  lemma FailedRotation(s: Log, p: nat, t: Trouble)
    requires FilesOk(s) && CachesActive(s, p) && !TryRotate(s, p, t).ok
    ensures var r := TryRotate(s, p, t).log;
      && (t.StatFails? ==> r == s)
      && (!t.StatFails? ==> p !in r.cached)
      && (t.CloseFails? || t.RenameFails? ==> r.active == s.active && r.rotated == s.rotated && Retained(r) == Retained(s))
      && (t.OpenFails? ==> r.active == None && r.rotated == s.active)
      && (t.ChmodFails? ==> r.active.Some? && r.active != s.active && r.rotated == s.active && Content(r, r.active) == [])
  {
    hide Encode, Size;
  }

  /** The process-wide descriptor and the directory it writes into. */
  class AuditProcess {
    const p: nat
    const config: Config
    var auditFile: Option<nat>
    var files: map<nat, seq<bytes>>
    var nextInode: nat
    var active: Option<nat>
    var rotated: Option<nat>
    ghost var dropped: seq<bytes>
    ghost var history: seq<bytes>
    ghost var longest: nat

    /** The log as this process sees it under the lock. */
    ghost function View(): Log
      reads this
    {
      Log(config, files, nextInode, active, rotated,
            if auditFile.Some? then map[p := auditFile.value] else map[], dropped, history, longest)
    }

    method OpenAuditFileLocked(t: Trouble) returns (f: Option<nat>)
      requires auditFile.None?
      modifies this`files, this`nextInode, this`active
      ensures f.Some? == TryOpen(old(View()), p, t).ok
      ensures (if f.Some? then View().(cached := map[p := f.value]) else View()) == TryOpen(old(View()), p, t).log
      ensures f.Some? ==> f == active
    {
      if t.OpenFails? {
        return None;
      }
      if active.None? {
        files := files[nextInode := []];
        active := Some(nextInode);
        nextInode := nextInode + 1;
      }
      assert map[p := active.value] - {p} == map[];
      if t.ChmodFails? {
        return None;
      }
      return active;
    }

    method EnsureAuditFileLocked(t: Trouble) returns (ok: bool)
      modifies this`auditFile, this`files, this`nextInode, this`active
      ensures Attempt(View(), ok) == TryEnsure(old(View()), p, t)
      ensures ok ==> auditFile.Some? && auditFile == active
    {
      if auditFile.Some? {
        if t.StatFails? {
          return false;
        }
        if active == auditFile {
          return true;
        }
        assert View().cached - {p} == map[];
        auditFile := None;
        if t.CloseFails? {
          return false;
        }
      }
      var f := OpenAuditFileLocked(t);
      auditFile := f;
      return f.Some?;
    }

    method RotateIfTooLargeLocked(t: Trouble) returns (ok: bool)
      requires auditFile.Some? && auditFile == active && auditFile.value in files
      modifies this`auditFile, this`files, this`nextInode, this`active, this`rotated, this`dropped
      ensures Attempt(View(), ok) == TryRotate(old(View()), p, t)
      ensures ok ==> auditFile.Some? && auditFile == active
    {
      if t.StatFails? {
        return false;
      }
      if Size(files[auditFile.value]) < config.threshold {
        return true;
      }
      assert View().cached - {p} == map[];
      auditFile := None;
      if t.CloseFails? || t.RenameFails? {
        return false;
      }
      dropped := dropped + Content(View(), rotated);
      rotated, active := active, None;
      var f := OpenAuditFileLocked(t);
      auditFile := f;
      return f.Some?;
    }

    method Append(record: bytes, ensuring: Trouble, rotating: Trouble, writing: Trouble) returns (ok: bool)
      requires FilesOk(View()) && IsRecord(record)
      modifies this
      ensures FilesOk(View()) && Attempt(View(), ok) == TryAppend(old(View()), p, record, ensuring, rotating, writing)
      ensures ok ==> View() == Appended(old(View()), p, record) && history == old(history) + [record]
      ensures !ok && !writing.SyncFails? ==> history == old(history)
    {
      hide FilesOk, Size, Encode, TryEnsure, TryRotate, Appended;
      ghost var before := View();
      FailedAppendKeepsLog(before, p, record, ensuring, rotating, writing);
      AppendedHistory(before, p, record);
      EnsureAttempt(before, p, ensuring);
      ok := EnsureAuditFileLocked(ensuring);
      if !ok {
        return;
      }
      RotateAttempt(View(), p, rotating);
      ok := RotateIfTooLargeLocked(rotating);
      if !ok {
        return;
      }
      if writing.WriteFails? {
        return false;
      }
      files := files[auditFile.value := files[auditFile.value] + [record]];
      history := history + [record];
      longest := Max(longest, |record| + 1);
      return !writing.SyncFails?;
    }
  }
}
