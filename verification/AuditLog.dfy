/**
 The audit log shared by many processes: appending through cached descriptors, rotation by rename,
 an in-process mutex, and a lock on a file of its own that writers share per process and every
 reader opens afresh. Each system call is a step; a process may crash between any two.
 */
module AuditLog {
  import opened ByteStrings
  import opened AuditLines

  datatype Config = Config(threshold: nat, cap: nat)

  /** An open description of the lock file: one per writing process, one per read. */
  datatype LockFd = WriterFd(process: nat) | ReaderFd(thread: nat)

  datatype WriterPhase =
    | WantMutex | WantLock
    | Ensure | Open | Rotate | Rename | Reopen | Append
    | Unlock | Leave

  datatype ReaderPhase =
    | WantMutexR | WantLockR
    | ReadActive | ReadRotated(lines: seq<bytes>)
    | UnlockR(result: Option<seq<bytes>>) | LeaveR(given: Option<seq<bytes>>)

  datatype Thread = Idle | Writing(record: bytes, at: WriterPhase) | Reading(n: int, from: ReaderPhase)

  /** The directory, the cached descriptors, and the history of what was appended. */
  datatype Log = Log(
    config: Config,
    files: map<nat, seq<bytes>>,       // by inode, every one ever created
    nextInode: nat,
    active: Option<nat>,               // audit.log
    rotated: Option<nat>,              // audit.log.1
    cached: map<nat, nat>,             // by process: the inode its cached descriptor refers to
    dropped: seq<bytes>,               // records lost to rotation, oldest first
    history: seq<bytes>,               // every record appended, in order
    longest: nat                       // the longest line appended
  )

  datatype State = State(
    log: Log,
    processOf: map<nat, nat>,          // by thread
    threads: map<nat, Thread>,
    mutex: map<nat, nat>,              // by process: the thread inside
    ex: Option<LockFd>,                // the lock file's exclusive holder
    sh: set<LockFd>                    // and its shared holders
  )

  datatype Event =
    | StartWrite(thread: nat, record: bytes)
    | StartRead(thread: nat, n: int)
    | Step(thread: nat)
    | Fail(thread: nat)
    | HalfOpen(thread: nat)
    | Crash(process: nat)

  // ---------------------------------------------------------------------------------------------
  // Files
  // ---------------------------------------------------------------------------------------------

  function Size(records: seq<bytes>): nat {
    |Encode(records)|
  }

  function Content(s: Log, inode: Option<nat>): seq<bytes> {
    if inode.Some? && inode.value in s.files then s.files[inode.value] else []
  }

  function Retained(s: Log): seq<bytes> {
    Content(s, s.rotated) + Content(s, s.active)
  }

  function BytesOf(s: Log, inode: Option<nat>): Option<bytes> {
    if inode.Some? && inode.value in s.files then Some(Encode(s.files[inode.value])) else None
  }

  /** Opens audit.log for process p, creating it when the path is free. */
  function OpenActive(s: Log, p: nat): Log {
    match s.active
    case Some(i) => s.(cached := s.cached[p := i])
    case None =>
      s.(files := s.files[s.nextInode := []],
         active := Some(s.nextInode),
         cached := s.cached[p := s.nextInode],
         nextInode := s.nextInode + 1)
  }

  /** The process's descriptor is closed and forgotten. */
  function CloseCached(s: Log, p: nat): Log {
    s.(cached := s.cached - {p})
  }

  /** Opened, created if need be, and closed again without being cached. */
  function OpenedAndClosed(s: Log, p: nat): Log {
    CloseCached(OpenActive(s, p), p)
  }

  /** rename(audit.log, audit.log.1): the old audit.log.1 is lost. */
  function RenameActive(s: Log): Log {
    s.(dropped := s.dropped + Content(s, s.rotated), rotated := s.active, active := None)
  }

  /** One write through the cached descriptor, wherever it points. */
  function AppendTo(s: Log, inode: nat, record: bytes): Log
    requires inode in s.files
  {
    s.(files := s.files[inode := s.files[inode] + [record]],
       history := s.history + [record],
       longest := Max(s.longest, |record| + 1))
  }

  // ---------------------------------------------------------------------------------------------
  // Steps
  // ---------------------------------------------------------------------------------------------

  predicate HoldsMutex(th: Thread) {
    match th
    case Idle => false
    case Writing(_, at) => !at.WantMutex?
    case Reading(_, from) => !from.WantMutexR?
  }

  predicate HoldsEx(th: Thread) {
    th.Writing? && (th.at.Ensure? || th.at.Open? || th.at.Rotate? || th.at.Rename? || th.at.Reopen? || th.at.Append? || th.at.Unlock?)
  }

  predicate HoldsSh(th: Thread) {
    th.Reading? && (th.from.ReadActive? || th.from.ReadRotated? || th.from.UnlockR?)
  }

  predicate CanLockEx(s: State, fd: LockFd) {
    (s.ex == None || s.ex == Some(fd)) && s.sh <= {fd}
  }

  predicate CanLockSh(s: State, fd: LockFd) {
    s.ex == None || s.ex == Some(fd)
  }

  predicate Present(s: State, t: nat) {
    t in s.threads && t in s.processOf
  }

  ghost predicate Enabled(s: State, e: Event) {
    match e
    case StartWrite(t, record) => Present(s, t) && s.threads[t].Idle? && IsRecord(record)
    case StartRead(t, _) => Present(s, t) && s.threads[t].Idle?
    case Step(t) =>
      Present(s, t) &&
      (match s.threads[t]
       case Idle => false
       case Writing(_, at) =>
         (match at
          case WantMutex => s.processOf[t] !in s.mutex
          case WantLock => CanLockEx(s, WriterFd(s.processOf[t]))
          case Rotate | Append => s.processOf[t] in s.log.cached && s.log.cached[s.processOf[t]] in s.log.files
          case _ => true)
       case Reading(_, from) =>
         (match from
          case WantMutexR => s.processOf[t] !in s.mutex
          case WantLockR => CanLockSh(s, ReaderFd(t))
          case _ => true))
    case Fail(t) =>
      Present(s, t) &&
      (match s.threads[t]
       case Idle => false
       case Writing(_, at) => !at.Unlock? && !at.Leave?
       case Reading(_, from) => !from.UnlockR? && !from.LeaveR?)
    case HalfOpen(t) => Present(s, t) && s.threads[t].Writing? && (s.threads[t].at.Open? || s.threads[t].at.Reopen?)
    case Crash(_) => true
  }

  function At(s: State, t: nat, at: WriterPhase): State
    requires Present(s, t) && s.threads[t].Writing?
  {
    s.(threads := s.threads[t := Writing(s.threads[t].record, at)])
  }

  function WriterStep(s: State, t: nat): State
    requires Enabled(s, Step(t)) && s.threads[t].Writing?
  {
    var p, log := s.processOf[t], s.log;
    match s.threads[t].at
    case WantMutex => At(s.(mutex := s.mutex[p := t]), t, WantLock)
    case WantLock => At(s.(ex := Some(WriterFd(p)), sh := {}), t, Ensure)
    case Ensure =>
      if p in log.cached && log.active == Some(log.cached[p]) then At(s, t, Rotate)
      else At(s.(log := CloseCached(log, p)), t, Open)
    case Open => At(s.(log := OpenActive(log, p)), t, Rotate)
    case Rotate =>
      if Size(log.files[log.cached[p]]) < log.config.threshold then At(s, t, Append)
      else At(s.(log := CloseCached(log, p)), t, Rename)
    case Rename => At(s.(log := RenameActive(log)), t, Reopen)
    case Reopen => At(s.(log := OpenActive(log, p)), t, Append)
    case Append => At(s.(log := AppendTo(log, log.cached[p], s.threads[t].record)), t, Unlock)
    case Unlock => At(s.(ex := if s.ex == Some(WriterFd(p)) then None else s.ex), t, Leave)
    case Leave => s.(mutex := s.mutex - {p}, threads := s.threads[t := Idle])
  }

  /** Where a read goes next; the answer, once there is one, travels with it. */
  function ReaderNext(s: Log, n: int, from: ReaderPhase): Thread {
    match from
    case WantMutexR => Reading(n, WantLockR)
    case WantLockR => Reading(n, ReadActive)
    case ReadActive =>
      (match ReadFile(BytesOf(s, s.active), n, s.config.cap)
       case TooLarge => Reading(n, UnlockR(None))
       case Lines(lines) =>
         if n > 0 && |lines| >= n then Reading(n, UnlockR(Some(lines[|lines| - n..])))
         else Reading(n, ReadRotated(lines)))
    case ReadRotated(lines) =>
      (match ReadFile(BytesOf(s, s.rotated), Remaining(n, lines), s.config.cap)
       case TooLarge => Reading(n, UnlockR(None))
       case Lines(older) => Reading(n, UnlockR(Some(Combine(lines, older, n)))))
    case UnlockR(result) => Reading(n, LeaveR(result))
    case LeaveR(_) => Idle
  }

  /** A read changes no file: it takes the mutex and a lock of its own, and gives both back. */
  function ReaderStep(s: State, t: nat): State
    requires Enabled(s, Step(t)) && s.threads[t].Reading?
  {
    var p, from := s.processOf[t], s.threads[t].from;
    s.(threads := s.threads[t := ReaderNext(s.log, s.threads[t].n, from)],
       mutex := if from.WantMutexR? then s.mutex[p := t] else if from.LeaveR? then s.mutex - {p} else s.mutex,
       sh := if from.WantLockR? then s.sh + {ReaderFd(t)} else if from.UnlockR? then s.sh - {ReaderFd(t)} else s.sh)
  }

  /** An error or an abandoned wait: whatever was locked is released, in order. */
  function FailStep(s: State, t: nat): State
    requires Enabled(s, Fail(t))
  {
    match s.threads[t]
    case Writing(_, at) =>
      if at.WantMutex? then s.(threads := s.threads[t := Idle])
      else At(s, t, if at.WantLock? then Leave else Unlock)
    case Reading(n, from) =>
      if from.WantMutexR? then s.(threads := s.threads[t := Idle])
      else s.(threads := s.threads[t := Reading(n, if from.WantLockR? then LeaveR(None) else UnlockR(None))])
  }

  /** audit.log was opened, and perhaps created, but then found unusable: it is closed again. */
  function HalfOpenStep(s: State, t: nat): State
    requires Enabled(s, HalfOpen(t))
  {
    At(s.(log := OpenedAndClosed(s.log, s.processOf[t])), t, Unlock)
  }

  /** The operating system closes a dead process's descriptors and so drops its locks. */
  function CrashStep(s: State, p: nat): State {
    s.(threads := map t | t in s.threads :: if t in s.processOf && s.processOf[t] == p then Idle else s.threads[t],
       mutex := s.mutex - {p},
       log := CloseCached(s.log, p),
       ex := if s.ex == Some(WriterFd(p)) then None else s.ex,
       sh := set fd | fd in s.sh && !(fd.ReaderFd? && fd.thread in s.processOf && s.processOf[fd.thread] == p))
  }

  function Apply(s: State, e: Event): State
    requires Enabled(s, e)
  {
    match e
    case StartWrite(t, record) => s.(threads := s.threads[t := Writing(record, WantMutex)])
    case StartRead(t, n) => s.(threads := s.threads[t := Reading(n, WantMutexR)])
    case Step(t) => if s.threads[t].Writing? then WriterStep(s, t) else ReaderStep(s, t)
    case Fail(t) => FailStep(s, t)
    case HalfOpen(t) => HalfOpenStep(s, t)
    case Crash(p) => CrashStep(s, p)
  }

  // ---------------------------------------------------------------------------------------------
  // The invariant
  // ---------------------------------------------------------------------------------------------

  /** Nothing is lost, duplicated or reordered; sizes stay within bounds. */
  ghost predicate FilesOk(s: Log) {
    && s.history == s.dropped + Retained(s)
    && (s.active.Some? ==> s.active.value in s.files)
    && (s.rotated.Some? ==> s.rotated.value in s.files && s.rotated != s.active)
    && (forall i :: i in s.files ==> i < s.nextInode)
    && (forall i, r :: i in s.files && r in s.files[i] ==> IsRecord(r))
    && 0 < s.config.threshold
    && Size(Content(s, s.active)) <= s.config.threshold - 1 + s.longest
    && Size(Content(s, s.rotated)) <= s.config.threshold - 1 + s.longest
    && (s.rotated.Some? ==> s.config.threshold <= Size(Content(s, s.rotated)))
    && (s.rotated.None? ==> s.dropped == [])
  }

  predicate LocksOk(s: State) {
    s.ex.Some? ==> s.sh == {} && s.ex.value.WriterFd?
  }

  predicate CachesActive(s: Log, p: nat) {
    p in s.cached && s.active == Some(s.cached[p]) && s.cached[p] in s.files
  }

  /** What a thread may rely on at each of its steps. */
  predicate ThreadOk(s: State, t: nat) {
    t in s.threads ==>
      && t in s.processOf
      && (HoldsMutex(s.threads[t]) ==> s.processOf[t] in s.mutex && s.mutex[s.processOf[t]] == t)
      && (HoldsEx(s.threads[t]) ==> s.ex == Some(WriterFd(s.processOf[t])))
      && (HoldsSh(s.threads[t]) ==> ReaderFd(t) in s.sh)
      && match s.threads[t]
         case Idle => true
         case Writing(record, at) =>
           && IsRecord(record)
           && (match at
               case Rotate => CachesActive(s.log, s.processOf[t])
               case Rename => s.log.active.Some? && s.log.config.threshold <= Size(Content(s.log, s.log.active))
               case Reopen => s.log.active.None?
               case Append =>
                 CachesActive(s.log, s.processOf[t]) && Size(Content(s.log, s.log.active)) < s.log.config.threshold
               case _ => true)
         case Reading(n, from) =>
           (match from
            case ReadRotated(lines) => lines == Tail(Content(s.log, s.log.active), n) && !(n > 0 && |lines| >= n)
            case UnlockR(Some(result)) => result == Tail(Retained(s.log), n)
            case _ => true)
  }

  ghost predicate Inv(s: State) {
    FilesOk(s.log) && LocksOk(s) && forall t :: ThreadOk(s, t)
  }

  /** An empty directory and idle threads. */
  ghost predicate Init(s: State) {
    && 0 < s.log.config.threshold
    && (forall t :: t in s.threads ==> t in s.processOf && s.threads[t].Idle?)
    && s.mutex == map[] && s.ex == None && s.sh == {}
    && s.log.files == map[] && s.log.active == None && s.log.rotated == None && s.log.cached == map[]
    && s.log.dropped == [] && s.log.history == [] && s.log.longest == 0
  }

  /** A writer inside its critical section is alone: no other writer, no reader. */
  lemma WriterAlone(s: State, t: nat, u: nat)
    requires LocksOk(s) && ThreadOk(s, t) && ThreadOk(s, u) && t != u
    requires t in s.threads && u in s.threads && HoldsEx(s.threads[t])
    ensures !HoldsEx(s.threads[u]) && !HoldsSh(s.threads[u])
  {
  }

  lemma SizeOfAppend(records: seq<bytes>, r: bytes)
    ensures Size(records + [r]) == Size(records) + |r| + 1
  {
    assert (records + [r])[..|records|] == records;
  }

  lemma SizeOfNone()
    ensures Size([]) == 0
  {
  }

  // ---------------------------------------------------------------------------------------------
  // Steps keep it
  // ---------------------------------------------------------------------------------------------

  lemma OpenKeepsFiles(s: Log, p: nat)
    requires FilesOk(s)
    ensures var s' := OpenActive(s, p);
      && FilesOk(s') && CachesActive(s', p)
      && Retained(s') == Retained(s) && s'.dropped == s.dropped && s'.history == s.history && s'.config == s.config
      && (s.active.None? ==> Content(s', s'.active) == [])
      && (s.active.Some? ==> s'.files == s.files && s'.active == s.active)
  {
    SizeOfNone();
  }

  lemma RenameKeepsFiles(s: Log)
    requires FilesOk(s) && s.active.Some? && s.config.threshold <= Size(Content(s, s.active))
    ensures FilesOk(RenameActive(s))
  {
    SizeOfNone();
    var s' := RenameActive(s);
    assert s.dropped + (Content(s, s.rotated) + Content(s, s.active))
        == (s.dropped + Content(s, s.rotated)) + Content(s, s.active);
    assert Retained(s') == Content(s, s.active);
  }

  lemma AppendKeepsFiles(s: Log, p: nat, record: bytes)
    requires FilesOk(s) && CachesActive(s, p) && IsRecord(record)
    requires Size(Content(s, s.active)) < s.config.threshold
    ensures FilesOk(AppendTo(s, s.cached[p], record))
  {
    var s' := AppendTo(s, s.cached[p], record);
    SizeOfAppend(Content(s, s.active), record);
    assert Content(s', s'.active) == Content(s, s.active) + [record];
    assert Content(s', s'.rotated) == Content(s, s.rotated);
    assert s'.history == s'.dropped + Retained(s') by {
      assert s.dropped + (Content(s, s.rotated) + Content(s, s.active)) + [record]
          == s.dropped + (Content(s, s.rotated) + (Content(s, s.active) + [record]));
    }
  }

  lemma WriterStepFiles(s: State, t: nat)
    requires FilesOk(s.log) && ThreadOk(s, t) && Enabled(s, Step(t)) && s.threads[t].Writing?
    ensures FilesOk(WriterStep(s, t).log)
  {
    hide Size, Encode, Records, Tail, LastN;
    match s.threads[t].at
    case Open => OpenKeepsFiles(s.log, s.processOf[t]);
    case Reopen => OpenKeepsFiles(s.log, s.processOf[t]);
    case Rename => RenameKeepsFiles(s.log);
    case Append => AppendKeepsFiles(s.log, s.processOf[t], s.threads[t].record);
    case _ =>
  }

  lemma SizeOfActive(s: Log, p: nat)
    requires CachesActive(s, p)
    ensures Content(s, s.active) == s.files[s.cached[p]]
  {
  }

  lemma ActiveExists(s: Log)
    requires FilesOk(s)
    ensures s.active.Some? ==> s.active.value in s.files
  {
  }

  lemma SizeOfFirst(s: Log)
    requires FilesOk(s)
    ensures Size([]) < s.config.threshold
  {
  }

  lemma WriterStepOwn(s: State, t: nat)
    requires FilesOk(s.log) && LocksOk(s) && ThreadOk(s, t) && Enabled(s, Step(t)) && s.threads[t].Writing?
    ensures ThreadOk(WriterStep(s, t), t) && LocksOk(WriterStep(s, t))
  {
    hide Encode, Records, Tail, LastN, FilesOk, Size, OpenActive, AppendTo, Retained;
    match s.threads[t].at
    case Ensure => ActiveExists(s.log);
    case Open => OpenKeepsFiles(s.log, s.processOf[t]);
    case Rotate => SizeOfActive(s.log, s.processOf[t]);
    case Reopen => OpenKeepsFiles(s.log, s.processOf[t]); SizeOfFirst(s.log);
    case _ =>
  }

  lemma WriterStepOther(s: State, t: nat, u: nat)
    requires LocksOk(s) && ThreadOk(s, t) && ThreadOk(s, u) && t != u
    requires Enabled(s, Step(t)) && s.threads[t].Writing?
    ensures ThreadOk(WriterStep(s, t), u)
  {
    if u in s.threads {
      if HoldsEx(s.threads[t]) {
        WriterAlone(s, t, u);
        InsideDisturbsNone(s, t, u);
      } else {
        OutsideDisturbsNone(s, t, u);
        UndisturbedOk(s, WriterStep(s, t), u);
      }
    }
  }

  /** While t is inside its critical section, u relies on nothing t can change. */
  lemma InsideDisturbsNone(s: State, t: nat, u: nat)
    requires ThreadOk(s, t) && ThreadOk(s, u) && t != u && u in s.threads
    requires Enabled(s, Step(t)) && s.threads[t].Writing?
    requires HoldsEx(s.threads[t]) && !HoldsEx(s.threads[u]) && !HoldsSh(s.threads[u])
    ensures ThreadOk(WriterStep(s, t), u)
  {
    hide Size, Encode, Records, Tail, LastN, Retained, Content;
  }

  lemma OutsideDisturbsNone(s: State, t: nat, u: nat)
    requires LocksOk(s) && ThreadOk(s, t) && ThreadOk(s, u) && t != u && u in s.threads
    requires Enabled(s, Step(t)) && s.threads[t].Writing? && !HoldsEx(s.threads[t])
    ensures Undisturbed(s, WriterStep(s, t), u)
  {
    hide Size, Encode, Records, Tail, LastN, Retained, Content;
  }

  /** What the locked reader gets from a file is the tail of its records. */
  lemma ReadGivesTail(s: Log, inode: Option<nat>, n: int)
    requires FilesOk(s) && (inode.Some? ==> inode.value in s.files)
    ensures var r := ReadFile(BytesOf(s, inode), n, s.config.cap);
      && (r.Lines? ==> r.lines == Tail(Content(s, inode), n))
      && (r.TooLarge? ==> s.config.cap < Size(Content(s, inode)))
  {
    if inode.Some? {
      RecordsOfEncode(s.files[inode.value]);
    }
  }

  lemma EnoughLines(rotated: seq<bytes>, active: seq<bytes>, n: int)
    requires n > 0 && |Tail(active, n)| >= n
    ensures var lines := Tail(active, n); lines[|lines| - n..] == Tail(rotated + active, n)
  {
  }

  /** The reader's next state keeps what it may rely on; it changes no file. */
  lemma ReaderStepOwn(s: State, t: nat)
    requires FilesOk(s.log) && LocksOk(s) && ThreadOk(s, t) && Enabled(s, Step(t)) && s.threads[t].Reading?
    ensures ThreadOk(ReaderStep(s, t), t) && LocksOk(ReaderStep(s, t)) && ReaderStep(s, t).log == s.log
  {
    hide Size, Encode, Records, ReadFile, Combine, Tail, LastN, Remaining;
    var n, log := s.threads[t].n, s.log;
    match s.threads[t].from
    case ReadActive =>
      ReadGivesTail(log, log.active, n);
      if n > 0 && |Tail(Content(log, log.active), n)| >= n {
        EnoughLines(Content(log, log.rotated), Content(log, log.active), n);
      }
    case ReadRotated(lines) =>
      ReadGivesTail(log, log.rotated, Remaining(n, lines));
      CombineIsTail(Content(log, log.rotated), Content(log, log.active), n);
    case _ =>
  }

  /** A thread only relies on the files, its process's descriptor, its mutex and its lock. */
  predicate Undisturbed(s: State, s': State, u: nat) {
    && u in s'.threads && u in s.threads && s'.threads[u] == s.threads[u]
    && s'.processOf == s.processOf && s'.log == s.log
    && (u in s.processOf && HoldsMutex(s.threads[u]) && s.processOf[u] in s.mutex && s.mutex[s.processOf[u]] == u ==>
          s.processOf[u] in s'.mutex && s'.mutex[s.processOf[u]] == u)
    && (HoldsEx(s.threads[u]) ==> s'.ex == s.ex)
    && (HoldsSh(s.threads[u]) && ReaderFd(u) in s.sh ==> ReaderFd(u) in s'.sh)
  }

  lemma UndisturbedOk(s: State, s': State, u: nat)
    requires ThreadOk(s, u) && Undisturbed(s, s', u)
    ensures ThreadOk(s', u)
  {
    hide Size, Encode, Records, Tail, LastN;
  }

  lemma ReaderStepOther(s: State, t: nat, u: nat)
    requires LocksOk(s) && ThreadOk(s, t) && ThreadOk(s, u) && t != u
    requires Enabled(s, Step(t)) && s.threads[t].Reading?
    ensures ThreadOk(ReaderStep(s, t), u)
  {
    if u in s.threads {
      ReaderDisturbsNone(s, t, u);
      UndisturbedOk(s, ReaderStep(s, t), u);
    }
  }

  lemma ReaderDisturbsNone(s: State, t: nat, u: nat)
    requires LocksOk(s) && ThreadOk(s, t) && ThreadOk(s, u) && t != u && u in s.threads
    requires Enabled(s, Step(t)) && s.threads[t].Reading?
    ensures Undisturbed(s, ReaderStep(s, t), u)
  {
    hide Size, Encode, Records, ReadFile, Combine, Tail, LastN, Remaining, Retained, Content, ReaderNext;
  }

  lemma StepKeeps(s: State, t: nat)
    requires Inv(s) && Enabled(s, Step(t))
    ensures Inv(Apply(s, Step(t)))
  {
    hide Size, Encode, Records, ReadFile, Combine, Tail, LastN, Remaining;
    var s' := Apply(s, Step(t));
    assert ThreadOk(s, t);
    if s.threads[t].Writing? {
      WriterStepFiles(s, t);
      WriterStepOwn(s, t);
    } else {
      ReaderStepOwn(s, t);
    }
    forall u ensures ThreadOk(s', u) {
      assert ThreadOk(s, u);
      if u != t {
        if s.threads[t].Writing? {
          WriterStepOther(s, t, u);
        } else {
          ReaderStepOther(s, t, u);
        }
      }
    }
  }

  /** An event that changes only what one thread is about. */
  lemma ThreadKeeps(s: State, t: nat, th: Thread)
    requires Inv(s) && t in s.threads && ThreadOk(s.(threads := s.threads[t := th]), t)
    ensures Inv(s.(threads := s.threads[t := th]))
  {
    hide Size, Encode, Records, Tail, LastN;
    var s' := s.(threads := s.threads[t := th]);
    forall u ensures ThreadOk(s', u) {
      assert ThreadOk(s, u);
    }
  }

  lemma StartKeeps(s: State, e: Event)
    requires Inv(s) && Enabled(s, e) && (e.StartWrite? || e.StartRead?)
    ensures Inv(Apply(s, e))
  {
    assert ThreadOk(s, e.thread);
    ThreadKeeps(s, e.thread, Apply(s, e).threads[e.thread]);
  }

  lemma FailOwn(s: State, t: nat)
    requires ThreadOk(s, t) && Enabled(s, Fail(t))
    ensures var s' := FailStep(s, t); t in s'.threads && s' == s.(threads := s.threads[t := s'.threads[t]])
    ensures ThreadOk(FailStep(s, t), t)
  {
    hide Size, Encode, Records, Tail, LastN, Retained, Content;
  }

  lemma FailKeeps(s: State, t: nat)
    requires Inv(s) && Enabled(s, Fail(t))
    ensures Inv(Apply(s, Fail(t)))
  {
    assert ThreadOk(s, t);
    FailOwn(s, t);
    ThreadKeeps(s, t, FailStep(s, t).threads[t]);
  }

  lemma HalfOpenOwn(s: State, t: nat)
    requires FilesOk(s.log) && LocksOk(s) && ThreadOk(s, t) && Enabled(s, HalfOpen(t))
    ensures FilesOk(HalfOpenStep(s, t).log) && LocksOk(HalfOpenStep(s, t)) && ThreadOk(HalfOpenStep(s, t), t)
  {
    hide Size, Encode, Records, Tail, LastN, OpenActive;
    OpenKeepsFiles(s.log, s.processOf[t]);
  }

  lemma HalfOpenDisturbsNone(s: State, t: nat, u: nat)
    requires ThreadOk(s, t) && ThreadOk(s, u) && t != u && u in s.threads && Enabled(s, HalfOpen(t))
    requires !HoldsEx(s.threads[u]) && !HoldsSh(s.threads[u])
    ensures ThreadOk(HalfOpenStep(s, t), u)
  {
    hide Size, Encode, Records, Tail, LastN, Retained, Content, OpenedAndClosed;
  }

  lemma HalfOpenKeeps(s: State, t: nat)
    requires Inv(s) && Enabled(s, HalfOpen(t))
    ensures Inv(Apply(s, HalfOpen(t)))
  {
    hide FilesOk, LocksOk, ThreadOk, HalfOpenStep;
    assert ThreadOk(s, t);
    HalfOpenOwn(s, t);
    forall u ensures ThreadOk(HalfOpenStep(s, t), u) {
      HalfOpenOther(s, t, u);
    }
  }

  lemma HalfOpenOther(s: State, t: nat, u: nat)
    requires Inv(s) && Enabled(s, HalfOpen(t))
    ensures ThreadOk(HalfOpenStep(s, t), u)
  {
    hide FilesOk;
    assert ThreadOk(s, t) && ThreadOk(s, u);
    if u == t {
      HalfOpenOwn(s, t);
    } else if u in s.threads {
      WriterAlone(s, t, u);
      HalfOpenDisturbsNone(s, t, u);
    }
  }

  lemma CrashKeeps(s: State, p: nat)
    requires Inv(s)
    ensures Inv(CrashStep(s, p))
  {
    hide Size, Encode, Records, ReadFile, Combine, Tail, LastN, Remaining;
    var s' := CrashStep(s, p);
    forall u ensures ThreadOk(s', u) {
      assert ThreadOk(s, u);
    }
  }

  lemma EventKeepsInv(s: State, e: Event)
    requires Inv(s) && Enabled(s, e)
    ensures Inv(Apply(s, e))
  {
    hide Inv, Enabled;
    match e
    case StartWrite(_, _) => StartKeeps(s, e);
    case StartRead(_, _) => StartKeeps(s, e);
    case Step(t) => StepKeeps(s, t);
    case Fail(t) => FailKeeps(s, t);
    case HalfOpen(t) => HalfOpenKeeps(s, t);
    case Crash(p) => CrashKeeps(s, p);
  }

  // ---------------------------------------------------------------------------------------------
  // Runs
  // ---------------------------------------------------------------------------------------------

  ghost predicate IsRun(s: State, events: seq<Event>)
    decreases |events|
  {
    events == [] || (Enabled(s, events[0]) && IsRun(Apply(s, events[0]), events[1..]))
  }

  ghost function After(s: State, events: seq<Event>): State
    requires IsRun(s, events)
    decreases |events|
  {
    if events == [] then s else After(Apply(s, events[0]), events[1..])
  }

  lemma InitInv(s: State)
    requires Init(s)
    ensures Inv(s)
  {
    SizeOfNone();
  }

  lemma {:induction false} RunKeepsInv(s: State, events: seq<Event>)
    requires Inv(s) && IsRun(s, events)
    ensures Inv(After(s, events))
    decreases |events|
  {
    if events != [] {
      EventKeepsInv(s, events[0]);
      RunKeepsInv(Apply(s, events[0]), events[1..]);
    }
  }

  /** In every run, a writer inside its critical section is alone: no other writer, no reader. */
  lemma CriticalSectionsExclude(s: State, events: seq<Event>, t: nat, u: nat)
    requires Init(s) && IsRun(s, events) && t != u
    ensures var now := After(s, events);
      t in now.threads && u in now.threads && HoldsEx(now.threads[t]) ==>
        !HoldsEx(now.threads[u]) && !HoldsSh(now.threads[u])
  {
    InitInv(s);
    RunKeepsInv(s, events);
    var now := After(s, events);
    assert ThreadOk(now, t) && ThreadOk(now, u);
    if t in now.threads && u in now.threads && HoldsEx(now.threads[t]) {
      WriterAlone(now, t, u);
    }
  }

  /**
   At every moment of every run the append history is the dropped records, then audit.log.1, then
   audit.log.
   */
  lemma HistoryIsKept(s: State, events: seq<Event>)
    requires Init(s) && IsRun(s, events)
    ensures var log := After(s, events).log;
      log.history == log.dropped + Content(log, log.rotated) + Content(log, log.active)
  {
    InitInv(s);
    RunKeepsInv(s, events);
    var log := After(s, events).log;
    assert log.dropped + Retained(log) == log.dropped + Content(log, log.rotated) + Content(log, log.active);
  }

  /** No step of any run changes a file other than the one at audit.log. */
  lemma RetiredFilesUntouched(s: State, events: seq<Event>, e: Event, inode: nat)
    requires Init(s) && IsRun(s, events) && Enabled(After(s, events), e)
    requires inode in After(s, events).log.files && After(s, events).log.active != Some(inode)
    ensures var now := After(s, events); var next := Apply(now, e);
      inode in next.log.files && next.log.files[inode] == now.log.files[inode]
  {
    InitInv(s);
    RunKeepsInv(s, events);
    if e.Step? {
      assert ThreadOk(After(s, events), e.thread);
    }
  }

  /** The step at which a reader has its answer. */
  ghost predicate Answers(s: State, t: nat, result: seq<bytes>) {
    && Enabled(s, Step(t)) && s.threads[t].Reading? && !s.threads[t].from.UnlockR? && !s.threads[t].from.LeaveR?
    && ReaderStep(s, t).threads[t] == Reading(s.threads[t].n, UnlockR(Some(result)))
  }

  /**
   A tail is a snapshot of one moment: the last n records retained then (all of them for n <= 0),
   which are the last records of the whole append history when that many are retained.
   */
  lemma TailIsSnapshot(s: State, events: seq<Event>, t: nat, result: seq<bytes>)
    requires Init(s) && IsRun(s, events) && Answers(After(s, events), t, result)
    ensures var now := After(s, events); var n, log := now.threads[t].n, now.log;
      && result == Tail(Retained(log), n)
      && (0 < n <= |Retained(log)| ==> result == Tail(log.history, n))
      && (n > 0 ==> |result| == Min(n, |Retained(log)|))
  {
    InitInv(s);
    RunKeepsInv(s, events);
    AnswerIsTail(After(s, events), t, result);
  }

  lemma AnswerIsTail(now: State, t: nat, result: seq<bytes>)
    requires Inv(now) && Answers(now, t, result)
    ensures var n, log := now.threads[t].n, now.log;
      && result == Tail(Retained(log), n)
      && (0 < n <= |Retained(log)| ==> result == Tail(log.history, n))
      && (n > 0 ==> |result| == Min(n, |Retained(log)|))
  {
    hide Size, Encode, Records, ReadFile, Combine, Remaining, Tail, LastN, Content, BytesOf;
    var n, log := now.threads[t].n, now.log;
    assert ThreadOk(now, t) && log.history == log.dropped + Retained(log);
    ReaderStepOwn(now, t);
    LastOfSum(log.dropped, Retained(log), n);
    TailLength(Retained(log), n);
  }

  lemma TailLength(records: seq<bytes>, n: int)
    ensures n > 0 ==> |Tail(records, n)| == Min(n, |records|)
  {
  }

  lemma LastOfSum(a: seq<bytes>, b: seq<bytes>, n: int)
    ensures 0 < n <= |b| ==> Tail(a + b, n) == Tail(b, n)
  {
  }

  /** Log files stay bounded by the threshold and the longest line; a tail never meets the cap. */
  lemma FilesStayBounded(s: State, events: seq<Event>)
    requires Init(s) && IsRun(s, events)
    ensures var log := After(s, events).log;
      && Size(Content(log, log.active)) <= log.config.threshold - 1 + log.longest
      && Size(Content(log, log.rotated)) <= log.config.threshold - 1 + log.longest
      && (log.longest <= log.config.cap - log.config.threshold + 1 ==>
            forall n :: ReadFile(BytesOf(log, log.active), n, log.config.cap).Lines?
                     && ReadFile(BytesOf(log, log.rotated), n, log.config.cap).Lines?)
  {
    InitInv(s);
    RunKeepsInv(s, events);
  }

  lemma {:induction false} SizeOfSum(a: seq<bytes>, b: seq<bytes>)
    ensures Size(a + b) == Size(a) + Size(b)
  {
    if b == [] {
      assert a + b == a;
    } else {
      var n := |b| - 1;
      SizeOfSum(a, b[..n]);
      assert a + b == (a + b[..n]) + [b[n]] && b == b[..n] + [b[n]];
      SizeOfAppend(a + b[..n], b[n]);
      SizeOfAppend(b[..n], b[n]);
    }
  }

  /** The two files always hold at least the threshold's worth of the most recent bytes. */
  lemma RecentBytesRetained(s: State, events: seq<Event>)
    requires Init(s) && IsRun(s, events)
    ensures var log := After(s, events).log;
      && Min(Size(log.history), log.config.threshold) <= Size(Retained(log))
      && |Retained(log)| <= |log.history|
      && Retained(log) == log.history[|log.history| - |Retained(log)|..]
  {
    InitInv(s);
    RunKeepsInv(s, events);
    var log := After(s, events).log;
    SizeOfSum(Content(log, log.rotated), Content(log, log.active));
    if log.rotated.None? {
      assert log.dropped + Retained(log) == Retained(log);
    }
  }

  /** A read's step after which its reader is told that the log could not be read. */
  ghost predicate Refuses(s: State, t: nat) {
    && Enabled(s, Step(t)) && s.threads[t].Reading? && !s.threads[t].from.UnlockR? && !s.threads[t].from.LeaveR?
    && ReaderStep(s, t).threads[t] == Reading(s.threads[t].n, UnlockR(None))
  }

  /**
   A read is refused only for a file above the cap, which in no run happens as long as the lines
   fit; otherwise its first look at the files answers at once or its second one does.
   */
  lemma TailIsAnswered(s: State, events: seq<Event>, t: nat)
    requires Init(s) && IsRun(s, events)
    requires Enabled(After(s, events), Step(t)) && After(s, events).threads[t].Reading?
    ensures var now := After(s, events); var log, from := now.log, now.threads[t].from;
      && (Refuses(now, t) ==>
            log.config.cap < Size(Content(log, if from.ReadActive? then log.active else log.rotated)))
      && (log.longest <= log.config.cap - log.config.threshold + 1 ==> !Refuses(now, t))
      && (!Refuses(now, t) && from.ReadActive? ==>
            (exists result :: Answers(now, t, result)) || ReaderStep(now, t).threads[t].from.ReadRotated?)
      && (!Refuses(now, t) && from.ReadRotated? ==> exists result :: Answers(now, t, result))
  {
    InitInv(s);
    RunKeepsInv(s, events);
    AnsweredUnlessTooLarge(After(s, events), t);
  }

  lemma AnsweredUnlessTooLarge(now: State, t: nat)
    requires Inv(now) && Enabled(now, Step(t)) && now.threads[t].Reading?
    ensures var log, from := now.log, now.threads[t].from;
      && (Refuses(now, t) ==>
            log.config.cap < Size(Content(log, if from.ReadActive? then log.active else log.rotated)))
      && (log.longest <= log.config.cap - log.config.threshold + 1 ==> !Refuses(now, t))
      && (!Refuses(now, t) && from.ReadActive? ==>
            (exists result :: Answers(now, t, result)) || ReaderStep(now, t).threads[t].from.ReadRotated?)
      && (!Refuses(now, t) && from.ReadRotated? ==> exists result :: Answers(now, t, result))
  {
    hide Encode, Records, Size, Tail, LastN, Combine, Remaining, Retained, ReadFile, BytesOf;
    var log, n := now.log, now.threads[t].n;
    assert ThreadOk(now, t);
    match now.threads[t].from
    case ReadActive =>
      ReadGivesTail(log, log.active, n);
      if ReaderNext(log, n, ReadActive).from.UnlockR? && ReaderNext(log, n, ReadActive).from.result.Some? {
        assert Answers(now, t, ReaderNext(log, n, ReadActive).from.result.value);
      }
    case ReadRotated(lines) =>
      ReadGivesTail(log, log.rotated, Remaining(n, lines));
      if ReaderNext(log, n, ReadRotated(lines)).from.UnlockR? && ReaderNext(log, n, ReadRotated(lines)).from.result.Some? {
        assert Answers(now, t, ReaderNext(log, n, ReadRotated(lines)).from.result.value);
      }
    case _ =>
  }
}
