/** The shared log's locks are given back: what is locked is held by a thread that can go on. */
module AuditProgress {
  import opened ByteStrings
  import opened AuditLines
  import opened AuditLog

  /** Whatever is locked is held by a thread that is at a step where it holds it. */
  predicate MutexHeld(s: State, p: nat) {
    p in s.mutex ==>
      Present(s, s.mutex[p]) && s.processOf[s.mutex[p]] == p && HoldsMutex(s.threads[s.mutex[p]])
  }

  predicate ExHeld(s: State) {
    s.ex.Some? ==>
      && s.ex.value.WriterFd? && s.ex.value.process in s.mutex
      && s.mutex[s.ex.value.process] in s.threads && HoldsEx(s.threads[s.mutex[s.ex.value.process]])
  }

  predicate ShHeld(s: State, fd: LockFd) {
    fd in s.sh ==> fd.ReaderFd? && Present(s, fd.thread) && HoldsSh(s.threads[fd.thread])
  }

  ghost predicate Held(s: State) {
    (forall p :: MutexHeld(s, p)) && ExHeld(s) && (forall fd :: ShHeld(s, fd))
  }

  lemma WriterMutexHeld(s: State, t: nat, p: nat)
    requires ThreadOk(s, t) && LocksOk(s) && Held(s) && Enabled(s, Step(t)) && s.threads[t].Writing?
    ensures MutexHeld(WriterStep(s, t), p)
  {
    hide Size, Content, Retained, OpenActive, RenameActive, AppendTo, CloseCached, CachesActive;
    assert MutexHeld(s, p);
  }

  lemma WriterExHeld(s: State, t: nat)
    requires ThreadOk(s, t) && LocksOk(s) && Held(s) && Enabled(s, Step(t)) && s.threads[t].Writing?
    ensures ExHeld(WriterStep(s, t))
  {
    hide Size, Content, Retained, OpenActive, RenameActive, AppendTo, CloseCached, CachesActive;
    assert MutexHeld(s, s.processOf[t]);
  }

  lemma WriterShHeld(s: State, t: nat, fd: LockFd)
    requires ThreadOk(s, t) && LocksOk(s) && Held(s) && Enabled(s, Step(t)) && s.threads[t].Writing?
    ensures ShHeld(WriterStep(s, t), fd)
  {
    hide Size, Content, Retained, OpenActive, RenameActive, AppendTo, CloseCached, CachesActive;
    assert ShHeld(s, fd);
  }

  lemma WriterStepHeld(s: State, t: nat)
    requires Inv(s) && Held(s) && Enabled(s, Step(t)) && s.threads[t].Writing?
    ensures Held(WriterStep(s, t))
  {
    hide FilesOk, WriterStep, ThreadOk, LocksOk, MutexHeld, ExHeld, ShHeld;
    assert ThreadOk(s, t);
    forall p ensures MutexHeld(WriterStep(s, t), p) {
      WriterMutexHeld(s, t, p);
    }
    WriterExHeld(s, t);
    forall fd ensures ShHeld(WriterStep(s, t), fd) {
      WriterShHeld(s, t, fd);
    }
  }

  lemma ReaderStepHeld(s: State, t: nat)
    requires Inv(s) && Held(s) && Enabled(s, Step(t)) && s.threads[t].Reading?
    ensures Held(ReaderStep(s, t))
  {
    hide FilesOk, ReadFile, Combine, Remaining, BytesOf;
    var s' := ReaderStep(s, t);
    assert ThreadOk(s, t) && LocksOk(s);
    forall p ensures MutexHeld(s', p) {
      assert MutexHeld(s, p);
    }
    forall fd ensures ShHeld(s', fd) {
      assert ShHeld(s, fd);
    }
  }

  lemma FailHeld(s: State, t: nat)
    requires Inv(s) && Held(s) && Enabled(s, Fail(t))
    ensures Held(FailStep(s, t))
  {
    hide FilesOk;
    var s' := FailStep(s, t);
    assert ThreadOk(s, t);
    forall p ensures MutexHeld(s', p) {
      assert MutexHeld(s, p);
    }
    forall fd ensures ShHeld(s', fd) {
      assert ShHeld(s, fd);
    }
  }

  lemma CrashHeld(s: State, p: nat)
    requires Inv(s) && Held(s)
    ensures Held(CrashStep(s, p))
  {
    hide FilesOk;
    var s' := CrashStep(s, p);
    forall q ensures MutexHeld(s', q) {
      assert MutexHeld(s, q);
    }
    if s.ex.Some? {
      assert MutexHeld(s, s.ex.value.process);
    }
    forall fd ensures ShHeld(s', fd) {
      assert ShHeld(s, fd);
    }
  }

  /** Starting, and an opened file found unusable, leave the locks alone. */
  lemma OtherHeld(s: State, e: Event)
    requires Inv(s) && Held(s) && Enabled(s, e) && (e.StartWrite? || e.StartRead? || e.HalfOpen?)
    ensures Held(Apply(s, e))
  {
    hide FilesOk, OpenedAndClosed;
    var s' := Apply(s, e);
    assert ThreadOk(s, e.thread);
    forall p ensures MutexHeld(s', p) {
      assert MutexHeld(s, p);
    }
    forall fd ensures ShHeld(s', fd) {
      assert ShHeld(s, fd);
    }
  }

  lemma EventKeepsHeld(s: State, e: Event)
    requires Inv(s) && Held(s) && Enabled(s, e)
    ensures Held(Apply(s, e))
  {
    hide Inv, Held, WriterStep, ReaderStep, FailStep, CrashStep, HalfOpenStep;
    match e
    case StartWrite(_, _) => OtherHeld(s, e);
    case StartRead(_, _) => OtherHeld(s, e);
    case Step(t) =>
      if s.threads[t].Writing? {
        WriterStepHeld(s, t);
      } else {
        ReaderStepHeld(s, t);
      }
    case Fail(t) => FailHeld(s, t);
    case HalfOpen(t) => OtherHeld(s, e);
    case Crash(p) => CrashHeld(s, p);
  }

  lemma {:induction false} RunKeepsHeld(s: State, events: seq<Event>)
    requires Inv(s) && Held(s) && IsRun(s, events)
    ensures Held(After(s, events))
    decreases |events|
  {
    if events != [] {
      EventKeepsHeld(s, events[0]);
      EventKeepsInv(s, events[0]);
      RunKeepsHeld(Apply(s, events[0]), events[1..]);
    }
  }

  /** Neither mutex nor lock is wanted: the thread's next step can be taken at once. */
  predicate Runs(th: Thread) {
    (th.Writing? && !th.at.WantMutex? && !th.at.WantLock?) || (th.Reading? && !th.from.WantMutexR? && !th.from.WantLockR?)
  }

  lemma RunsIsEnabled(s: State, t: nat)
    requires ThreadOk(s, t) && t in s.threads && Runs(s.threads[t])
    ensures Enabled(s, Step(t))
  {
  }

  /** A thread that wants the lock gets it, or some holder of the lock can go on. */
  lemma LockOrHolder(s: State, t: nat) returns (u: nat)
    requires Inv(s) && Held(s) && t in s.threads
    requires (s.threads[t].Writing? && s.threads[t].at.WantLock?) || (s.threads[t].Reading? && s.threads[t].from.WantLockR?)
    ensures Enabled(s, Step(u))
  {
    hide FilesOk;
    assert ThreadOk(s, t);
    u := t;
    if s.ex.Some? {
      u := s.mutex[s.ex.value.process];
      assert ThreadOk(s, u);
      RunsIsEnabled(s, u);
    } else if s.threads[t].Writing? && s.sh != {} {
      var fd :| fd in s.sh;
      assert ShHeld(s, fd);
      u := fd.thread;
      assert ThreadOk(s, u);
      RunsIsEnabled(s, u);
    }
  }

  lemma SomeoneCanStep(s: State, t: nat) returns (u: nat)
    requires Inv(s) && Held(s) && t in s.threads && !s.threads[t].Idle?
    ensures Enabled(s, Step(u))
  {
    hide FilesOk, Held;
    assert ThreadOk(s, t);
    u := t;
    if Runs(s.threads[t]) {
      RunsIsEnabled(s, t);
    } else if HoldsMutex(s.threads[t]) {
      u := LockOrHolder(s, t);
    } else if s.processOf[t] in s.mutex {
      HolderPresent(s, s.processOf[t]);
      u := s.mutex[s.processOf[t]];
      assert ThreadOk(s, u);
      if Runs(s.threads[u]) {
        RunsIsEnabled(s, u);
      } else {
        u := LockOrHolder(s, u);
      }
    }
  }

  lemma HolderPresent(s: State, p: nat)
    requires Held(s) && p in s.mutex
    ensures Present(s, s.mutex[p]) && HoldsMutex(s.threads[s.mutex[p]])
  {
    assert MutexHeld(s, p);
  }

  /** No run ends in a deadlock: while any thread is busy, some thread can take its next step. */
  lemma NoDeadlock(s: State, events: seq<Event>, t: nat) returns (u: nat)
    requires Init(s) && IsRun(s, events)
    requires t in After(s, events).threads && !After(s, events).threads[t].Idle?
    ensures Enabled(After(s, events), Step(u))
  {
    InitInv(s);
    RunKeepsInv(s, events);
    RunKeepsHeld(s, events);
    u := SomeoneCanStep(After(s, events), t);
  }

  function StepsToGo(th: Thread): nat {
    match th
    case Idle => 0
    case Writing(_, at) =>
      (match at
       case WantMutex => 10
       case WantLock => 9
       case Ensure => 8
       case Open => 7
       case Rotate => 6
       case Rename => 5
       case Reopen => 4
       case Append => 3
       case Unlock => 2
       case Leave => 1)
    case Reading(_, from) =>
      (match from
       case WantMutexR => 6
       case WantLockR => 5
       case ReadActive => 4
       case ReadRotated(_) => 3
       case UnlockR(_) => 2
       case LeaveR(_) => 1)
  }

  lemma WriterStepsRunOut(s: State, t: nat)
    requires Enabled(s, Step(t)) && s.threads[t].Writing?
    ensures var s' := WriterStep(s, t);
      && t in s'.threads && StepsToGo(s'.threads[t]) < StepsToGo(s.threads[t])
      && s'.threads == s.threads[t := s'.threads[t]]
  {
    hide Size, OpenActive, RenameActive, AppendTo, CloseCached;
  }

  lemma ReaderStepsRunOut(s: State, t: nat)
    requires Enabled(s, Step(t)) && s.threads[t].Reading?
    ensures var s' := ReaderStep(s, t);
      && t in s'.threads && StepsToGo(s'.threads[t]) < StepsToGo(s.threads[t])
      && s'.threads == s.threads[t := s'.threads[t]]
  {
    hide ReadFile, Combine, Remaining, BytesOf;
  }

  /** And every step brings its thread nearer to the end, and no other thread further from it. */
  lemma StepsRunOut(s: State, t: nat)
    requires Enabled(s, Step(t))
    ensures var s' := Apply(s, Step(t));
      && t in s'.threads && StepsToGo(s'.threads[t]) < StepsToGo(s.threads[t])
      && s'.threads == s.threads[t := s'.threads[t]]
  {
    hide WriterStep, ReaderStep, StepsToGo;
    if s.threads[t].Writing? {
      WriterStepsRunOut(s, t);
    } else {
      ReaderStepsRunOut(s, t);
    }
  }

  /** When all threads are idle nothing is locked. */
  lemma IdleMeansUnlocked(s: State, events: seq<Event>)
    requires Init(s) && IsRun(s, events)
    requires forall t :: t in After(s, events).threads ==> After(s, events).threads[t].Idle?
    ensures After(s, events).mutex == map[] && After(s, events).ex == None && After(s, events).sh == {}
  {
    InitInv(s);
    RunKeepsHeld(s, events);
    var now := After(s, events);
    forall p ensures p !in now.mutex {
      assert MutexHeld(now, p);
    }
    forall fd ensures fd !in now.sh {
      assert ShHeld(now, fd);
    }
  }
}
