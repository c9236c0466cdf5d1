/** A run's output: two redactors over one preparation of the secrets, each above a cap and a buffer. */
module OutputPipeline {
  import opened ByteStrings
  import opened Redaction
  import opened ScratchArrays
  import opened Registration
  import opened CappedOutput
  import opened RedactingWriterModel

  // ---------------------------------------------------------------------------------------------
  // A pair of writers over one preparation of the secrets
  // ---------------------------------------------------------------------------------------------

  /** Both ready, sharing forms and patterns and nothing else; they are the patterns' only users. */
  ghost predicate Paired(first: RedactingWriter, second: RedactingWriter)
    reads first, second, first.Owned(), second.Owned(), first.values, second.values
    reads if first.patterns == null then {} else {first.patterns}
    reads if second.patterns == null then {} else {second.patterns}
  {
    && first.Valid() && second.Valid() && first != second && first.w != second.w
    && first.Owned() !! second.Owned()
    && first.values == second.values && first.forms == second.forms
    && first.patterns == second.patterns
    && (first.patterns != null ==> first.patterns.users == {first, second})
  }

  /** Two writers over one preparation of the secrets; their scratch arrays are apart. */
  method NewPair(stdout: CappedWriter, stderr: CappedWriter, wired: bool, named: seq<NamedSecret>)
    returns (first: RedactingWriter, second: RedactingWriter)
    requires stdout != stderr && forall s, v :: s in named && v in s.forms ==> v != []
    ensures Paired(first, second) && first.w == stdout && second.w == stderr && first.wired == second.wired == wired
    ensures first.forms == Distinct(AllForms(named))
    ensures first.stream == second.stream == START && !first.passThrough && !second.passThrough
    ensures fresh(first) && fresh(second) && fresh(first.Owned()) && fresh(second.Owned()) && fresh(first.values)
    ensures first.patterns != null && fresh(first.patterns) && first.patterns.refs == 2
    ensures forall x: array<byte> :: fresh(x) ==> x in first.values || Zero(x)
  {
    hide Registered, Tables, Zero, RedactingWriter.Valid;
    first := new RedactingWriter(stdout, wired, named);
    second := new RedactingWriter.Second(stderr, wired, first);
    assert {first} + {second} == {first, second};
  }

  /** One writer's Write leaves the other as it was. */
  method WriteTo(first: RedactingWriter, second: RedactingWriter, p: bytes, reply: Reply)
    returns (n: nat, failed: bool)
    requires Paired(first, second)
    modifies first, first.w, first.Arrays()
    ensures Paired(first, second) && first.patterns == old(first.patterns)
    ensures first.forms == old(first.forms) && first.values == old(first.values)
    ensures first.State() == PipeWrite(first.forms, first.wired, old(first.State()), p, reply)
    ensures second.State() == old(second.State()) && second.Owned() == old(second.Owned())
    ensures old(first.Owned()) <= first.Owned()
    ensures forall x :: x in first.Owned() ==> x in old(first.Owned()) || fresh(x)
    ensures forall x :: x in first.Arrays() ==> x in old(first.Arrays()) || fresh(x)
    ensures forall x: array<byte> :: fresh(x) ==> x in first.Owned()
  {
    hide PipeWrite, PipeAnswer, RedactingWriter.Valid;
    Apart(first, second);
    n, failed := first.Write(p, reply);
  }

  method FlushTo(first: RedactingWriter, second: RedactingWriter, reply: Reply)
    requires Paired(first, second)
    modifies first, first.w, first.Arrays()
    ensures Paired(first, second) && first.patterns == old(first.patterns)
    ensures first.forms == old(first.forms) && first.values == old(first.values)
    ensures first.State() == PipeFlush(first.forms, old(first.State()), reply)
    ensures second.State() == old(second.State()) && second.Owned() == old(second.Owned())
    ensures old(first.Owned()) <= first.Owned()
    ensures forall x :: x in first.Owned() ==> x in old(first.Owned()) || fresh(x)
    ensures forall x :: x in first.Arrays() ==> x in old(first.Arrays()) || fresh(x)
    ensures forall x: array<byte> :: fresh(x) ==> x in first.Owned()
  {
    hide PipeFlush, RedactingWriter.Valid;
    Apart(first, second);
    var failed := first.Flush(reply);
  }

  lemma Apart(first: RedactingWriter, second: RedactingWriter)
    requires Paired(first, second)
    ensures first.values !! first.Owned() && second.values !! second.Owned()
    ensures first.stream.base <= |first.stream.input|
  {
  }

  lemma PairedBack(first: RedactingWriter, second: RedactingWriter)
    requires Paired(first, second)
    ensures Paired(second, first)
  {
    assert {first, second} == {second, first};
  }

  /** The first of a pair is gone; the second is ready and alone with the patterns. */
  ghost predicate Survives(first: RedactingWriter, second: RedactingWriter)
    reads first, second, first.Owned(), second.Owned(), first.values, second.values
    reads if first.patterns == null then {} else {first.patterns}
    reads if second.patterns == null then {} else {second.patterns}
  {
    && first.Valid() && first.secrets == [] && first.holdLen == 0 && first.patterns == null && first.values == {}
    && second.Valid() && second.patterns != null && second.patterns.users == {second}
    && first != second && first.w != second.w && first.Owned() !! second.Owned() + second.values
  }

  /** Destroying one of a pair leaves the patterns' bytes as they are, and the other writer with them. */
  method DestroyFirst(first: RedactingWriter, second: RedactingWriter)
    requires Paired(first, second) && first.patterns != null
    modifies first, first.Arrays(), first.values, first.patterns
    ensures Survives(first, second) && unchanged(second) && unchanged(old(first.values))
    ensures old(first.Owned()) <= first.Owned()
    ensures forall x :: x in first.Owned() ==> x in old(first.Owned()) || fresh(x)
    ensures forall x: array<byte> :: fresh(x) ==> x in first.Owned()
  {
    hide RedactingWriter.Scratch, Registered, Tables, Shows;
    Apart(first, second);
    ghost var shared := first.patterns;
    first.Destroy();
    assert shared.users == {second};
  }

  /** Destroying the other wipes them: nothing that either writer ever held is left. */
  method DestroyLast(first: RedactingWriter, second: RedactingWriter)
    requires Survives(first, second)
    modifies second, second.Arrays(), second.values, second.patterns
    ensures first.Valid() && second.Valid() && second.secrets == []
    ensures old(second.patterns).users == {} && old(second.patterns).refs == 0
    ensures AllZero(old(second.values)) && AllZero(old(second.Owned())) && AllZero(first.Owned())
    ensures forall x: array<byte> :: fresh(x) ==> Zero(x)
  {
    hide RedactingWriter.Valid, Zero;
    second.Sized();
    second.Destroy();
    second.AllWiped();
    first.AllWiped();
  }

  lemma Alone(first: RedactingWriter, second: RedactingWriter)
    requires Survives(first, second)
    ensures second.Valid() && second.patterns != null && second.values !! second.Owned() && first.secrets == []
  {
    second.Sized();
  }

  /** The survivor writes on, with the bytes that the patterns still hold. */
  method WriteAfter(first: RedactingWriter, second: RedactingWriter, p: bytes, reply: Reply)
    requires Survives(first, second)
    modifies second, second.w, second.Arrays()
    ensures Survives(first, second) && second.values == old(second.values) && second.patterns == old(second.patterns)
    ensures second.State() == PipeWrite(second.forms, second.wired, old(second.State()), p, reply)
    ensures second.forms == old(second.forms) && first.Owned() == old(first.Owned())
    ensures old(second.Owned()) <= second.Owned()
    ensures forall x :: x in second.Arrays() ==> x in old(second.Arrays()) || fresh(x)
    ensures forall x: array<byte> :: fresh(x) ==> x in second.Owned()
  {
    hide PipeWrite, PipeAnswer, RedactingWriter.Valid;
    second.Sized();
    var n, failed := second.Write(p, reply);
  }

  /** A pair destroyed with one more write of the second in between, which redacts as ever. */
  method DestroyPair(first: RedactingWriter, second: RedactingWriter, between: bytes, reply: Reply)
    requires Paired(first, second) && first.patterns != null
    modifies first, second, second.w, first.Arrays(), second.Arrays(), first.values, first.patterns
    ensures second.w.State() == PipeWrite(old(second.forms), second.wired, old(second.State()), between, reply).cap
    ensures first.Valid() && second.Valid() && first.secrets == second.secrets == []
    ensures old(first.patterns).users == {} && old(first.patterns).refs == 0
    ensures AllZero(old(first.values) + old(first.Owned()) + old(second.Owned()))
    ensures forall x: array<byte> :: fresh(x) ==> Zero(x)
  {
    hide PipeWrite, RedactingWriter.Valid, Zero, Survives;
    Apart(first, second);
    DestroyFirst(first, second);
    Alone(first, second);
    WriteAfter(first, second, between, reply);
    DestroyLast(first, second);
  }

  // ---------------------------------------------------------------------------------------------
  // A whole run
  // ---------------------------------------------------------------------------------------------

  /** A piece of a child's output on one of its two streams. */
  datatype Chunk = Chunk(toErr: bool, data: bytes)

  /** What was written to one stream, in order. */
  function Sent(chunks: seq<Chunk>, toErr: bool): seq<bytes> {
    if chunks == [] then []
    else
      var front, last := Sent(chunks[..|chunks| - 1], toErr), chunks[|chunks| - 1];
      if last.toErr == toErr then front + [last.data] else front
  }

  /** The chunks of one stream are all there, in order: positions in chunks, one for each. */
  ghost predicate AreSentAt(chunks: seq<Chunk>, toErr: bool, sent: seq<bytes>, at: seq<nat>) {
    && |at| == |sent|
    && (forall k :: 0 <= k < |at| ==> at[k] < |chunks| && chunks[at[k]] == Chunk(toErr, sent[k]))
    && (forall j, k :: 0 <= j < k < |at| ==> at[j] < at[k])
    && (forall i :: 0 <= i < |chunks| ==> (chunks[i].toErr == toErr <==> i in at))
  }

  lemma {:induction false} SentInOrder(chunks: seq<Chunk>, toErr: bool) returns (at: seq<nat>)
    ensures AreSentAt(chunks, toErr, Sent(chunks, toErr), at)
  {
    if chunks == [] {
      at := [];
    } else {
      var n := |chunks| - 1;
      var front := SentInOrder(chunks[..n], toErr);
      at := if chunks[n].toErr == toErr then front + [n] else front;
      SentStep(chunks, toErr, Sent(chunks[..n], toErr), front);
    }
  }

  lemma SentStep(chunks: seq<Chunk>, toErr: bool, sent: seq<bytes>, at: seq<nat>)
    requires |chunks| > 0 && AreSentAt(chunks[..|chunks| - 1], toErr, sent, at)
    ensures var n := |chunks| - 1;
      && (chunks[n].toErr == toErr ==> AreSentAt(chunks, toErr, sent + [chunks[n].data], at + [n]))
      && (chunks[n].toErr != toErr ==> AreSentAt(chunks, toErr, sent, at))
  {
    var n := |chunks| - 1;
    assert forall i :: 0 <= i < n ==> chunks[..n][i] == chunks[i];
  }

  lemma NothingSent(chunks: seq<Chunk>)
    ensures Sent(chunks[..0], true) == Sent(chunks[..0], false) == []
  {
  }

  lemma SentNext(chunks: seq<Chunk>, k: nat, toErr: bool)
    requires k < |chunks|
    ensures Sent(chunks[..k + 1], toErr)
         == if chunks[k].toErr == toErr then Sent(chunks[..k], toErr) + [chunks[k].data] else Sent(chunks[..k], toErr)
  {
    assert chunks[..k + 1][..k] == chunks[..k];
  }

  lemma PipeRunNext(forms: seq<Form>, limit: int, sent: seq<bytes>, p: bytes)
    ensures PipeRun(forms, true, limit, sent + [p]) == PipeWrite(forms, true, PipeRun(forms, true, limit, sent), p, Taken)
  {
    assert (sent + [p])[..|sent|] == sent;
  }

  /** v stands in s at position i. */
  predicate StandsAt(s: bytes, i: nat, v: bytes) {
    v != [] && i + |v| <= |s| && s[i..i + |v|] == v
  }

  /** f stands in s at i, listed by some secret, and under the name of the first that lists it. */
  ghost predicate ListedAt(named: seq<NamedSecret>, s: bytes, i: nat, f: Form) {
    StandsAt(s, i, f.value) && exists k: nat :: FirstLister(named, k, f.value) && named[k].name == f.name
  }

  /** A value that some secret lists stands before i and reaches past it. */
  ghost predicate InsideListed(named: seq<NamedSecret>, s: bytes, i: nat) {
    exists n, v, j: nat :: n in named && v in n.forms && StandsAt(s, j, v) && j < i < j + |v|
  }

  ghost predicate Fits(named: seq<NamedSecret>, s: bytes, a: Atom) {
    match a
    case Raw(i, b) => i < |s| && s[i] == b
    case Token(i, f) => ListedAt(named, s, i, f)
  }

  /**
   What the redaction of a stream must be, said of the secrets alone: items in input order; input
   bytes unchanged; tokens where a listed value stands, with the right name; the first byte of no
   listed value passed through; and nothing dropped but the rest of a listed value.
   */
  ghost predicate Redacts(named: seq<NamedSecret>, sent: seq<bytes>, trace: seq<Atom>) {
    var s := Concat(sent);
    && InOrder(trace, 0, |s|)
    && (forall a :: a in trace ==> Fits(named, s, a))
    && (forall n, v, i: nat :: n in named && v in n.forms && StandsAt(s, i, v) ==> !HasRaw(trace, i))
    && (forall i: nat :: i < |s| && !HasAtom(trace, i) ==> InsideListed(named, s, i))
  }

  lemma StandsAtStarts(s: bytes, i: nat, v: bytes)
    requires StandsAt(s, i, v)
    ensures v <= s[i..]
  {
    assert s[i..] == s[i..i + |v|] + s[i + |v|..];
  }

  lemma StandsIsOccurs(s: bytes, i: nat, f: Form)
    requires f.value != []
    ensures StandsAt(s, i, f.value) <==> Occurs(f, s, i)
  {
    if Occurs(f, s, i) {
      assert s[i..][..|f.value|] == s[i..i + |f.value|];
    }
    if StandsAt(s, i, f.value) {
      StandsAtStarts(s, i, f.value);
    }
  }

  /** Redacting with the forms that stand for the secrets redacts the secrets. */
  lemma RedactsNamed(named: seq<NamedSecret>, forms: seq<Form>, sent: seq<bytes>)
    requires StandsFor(forms, named) && Registered(forms)
    ensures Redacts(named, sent, Redact(forms, sent))
  {
    var s, trace := Concat(sent), Redact(forms, sent);
    RedactSound(forms, sent);
    forall a | a in trace ensures Fits(named, s, a) {
      assert AtomTrue(forms, s, true, a);
      if a.Token? {
        StandsIsOccurs(s, a.pos, a.form);
      }
    }
    forall n, v, i: nat | n in named && v in n.forms && StandsAt(s, i, v) ensures !HasRaw(trace, i) {
      assert HasValue(forms, v);
      var f :| f in forms && f.value == v;
      StandsIsOccurs(s, i, f);
      FirstByteWithheld(forms, sent, f, i);
    }
    forall i: nat | i < |s| && !HasAtom(trace, i) ensures InsideListed(named, s, i) {
      assert Covered(forms, s, i);
      CoveredIsInside(named, forms, s, i);
    }
  }

  lemma CoveredIsInside(named: seq<NamedSecret>, forms: seq<Form>, s: bytes, i: nat)
    requires StandsFor(forms, named) && Registered(forms) && Covered(forms, s, i)
    ensures InsideListed(named, s, i)
  {
    var f, j :| f in forms && 0 <= j < i < j + |f.value| && Occurs(f, s, j);
    StandsIsOccurs(s, j, f);
    var k: nat :| FirstLister(named, k, f.value) && named[k].name == f.name;
    assert named[k] in named && f.value in named[k].forms && StandsAt(s, j, f.value);
  }

  /** captured is the first limit bytes of a redaction of what was sent; cut says whether there were more. */
  ghost predicate CapturesRedaction(named: seq<NamedSecret>, limit: int, sent: seq<bytes>, captured: bytes, cut: bool) {
    exists trace :: Redacts(named, sent, trace) && IsCut(Render(trace), limit, captured, cut)
  }

  predicate IsCut(full: bytes, limit: int, captured: bytes, cut: bool) {
    captured == full[..Min(Limit(limit), |full|)] && (cut <==> |full| > Limit(limit))
  }

  lemma CapturesNamed(named: seq<NamedSecret>, limit: int, sent: seq<bytes>, captured: bytes, cut: bool)
    requires forall s, v :: s in named && v in s.forms ==> v != []
    requires CapturesPrefix(Distinct(AllForms(named)), limit, sent, captured, cut)
    ensures CapturesRedaction(named, limit, sent, captured, cut)
  {
    hide Redact, Render, AllForms, Distinct, Redacts;
    AllFormsStandFor(named);
    AllFormsNonEmpty(named);
    DistinctRegisters(AllForms(named));
    var forms := Distinct(AllForms(named));
    RedactsNamed(named, forms, sent);
    assert IsCut(Render(Redact(forms, sent)), limit, captured, cut);
  }

  /** captured is the first limit bytes of the redacted stream, and cut says whether there were more. */
  predicate CapturesPrefix(forms: seq<Form>, limit: int, sent: seq<bytes>, captured: bytes, cut: bool) {
    var full := Render(Redact(forms, sent));
    captured == full[..Min(Limit(limit), |full|)] && (cut <==> |full| > Limit(limit))
  }

  /** Every scratch array that either writer has or had. */
  ghost function Held(first: RedactingWriter, second: RedactingWriter): set<array<byte>>
    reads first, second
  {
    first.Owned() + second.Owned()
  }

  /** The scratch arrays in use. */
  ghost function InUse(first: RedactingWriter, second: RedactingWriter): set<array<byte>>
    reads first, second
  {
    first.Arrays() + second.Arrays()
  }

  /** One more chunk through the pair, on the stream it belongs to. */
  method Deliver(first: RedactingWriter, second: RedactingWriter, chunk: Chunk, limit: int, ghost out: seq<bytes>, ghost err: seq<bytes>)
    requires Paired(first, second) && first.wired && second.wired
    requires first.State() == PipeRun(first.forms, true, limit, out) && second.State() == PipeRun(first.forms, true, limit, err)
    modifies first, second, first.w, second.w, InUse(first, second)
    ensures Paired(first, second) && first.patterns == old(first.patterns)
    ensures first.forms == old(first.forms) && first.values == old(first.values)
    ensures first.State() == PipeRun(first.forms, true, limit, if chunk.toErr then out else out + [chunk.data])
    ensures second.State() == PipeRun(first.forms, true, limit, if chunk.toErr then err + [chunk.data] else err)
    ensures old(Held(first, second)) <= Held(first, second)
    ensures forall x :: x in Held(first, second) ==> x in old(Held(first, second)) || fresh(x)
    ensures forall x :: x in InUse(first, second) ==> x in old(InUse(first, second)) || fresh(x)
    ensures forall x: array<byte> :: fresh(x) ==> x in Held(first, second)
  {
    hide PipeRun, PipeWrite, RedactingWriter.Valid;
    if chunk.toErr {
      PairedBack(first, second);
      PipeRunNext(first.forms, limit, err, chunk.data);
      var n, failed := WriteTo(second, first, chunk.data, Taken);
      PairedBack(second, first);
    } else {
      PipeRunNext(first.forms, limit, out, chunk.data);
      var n, failed := WriteTo(first, second, chunk.data, Taken);
    }
  }

  /** Both streams flushed. */
  method FlushBoth(first: RedactingWriter, second: RedactingWriter)
    requires Paired(first, second)
    modifies first, second, first.w, second.w, InUse(first, second)
    ensures Paired(first, second) && first.patterns == old(first.patterns)
    ensures first.forms == old(first.forms) && first.values == old(first.values)
    ensures first.State() == PipeFlush(first.forms, old(first.State()), Taken)
    ensures second.State() == PipeFlush(first.forms, old(second.State()), Taken)
    ensures old(Held(first, second)) <= Held(first, second)
    ensures forall x :: x in InUse(first, second) ==> x in old(InUse(first, second)) || fresh(x)
    ensures forall x: array<byte> :: fresh(x) ==> x in Held(first, second)
  {
    hide PipeFlush, RedactingWriter.Valid;
    Apart(first, second);
    FlushTo(first, second, Taken);
    PairedBack(first, second);
    FlushTo(second, first, Taken);
    PairedBack(second, first);
  }

  /** Both writers destroyed. */
  method DestroyBoth(first: RedactingWriter, second: RedactingWriter)
    requires Paired(first, second) && first.patterns != null
    modifies first, second, InUse(first, second), first.values, first.patterns
    ensures AllZero(old(Held(first, second)) + old(first.values))
    ensures forall x: array<byte> :: fresh(x) ==> Zero(x)
  {
    hide RedactingWriter.Valid, Zero, Survives;
    Apart(first, second);
    DestroyFirst(first, second);
    Alone(first, second);
    DestroyLast(first, second);
  }

  /** The end of a run. */
  method Close(first: RedactingWriter, second: RedactingWriter, limit: int, ghost out: seq<bytes>, ghost err: seq<bytes>)
    requires Paired(first, second) && first.patterns != null && first.wired && second.wired
    requires first.State() == PipeRun(first.forms, true, limit, out) && second.State() == PipeRun(first.forms, true, limit, err)
    modifies first, second, first.w, second.w, InUse(first, second), first.values, first.patterns
    ensures CapturesPrefix(old(first.forms), limit, out, first.w.inner, first.w.truncated)
    ensures CapturesPrefix(old(first.forms), limit, err, second.w.inner, second.w.truncated)
    ensures AllZero(old(Held(first, second)) + old(first.values))
    ensures forall x: array<byte> :: fresh(x) ==> Zero(x)
  {
    hide PipeRun, PipeFlush, Redact, Render, RedactingWriter.Valid, Zero, Paired, Held, InUse;
    CapturedIsPrefixOfRedacted(first.forms, true, limit, out);
    CapturedIsPrefixOfRedacted(first.forms, true, limit, err);
    FlushBoth(first, second);
    SwapHeld(first, second);
    DestroyBoth(second, first);
  }

  lemma SwapHeld(first: RedactingWriter, second: RedactingWriter)
    requires Paired(first, second)
    ensures Paired(second, first) && first.values == second.values && first.patterns == second.patterns
    ensures Held(first, second) == Held(second, first) && InUse(first, second) == InUse(second, first)
  {
    PairedBack(first, second);
  }

  /** All the chunks of a run, in the order in which they arrive. */
  method Drive(first: RedactingWriter, second: RedactingWriter, chunks: seq<Chunk>, limit: int)
    requires Paired(first, second) && first.wired && second.wired
    requires first.State() == PipeRun(first.forms, true, limit, []) && second.State() == PipeRun(first.forms, true, limit, [])
    modifies first, second, first.w, second.w, InUse(first, second)
    ensures Paired(first, second) && first.patterns == old(first.patterns)
    ensures first.forms == old(first.forms) && first.values == old(first.values)
    ensures first.State() == PipeRun(first.forms, true, limit, Sent(chunks, false))
    ensures second.State() == PipeRun(first.forms, true, limit, Sent(chunks, true))
    ensures old(Held(first, second)) <= Held(first, second)
    ensures forall x :: x in Held(first, second) ==> x in old(Held(first, second)) || fresh(x)
    ensures forall x :: x in InUse(first, second) ==> x in old(InUse(first, second)) || fresh(x)
    ensures forall x: array<byte> :: fresh(x) ==> x in Held(first, second)
  {
    hide PipeRun, Paired, RedactingWriter.Valid, Sent, Held, InUse;
    ghost var forms := first.forms;
    NothingSent(chunks);
    for k := 0 to |chunks|
      invariant Paired(first, second) && first.patterns == old(first.patterns)
      invariant first.forms == forms && first.values == old(first.values)
      invariant first.State() == PipeRun(forms, true, limit, Sent(chunks[..k], false))
      invariant second.State() == PipeRun(forms, true, limit, Sent(chunks[..k], true))
      invariant old(Held(first, second)) <= Held(first, second)
      invariant forall x :: x in Held(first, second) ==> x in old(Held(first, second)) || fresh(x)
      invariant forall x :: x in InUse(first, second) ==> x in old(InUse(first, second)) || fresh(x)
      invariant forall x: array<byte> :: fresh(x) ==> x in Held(first, second)
    {
      SentNext(chunks, k, false);
      SentNext(chunks, k, true);
      Deliver(first, second, chunks[k], limit, Sent(chunks[..k], false), Sent(chunks[..k], true));
    }
    assert chunks[..|chunks|] == chunks;
  }

  /** A run from the first chunk to the end. */
  method Session(first: RedactingWriter, second: RedactingWriter, chunks: seq<Chunk>, limit: int)
    requires Paired(first, second) && first.patterns != null && first.wired && second.wired
    requires first.State() == PipeRun(first.forms, true, limit, []) && second.State() == PipeRun(first.forms, true, limit, [])
    modifies first, second, first.w, second.w, InUse(first, second), first.values, first.patterns
    ensures CapturesPrefix(old(first.forms), limit, Sent(chunks, false), first.w.inner, first.w.truncated)
    ensures CapturesPrefix(old(first.forms), limit, Sent(chunks, true), second.w.inner, second.w.truncated)
    ensures AllZero(old(Held(first, second)) + old(first.values))
    ensures forall x: array<byte> :: fresh(x) ==> Zero(x)
  {
    hide CapturesPrefix, PipeRun, Paired, Zero, Sent, Held, InUse, RedactingWriter.Valid;
    Drive(first, second, chunks, limit);
    Close(first, second, limit, Sent(chunks, false), Sent(chunks, true));
  }

  /**
   A run's output: two redactors over the same secrets, each above a cap and an in-memory buffer.
   However the child's writes to the two streams are cut and interleaved, the caller reads the first
   limit bytes of either redacted stream, and at the end every byte array allocated on the way,
   patterns included, holds nothing but zeros.
   */
  method RunPipeline(named: seq<NamedSecret>, limit: int, chunks: seq<Chunk>)
    returns (stdout: bytes, stdoutCut: bool, stderr: bytes, stderrCut: bool)
    requires forall s, v :: s in named && v in s.forms ==> v != []
    ensures CapturesPrefix(Distinct(AllForms(named)), limit, Sent(chunks, false), stdout, stdoutCut)
    ensures CapturesPrefix(Distinct(AllForms(named)), limit, Sent(chunks, true), stderr, stderrCut)
    ensures CapturesRedaction(named, limit, Sent(chunks, false), stdout, stdoutCut)
    ensures CapturesRedaction(named, limit, Sent(chunks, true), stderr, stderrCut)
    ensures forall x: array<byte> :: fresh(x) ==> Zero(x)
  {
    hide CapturesPrefix, CapturesRedaction, AllForms, Distinct, PipeRun, Paired, Zero, Sent, RedactingWriter.Valid;
    var stdoutCap := new CappedWriter(limit);
    var stderrCap := new CappedWriter(limit);
    var first, second := NewPair(stdoutCap, stderrCap, true, named);
    PipeRunStarts(first.forms, limit);
    Session(first, second, chunks, limit);
    CapturesNamed(named, limit, Sent(chunks, false), stdoutCap.inner, stdoutCap.truncated);
    CapturesNamed(named, limit, Sent(chunks, true), stderrCap.inner, stderrCap.truncated);
    return stdoutCap.inner, stdoutCap.truncated, stderrCap.inner, stderrCap.truncated;
  }

  lemma PipeRunStarts(forms: seq<Form>, limit: int)
    ensures PipeRun(forms, true, limit, []) == Pipe(START, false, Cap([], limit, false))
  {
  }
}
