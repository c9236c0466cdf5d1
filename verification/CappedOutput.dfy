/** The writer that bounds captured output, and the redactor-to-cap pipeline on values. */
module CappedOutput {
  import opened ByteStrings
  import opened Redaction
  import opened ScratchArrays

  /** How the writer below answers one call: it takes everything, or fails after some bytes. */
  datatype Reply = Taken | Failed(accepted: nat)

  /** The state of a capped writer: what got through, how much room is left, whether bytes were dropped. */
  datatype Cap = Cap(captured: bytes, remaining: int, truncated: bool)

  datatype WriteResult = WriteResult(cap: Cap, n: nat, failed: bool)

  function Accepted(offered: nat, reply: Reply): nat {
    match reply
    case Taken => offered
    case Failed(k) => Min(k, offered)
  }

  function CapWrite(c: Cap, p: bytes, reply: Reply): WriteResult {
    if c.remaining <= 0 then
      WriteResult(c.(truncated := true), |p|, false)
    else
      var room := Min(c.remaining, |p|);
      var n := Accepted(room, reply);
      WriteResult(
        Cap(c.captured + p[..n], c.remaining - n, c.truncated || |p| > c.remaining),
        if |p| <= c.remaining || reply.Failed? then n else |p|,
        reply.Failed?)
  }

  /**
   One write, whatever the writer below answers: what it takes is the next bytes of p and nothing
   beyond the room left, captured and room add up to what they did, and the flag goes up exactly
   when p does not fit. With nothing failing all of p is reported as written.
   */
  lemma CapAnswer(c: Cap, p: bytes, reply: Reply)
    ensures var r := CapWrite(c, p, reply); var took := |r.cap.captured| - |c.captured|;
      && 0 <= took <= |p| && r.cap.captured == c.captured + p[..took]
      && (c.remaining >= 0 ==> 0 <= r.cap.remaining) && (c.remaining <= 0 ==> took == 0)
      && |r.cap.captured| + r.cap.remaining == |c.captured| + c.remaining
      && (r.cap.truncated <==> c.truncated || c.remaining < |p| || c.remaining <= 0)
      && (reply.Taken? ==> r.n == |p| && !r.failed && took == Min(Limit(c.remaining), |p|))
      && (r.failed <==> reply.Failed? && c.remaining > 0)
      && (r.failed ==> r.n == took == Min(reply.accepted, Min(c.remaining, |p|)))
      && (!r.failed ==> r.n == |p|)
  {
  }

  class CappedWriter {
    var inner: bytes
    var remaining: int
    var truncated: bool

    function State(): Cap
      reads this
    {
      Cap(inner, remaining, truncated)
    }

    constructor (limit: int)
      ensures State() == Cap([], limit, false)
      ensures forall x: array<byte> :: fresh(x) ==> Zero(x)
    {
      inner, remaining, truncated := [], limit, false;
    }

    /** The writer below: keeps what it accepts. */
    method InnerWrite(p: bytes, reply: Reply) returns (n: nat, failed: bool)
      modifies this`inner
      ensures n == Accepted(|p|, reply) && failed == reply.Failed?
      ensures inner == old(inner) + p[..n]
      ensures forall x: array<byte> :: fresh(x) ==> Zero(x)
    {
      n, failed := Accepted(|p|, reply), reply.Failed?;
      inner := inner + p[..n];
    }

    method Write(p: bytes, reply: Reply) returns (n: nat, failed: bool)
      modifies this
      ensures WriteResult(State(), n, failed) == CapWrite(old(State()), p, reply)
      ensures reply.Taken? ==> n == |p| && !failed
      ensures failed <==> reply.Failed? && old(remaining) > 0
      ensures |inner| + remaining == old(|inner| + remaining) && old(inner) <= inner
      ensures forall x: array<byte> :: fresh(x) ==> Zero(x)
    {
      if remaining <= 0 {
        truncated := true;
        return |p|, false;
      }
      if |p| <= remaining {
        n, failed := InnerWrite(p, reply);
        remaining := remaining - n;
        return;
      }
      var take := p[..remaining];
      n, failed := InnerWrite(take, reply);
      assert take[..n] == p[..n];
      remaining := remaining - n;
      truncated := true;
      if failed {
        return;
      }
      return |p|, false;
    }
  }

  // ---------------------------------------------------------------------------------------------
  // Over a reliable inner writer (an in-memory buffer) the cap keeps exactly a prefix
  // ---------------------------------------------------------------------------------------------

  function Limit(limit: int): nat {
    if limit < 0 then 0 else limit
  }

  /** The state a cap with this limit is in once the bytes of total were written to it. */
  function CapAfter(limit: int, total: bytes): Cap {
    var kept := Min(Limit(limit), |total|);
    Cap(total[..kept], limit - kept, |total| > Limit(limit))
  }

  lemma CapStep(limit: int, total: bytes, p: bytes)
    requires p != []
    ensures CapWrite(CapAfter(limit, total), p, Taken).cap == CapAfter(limit, total + p)
  {
    var kept := Min(Limit(limit), |total|);
    var room := Min(Limit(limit) - kept, |p|);
    assert (total + p)[..Min(Limit(limit), |total + p|)] == total[..kept] + p[..room];
  }

  /** A truncated cap over a reliable writer never changes again. */
  lemma TruncatedStays(limit: int, total: bytes, p: bytes, more: bytes)
    requires |total| > Limit(limit) && total <= more
    ensures CapWrite(CapAfter(limit, total), p, Taken).cap == CapAfter(limit, more)
  {
  }

  // ---------------------------------------------------------------------------------------------
  // The pipeline: redactor above, cap below
  // ---------------------------------------------------------------------------------------------

  /**
   The redactor above a cap. wired says the redactor asks the cap whether it has begun dropping;
   pass says it has stopped redacting because the answer was yes.
   */
  datatype Pipe = Pipe(stream: Stream, pass: bool, cap: Cap) {
    ghost predicate Valid() {
      stream.base <= |stream.input|
    }
  }

  function CapPut(c: Cap, p: bytes, reply: Reply): Cap {
    if p == [] then c else CapWrite(c, p, reply).cap
  }

  predicate PutFails(c: Cap, p: bytes, reply: Reply) {
    p != [] && CapWrite(c, p, reply).failed
  }

  /** The bytes one Write adds to the redacted stream. */
  function Emitted(forms: seq<Form>, st: Stream, p: bytes): bytes
    requires st.base <= |st.input|
  {
    Render(Feed(forms, st, p).trace[|st.trace|..])
  }

  /** A redactor gives up its holdover: those bytes lie past the cap too. */
  function Abandon(st: Stream): Stream {
    Stream(st.input, |st.input|, st.trace)
  }

  function PipeWrite(forms: seq<Form>, wired: bool, pipe: Pipe, p: bytes, reply: Reply): (r: Pipe)
    requires pipe.Valid()
    ensures r.Valid()
  {
    if p == [] then pipe
    else if forms == [] then
      Pipe(Feed(forms, pipe.stream, p), pipe.pass, CapWrite(pipe.cap, p, reply).cap)
    else if pipe.pass || (wired && pipe.cap.truncated) then
      Pipe(Abandon(pipe.stream), true, CapWrite(pipe.cap, p, reply).cap)
    else
      Pipe(Feed(forms, pipe.stream, p), false, CapPut(pipe.cap, Emitted(forms, pipe.stream, p), reply))
  }

  /** What a Write answers its caller: once redacting, all of p was taken, whatever went wrong below. */
  function PipeAnswer(forms: seq<Form>, wired: bool, pipe: Pipe, p: bytes, reply: Reply): (nat, bool)
    requires pipe.Valid()
  {
    if p == [] then (0, false)
    else if forms == [] || pipe.pass || (wired && pipe.cap.truncated) then
      var r := CapWrite(pipe.cap, p, reply);
      (r.n, r.failed)
    else (|p|, PutFails(pipe.cap, Emitted(forms, pipe.stream, p), reply))
  }

  /**
   Redacting stops with the first write that finds the cap dropping bytes, if the redactor asks,
   and not before; it does not start again, and what was held over is given up with it.
   */
  lemma StopsRedactingExactly(forms: seq<Form>, wired: bool, pipe: Pipe, p: bytes, reply: Reply)
    requires pipe.Valid() && p != [] && forms != []
    ensures var r := PipeWrite(forms, wired, pipe, p, reply);
      && (r.pass <==> pipe.pass || (wired && pipe.cap.truncated))
      && (r.pass ==> r.stream == Stream(pipe.stream.input, |pipe.stream.input|, pipe.stream.trace))
      && (r.pass ==> r.cap == CapWrite(pipe.cap, p, reply).cap)
  {
  }

  lemma PutFailsExactly(c: Cap, p: bytes, reply: Reply)
    ensures PutFails(c, p, reply) <==> p != [] && reply.Failed? && c.remaining > 0
  {
  }

  /** Without a failure below every Write is answered in full, whichever way it went. */
  lemma TakenInFull(forms: seq<Form>, wired: bool, pipe: Pipe, p: bytes)
    requires pipe.Valid()
    ensures PipeAnswer(forms, wired, pipe, p, Taken) == (|p|, false)
  {
  }

  /**
   While redacting, a failure below is reported exactly if bytes were handed down and the cap had
   room, and all of p counts as taken: the redactor holds what is not yet settled.
   */
  lemma FailureReported(forms: seq<Form>, wired: bool, pipe: Pipe, p: bytes, accepted: nat)
    requires pipe.Valid() && p != [] && forms != [] && !pipe.pass && !(wired && pipe.cap.truncated)
    ensures var text := Emitted(forms, pipe.stream, p);
      PipeAnswer(forms, wired, pipe, p, Failed(accepted)) == (|p|, text != [] && pipe.cap.remaining > 0)
    ensures PipeWrite(forms, wired, pipe, p, Failed(accepted)).stream == Feed(forms, pipe.stream, p)
  {
  }

  function PipeFlush(forms: seq<Form>, pipe: Pipe, reply: Reply): (r: Pipe)
    requires pipe.Valid()
    ensures r.Valid()
  {
    var st := pipe.stream;
    var out := Scan(forms, st.input, true, st.base, st.base).out;
    Pipe(Stream(st.input, |st.input|, st.trace + out), pipe.pass, CapPut(pipe.cap, Render(out), reply))
  }

  /** One Write per chunk into a fresh pipeline over a reliable buffer. */
  function PipeRun(forms: seq<Form>, wired: bool, limit: int, chunks: seq<bytes>): (r: Pipe)
    ensures r.Valid()
  {
    if chunks == [] then Pipe(START, false, Cap([], limit, false))
    else
      var n := |chunks| - 1;
      PipeWrite(forms, wired, PipeRun(forms, wired, limit, chunks[..n]), chunks[n], Taken)
  }

  /** What the caller reads once the pipeline was flushed. */
  function Captured(forms: seq<Form>, wired: bool, limit: int, chunks: seq<bytes>): Cap {
    PipeFlush(forms, PipeRun(forms, wired, limit, chunks), Taken).cap
  }

  lemma PutStep(limit: int, total: bytes, p: bytes)
    ensures CapPut(CapAfter(limit, total), p, Taken) == CapAfter(limit, total + p)
  {
    if p == [] {
      assert total + p == total;
    } else {
      CapStep(limit, total, p);
    }
  }

  /** With no forms registered every byte is handed on as it came. */
  lemma {:induction false} NoFormsScan(s: bytes, finalize: bool, i: nat)
    requires i <= |s|
    ensures var r := Scan([], s, finalize, i, i); r.stop == |s| && Render(r.out) == s[i..]
    decreases |s| - i
  {
    if i == |s| {
      assert Render([]) == [];
    } else {
      var rest := Scan([], s, finalize, i + 1, i + 1);
      NoFormsScan(s, finalize, i + 1);
      SameCover(s, finalize, i + 1, i, i + 1);
      RenderAppend([Raw(i, s[i])], rest.out);
      RenderOne(Raw(i, s[i]));
      assert s[i..] == [s[i]] + s[i + 1..];
    }
  }

  lemma {:induction false} SameCover(s: bytes, finalize: bool, i: nat, e: nat, e': nat)
    requires i <= |s| && e <= i && e' <= i
    ensures Scan([], s, finalize, i, e) == Scan([], s, finalize, i, e')
    decreases |s| - i
  {
    if i < |s| {
      SameCover(s, finalize, i + 1, e, e');
    }
  }

  lemma {:induction false} NoFormsRun(chunks: seq<bytes>)
    ensures var st := Run([], chunks); st.base == |st.input| && Render(st.trace) == st.input
  {
    if chunks == [] {
      assert Render([]) == [];
    } else {
      var n := |chunks| - 1;
      var before := Run([], chunks[..n]);
      NoFormsRun(chunks[..n]);
      if chunks[n] != [] {
        var s := before.input + chunks[n];
        var r := Scan([], s, false, before.base, before.base);
        NoFormsScan(s, false, before.base);
        RenderAppend(before.trace, r.out);
      }
    }
  }

  lemma FeedExtends(forms: seq<Form>, st: Stream, p: bytes)
    requires st.base <= |st.input|
    ensures st.trace <= Feed(forms, st, p).trace
    ensures Render(Feed(forms, st, p).trace) == Render(st.trace) + Emitted(forms, st, p)
  {
    var trace := Feed(forms, st, p).trace;
    assert trace == st.trace + trace[|st.trace|..];
    RenderAppend(st.trace, trace[|st.trace|..]);
  }

  /** The pipeline mirrors the cap of the full redacted stream, passing through or not. */
  ghost predicate Mirrors(forms: seq<Form>, limit: int, pipe: Pipe, st: Stream) {
    && pipe.cap == CapAfter(limit, Render(st.trace))
    && (if pipe.pass then pipe.stream.base == |pipe.stream.input| && pipe.cap.truncated else pipe.stream == st)
  }

  lemma {:induction false} PipeMirrors(forms: seq<Form>, wired: bool, limit: int, chunks: seq<bytes>)
    ensures Mirrors(forms, limit, PipeRun(forms, wired, limit, chunks), Run(forms, chunks))
  {
    if chunks == [] {
      assert Render([]) == [];
    } else {
      var n := |chunks| - 1;
      var pipe, st, p := PipeRun(forms, wired, limit, chunks[..n]), Run(forms, chunks[..n]), chunks[n];
      PipeMirrors(forms, wired, limit, chunks[..n]);
      PipeWriteMirrors(forms, wired, limit, chunks, pipe, st, p);
    }
  }

  lemma PipeWriteMirrors(
      forms: seq<Form>, wired: bool, limit: int, chunks: seq<bytes>, pipe: Pipe, st: Stream, p: bytes)
    requires pipe.Valid() && Mirrors(forms, limit, pipe, st)
    requires chunks != [] && st == Run(forms, chunks[..|chunks| - 1]) && p == chunks[|chunks| - 1]
    ensures Mirrors(forms, limit, PipeWrite(forms, wired, pipe, p, Taken), Feed(forms, st, p))
  {
    var total, st' := Render(st.trace), Feed(forms, st, p);
    FeedExtends(forms, st, p);
    if p == [] {
    } else if forms == [] && !pipe.pass {
      NoFormsRun(chunks[..|chunks| - 1]);
      NoFormsRun(chunks);
      assert Render(st'.trace) == total + p;
      CapStep(limit, total, p);
    } else if pipe.pass || (wired && pipe.cap.truncated) {
      TruncatedStays(limit, total, p, Render(st'.trace));
      if forms == [] {
        NoFormsScan(pipe.stream.input + p, false, pipe.stream.base);
      }
    } else {
      PutStep(limit, total, Emitted(forms, st, p));
    }
  }

  /**
   The short-circuit is unobservable, and what is captured is exactly the first limit bytes of the
   full redacted stream, with the flag up exactly when more was produced.
   */
  lemma CapturedIsPrefixOfRedacted(forms: seq<Form>, wired: bool, limit: int, chunks: seq<bytes>)
    ensures var full := Render(Redact(forms, chunks)); var c := Captured(forms, wired, limit, chunks);
      && c.captured == full[..Min(Limit(limit), |full|)]
      && (c.truncated <==> |full| > Limit(limit))
  {
    var pipe, st := PipeRun(forms, wired, limit, chunks), Run(forms, chunks);
    var total, out := Render(st.trace), Scan(forms, st.input, true, st.base, st.base).out;
    PipeMirrors(forms, wired, limit, chunks);
    RenderAppend(st.trace, out);
    if pipe.pass {
      assert Scan(forms, pipe.stream.input, true, pipe.stream.base, pipe.stream.base).out == [];
      assert Render([]) == [];
    } else {
      PutStep(limit, total, Render(out));
    }
  }
}
