/**
 The redactor on values: one scan of a buffer, the stream cut into chunks, and what both promise.

 Positions are positions in the whole input, so "emitted verbatim" speaks about input bytes and
 never about bytes that happen to occur in a token's text.
 */
module Redaction {
  import opened ByteStrings

  /** One registered byte sequence and the name its occurrences are replaced by. */
  datatype Form = Form(name: bytes, value: bytes)

  /** One item of output: an input byte passed through, or a token for a form found at pos. */
  datatype Atom = Raw(pos: nat, b: byte) | Token(pos: nat, form: Form)

  predicate SameValue(f: Form, g: Form) {
    f.value == g.value
  }

  /** The forms a writer holds: none empty, no value twice (redact.go's de-duplication). */
  ghost predicate Registered(forms: seq<Form>) {
    && (forall f {:trigger f in forms} :: f in forms ==> f.value != [])
    && (forall f, g {:trigger SameValue(f, g)} :: f in forms && g in forms && SameValue(f, g) ==> f == g)
  }

  predicate Starts(f: Form, t: bytes) {
    f.value <= t
  }

  /** f occurs in s at position i. */
  predicate Occurs(f: Form, s: bytes, i: nat) {
    i <= |s| && Starts(f, s[i..])
  }

  /** The tail t could still grow into f. */
  predicate CouldBecome(f: Form, t: bytes) {
    t < f.value
  }

  predicate Partial(forms: seq<Form>, t: bytes) {
    exists f :: f in forms && CouldBecome(f, t)
  }

  /** The longest form t starts with; the earliest registered one on a tie. */
  function Best(forms: seq<Form>, t: bytes): (r: Option<Form>)
    ensures r.Some? ==> r.value in forms && Starts(r.value, t)
    ensures r.Some? ==> forall g {:trigger Starts(g, t)} :: g in forms && Starts(g, t) ==> |g.value| <= |r.value.value|
    ensures r.None? ==> forall g {:trigger Starts(g, t)} :: g in forms ==> !Starts(g, t)
  {
    if forms == [] then None
    else
      var prev := Best(forms[..|forms| - 1], t);
      var f := forms[|forms| - 1];
      if Starts(f, t) && (prev.None? || |f.value| > |prev.value.value|) then Some(f) else prev
  }

  /** What one scan emits, and where the bytes it holds over begin. */
  datatype ScanResult = ScanResult(out: seq<Atom>, stop: nat) {
    function After(a: Atom): ScanResult {
      ScanResult([a] + out, stop)
    }
  }

  /** The scan of s from cursor i, with everything before e already covered by a token. */
  function Scan(forms: seq<Form>, s: bytes, finalize: bool, i: nat, e: nat): (r: ScanResult)
    requires i <= |s|
    ensures i <= r.stop <= |s|
    decreases |s| - i
  {
    if i == |s| then ScanResult([], i)
    else
      match Best(forms, s[i..])
      case Some(f) => Scan(forms, s, finalize, i + 1, Max(e, i + |f.value|)).After(Token(i, f))
      case None =>
        if i < e then Scan(forms, s, finalize, i + 1, e)
        else if !finalize && Partial(forms, s[i..]) then ScanResult([], i)
        else Scan(forms, s, finalize, i + 1, e).After(Raw(i, s[i]))
  }

  /** The scan holds over at i: nothing is emitted and i is not covered. */
  predicate HoldsAt(forms: seq<Form>, s: bytes, finalize: bool, i: nat, e: nat)
    requires i < |s|
  {
    Best(forms, s[i..]).None? && e <= i && !finalize && Partial(forms, s[i..])
  }

  /** Where coverage ends after position i. */
  function NextCover(forms: seq<Form>, s: bytes, i: nat, e: nat): nat
    requires i < |s|
  {
    match Best(forms, s[i..])
    case Some(f) => Max(e, i + |f.value|)
    case None => e
  }

  lemma ScanUnfolds(forms: seq<Form>, s: bytes, finalize: bool, i: nat, e: nat)
    requires i < |s| && !HoldsAt(forms, s, finalize, i, e)
    ensures var rest := Scan(forms, s, finalize, i + 1, NextCover(forms, s, i, e));
      Scan(forms, s, finalize, i, e) ==
      match Best(forms, s[i..])
      case Some(f) => rest.After(Token(i, f))
      case None => if i < e then rest else rest.After(Raw(i, s[i]))
  {
  }

  // ---------------------------------------------------------------------------------------------
  // The stream: input consumed so far, where the holdover begins, what was emitted.
  // ---------------------------------------------------------------------------------------------

  datatype Stream = Stream(input: bytes, base: nat, trace: seq<Atom>)

  const START := Stream([], 0, [])

  /** One Write. An empty one is ignored. */
  function Feed(forms: seq<Form>, st: Stream, p: bytes): (r: Stream)
    requires st.base <= |st.input|
    ensures r.base <= |r.input| && r.input == st.input + p
  {
    if p == [] then st
    else
      var s := st.input + p;
      var r := Scan(forms, s, false, st.base, st.base);
      Stream(s, r.stop, st.trace + r.out)
  }

  /** The trace after Flush. */
  function Finish(forms: seq<Form>, st: Stream): seq<Atom>
    requires st.base <= |st.input|
  {
    st.trace + Scan(forms, st.input, true, st.base, st.base).out
  }

  /** The stream after one Write per chunk. */
  function Run(forms: seq<Form>, chunks: seq<bytes>): (r: Stream)
    ensures r.base <= |r.input|
    ensures r.input == Concat(chunks)
  {
    if chunks == [] then START
    else Feed(forms, Run(forms, chunks[..|chunks| - 1]), chunks[|chunks| - 1])
  }

  /** Everything emitted when the chunks are written and the writer is flushed. */
  function Redact(forms: seq<Form>, chunks: seq<bytes>): seq<Atom> {
    Finish(forms, Run(forms, chunks))
  }

  /** Everything emitted when the whole input is one finalizing scan. */
  function Whole(forms: seq<Form>, s: bytes): seq<Atom> {
    Scan(forms, s, true, 0, 0).out
  }

  const OPEN: bytes := [91, 82, 69, 68, 65, 67, 84, 69, 68, 58]  // "[REDACTED:"
  const CLOSE: bytes := [93]                                     // "]"

  function AtomText(a: Atom): bytes {
    match a
    case Raw(_, b) => [b]
    case Token(_, f) => OPEN + f.name + CLOSE
  }

  function Texts(trace: seq<Atom>): seq<bytes> {
    seq(|trace|, k requires 0 <= k < |trace| => AtomText(trace[k]))
  }

  /** The bytes handed downstream for a trace. */
  function Render(trace: seq<Atom>): bytes {
    Concat(Texts(trace))
  }

  lemma RenderAppend(a: seq<Atom>, b: seq<Atom>)
    ensures Render(a + b) == Render(a) + Render(b)
  {
    assert Texts(a + b) == Texts(a) + Texts(b);
    ConcatAppend(Texts(a), Texts(b));
  }

  lemma RenderOne(a: Atom)
    ensures Render([a]) == AtomText(a)
  {
    assert Texts([a]) == [AtomText(a)];
    ConcatOne(AtomText(a));
  }

  // ---------------------------------------------------------------------------------------------
  // What every scan guarantees, whatever the forms
  // ---------------------------------------------------------------------------------------------

  /** Some form that occurs before i reaches past it. */
  ghost predicate Covered(forms: seq<Form>, s: bytes, i: nat) {
    exists f, j :: f in forms && 0 <= j < i < j + |f.value| && Occurs(f, s, j)
  }

  ghost predicate HasAtom(trace: seq<Atom>, i: nat) {
    exists a :: a in trace && a.pos == i
  }

  ghost predicate HasRaw(trace: seq<Atom>, i: nat) {
    exists a :: a in trace && a.pos == i && a.Raw?
  }

  /** The trace speaks of positions lo..hi only, in strictly increasing order. */
  ghost predicate InOrder(trace: seq<Atom>, lo: nat, hi: nat) {
    && (forall k :: 0 <= k < |trace| ==> lo <= trace[k].pos < hi)
    && (forall k, l :: 0 <= k < l < |trace| ==> trace[k].pos < trace[l].pos)
  }

  /**
   A raw item carries the input's own byte, at a position where no form starts nor could still be
   starting; a token stands for a real occurrence.
   */
  ghost predicate AtomTrue(forms: seq<Form>, s: bytes, finalize: bool, a: Atom) {
    match a
    case Raw(i, b) =>
      && i < |s| && s[i] == b
      && (forall f :: f in forms ==> !Starts(f, s[i..]))
      && (finalize || !Partial(forms, s[i..]))
    case Token(i, f) => f in forms && Occurs(f, s, i)
  }

  ghost predicate Truthful(forms: seq<Form>, s: bytes, trace: seq<Atom>, finalize: bool) {
    forall a :: a in trace ==> AtomTrue(forms, s, finalize, a)
  }

  /** Positions lo..hi that leave no trace lie inside an occurrence, or before e. */
  ghost predicate Accounted(forms: seq<Form>, s: bytes, trace: seq<Atom>, lo: nat, hi: nat, e: nat) {
    forall i :: lo <= i < hi && !HasAtom(trace, i) ==> i < e || Covered(forms, s, i)
  }

  lemma HasAtomAfter(a: Atom, rest: seq<Atom>, i: nat)
    ensures HasAtom([a] + rest, i) <==> a.pos == i || HasAtom(rest, i)
  {
    if a.pos == i {
      assert a in [a] + rest;
    }
    if HasAtom(rest, i) {
      var b :| b in rest && b.pos == i;
      assert b in [a] + rest;
    }
  }

  lemma InOrderAfter(a: Atom, rest: seq<Atom>, hi: nat)
    requires InOrder(rest, a.pos + 1, hi) && a.pos < hi
    ensures InOrder([a] + rest, a.pos, hi)
  {
  }

  lemma {:induction false} ScanInOrder(forms: seq<Form>, s: bytes, finalize: bool, i: nat, e: nat)
    requires i <= |s|
    ensures InOrder(Scan(forms, s, finalize, i, e).out, i, Scan(forms, s, finalize, i, e).stop)
    decreases |s| - i
  {
    if i < |s| && !HoldsAt(forms, s, finalize, i, e) {
      var e' := NextCover(forms, s, i, e);
      var rest := Scan(forms, s, finalize, i + 1, e');
      ScanInOrder(forms, s, finalize, i + 1, e');
      ScanUnfolds(forms, s, finalize, i, e);
      InOrderAfter(Raw(i, s[i]), rest.out, rest.stop);
      if Best(forms, s[i..]).Some? {
        InOrderAfter(Token(i, Best(forms, s[i..]).value), rest.out, rest.stop);
      }
    }
  }

  /** Nothing before e is emitted verbatim. */
  lemma {:induction false} ScanSuppresses(forms: seq<Form>, s: bytes, finalize: bool, i: nat, e: nat)
    requires i <= |s|
    ensures forall a :: a in Scan(forms, s, finalize, i, e).out && a.Raw? ==> e <= a.pos
    decreases |s| - i
  {
    if i < |s| && !HoldsAt(forms, s, finalize, i, e) {
      ScanSuppresses(forms, s, finalize, i + 1, NextCover(forms, s, i, e));
      ScanUnfolds(forms, s, finalize, i, e);
    }
  }

  lemma {:induction false} ScanTruthful(forms: seq<Form>, s: bytes, finalize: bool, i: nat, e: nat)
    requires i <= |s|
    ensures Truthful(forms, s, Scan(forms, s, finalize, i, e).out, finalize)
    decreases |s| - i
  {
    if i < |s| {
      match Best(forms, s[i..])
      case Some(f) => ScanTruthful(forms, s, finalize, i + 1, Max(e, i + |f.value|));
      case None =>
        if i < e || finalize || !Partial(forms, s[i..]) {
          ScanTruthful(forms, s, finalize, i + 1, e);
        }
    }
  }

  lemma {:induction false} ScanAccounts(forms: seq<Form>, s: bytes, finalize: bool, i: nat, e: nat)
    requires i <= |s|
    ensures var r := Scan(forms, s, finalize, i, e); Accounted(forms, s, r.out, i, r.stop, e)
    decreases |s| - i
  {
    if i < |s| {
      var r := Scan(forms, s, finalize, i, e);
      match Best(forms, s[i..])
      case Some(f) =>
        var e' := Max(e, i + |f.value|);
        var rest := Scan(forms, s, finalize, i + 1, e');
        ScanAccounts(forms, s, finalize, i + 1, e');
        forall p | i <= p < r.stop && !HasAtom(r.out, p) ensures p < e || Covered(forms, s, p) {
          HasAtomAfter(Token(i, f), rest.out, p);
          assert Occurs(f, s, i);
        }
      case None =>
        if i < e {
          ScanAccounts(forms, s, finalize, i + 1, e);
        } else if finalize || !Partial(forms, s[i..]) {
          var rest := Scan(forms, s, finalize, i + 1, e);
          ScanAccounts(forms, s, finalize, i + 1, e);
          forall p | i <= p < r.stop && !HasAtom(r.out, p) ensures p < e || Covered(forms, s, p) {
            HasAtomAfter(Raw(i, s[i]), rest.out, p);
          }
        }
    }
  }

  /** A scan never stops short of a token's reach. */
  lemma {:induction false} ScanReach(forms: seq<Form>, s: bytes, finalize: bool, i: nat, e: nat)
    requires i <= |s| && e <= |s|
    ensures e <= Scan(forms, s, finalize, i, e).stop
    decreases |s| - i
  {
    if i < |s| {
      match Best(forms, s[i..])
      case Some(f) => ScanReach(forms, s, finalize, i + 1, Max(e, i + |f.value|));
      case None =>
        if i < e || finalize || !Partial(forms, s[i..]) {
          ScanReach(forms, s, finalize, i + 1, e);
        }
    }
  }

  /**
   One scan never cuts an occurrence inside its buffer: all its bytes are withheld, or the whole of
   it is held over.
   */
  lemma {:induction false} ScanKeepsWhole(
      forms: seq<Form>, s: bytes, finalize: bool, i: nat, e: nat, f: Form, j: nat)
    requires i <= j && e <= |s| && f in forms && Occurs(f, s, j) && f.value != []
    ensures var r := Scan(forms, s, finalize, i, e);
      || r.stop <= j
      || (&& j + |f.value| <= r.stop
          && forall a :: a in r.out && a.Raw? ==> a.pos < j || j + |f.value| <= a.pos)
    decreases |s| - i
  {
    if !HoldsAt(forms, s, finalize, i, e) {
      var e' := NextCover(forms, s, i, e);
      ScanUnfolds(forms, s, finalize, i, e);
      if i == j {
        ScanReach(forms, s, finalize, i + 1, e');
        ScanSuppresses(forms, s, finalize, i + 1, e');
      } else {
        ScanKeepsWhole(forms, s, finalize, i + 1, e', f, j);
      }
    }
  }

  // ---------------------------------------------------------------------------------------------
  // Lifting to streams
  // ---------------------------------------------------------------------------------------------

  /** What holds of the emitted trace once the input s up to base has been dealt with. */
  ghost predicate Sound(forms: seq<Form>, s: bytes, base: nat, trace: seq<Atom>, finalize: bool) {
    && InOrder(trace, 0, base)
    && Truthful(forms, s, trace, finalize)
    && Accounted(forms, s, trace, 0, base, 0)
  }

  lemma OccursLater(f: Form, s: bytes, p: bytes, i: nat)
    requires Occurs(f, s, i)
    ensures Occurs(f, s + p, i)
  {
    assert (s + p)[i..] == s[i..] + p;
  }

  /** More input changes nothing about what was already emitted. */
  lemma SoundLater(forms: seq<Form>, s: bytes, p: bytes, base: nat, trace: seq<Atom>)
    requires base <= |s| && Sound(forms, s, base, trace, false)
    ensures Sound(forms, s + p, base, trace, false)
  {
    forall a | a in trace ensures AtomTrue(forms, s + p, false, a) {
      var i := a.pos;
      assert AtomTrue(forms, s, false, a);
      assert (s + p)[i..] == s[i..] + p;
      if a.Raw? {
        forall f | f in forms ensures !Starts(f, (s + p)[i..]) && !CouldBecome(f, (s + p)[i..]) {
          assert !Starts(f, s[i..]) && !CouldBecome(f, s[i..]);
        }
      }
    }
    forall i | 0 <= i < base && !HasAtom(trace, i) ensures Covered(forms, s + p, i) {
      var f, j :| f in forms && 0 <= j < i < j + |f.value| && Occurs(f, s, j);
      OccursLater(f, s, p, j);
    }
  }

  lemma HasAtomSum(a: seq<Atom>, b: seq<Atom>, i: nat)
    ensures HasAtom(a + b, i) <==> HasAtom(a, i) || HasAtom(b, i)
  {
    assert forall x :: x in a + b <==> x in a || x in b;
  }

  lemma SoundStep(forms: seq<Form>, s: bytes, base: nat, trace: seq<Atom>, finalize: bool)
    requires base <= |s| && Sound(forms, s, base, trace, false)
    ensures var r := Scan(forms, s, finalize, base, base); Sound(forms, s, r.stop, trace + r.out, finalize)
  {
    var r := Scan(forms, s, finalize, base, base);
    ScanInOrder(forms, s, finalize, base, base);
    ScanTruthful(forms, s, finalize, base, base);
    ScanAccounts(forms, s, finalize, base, base);
    forall i | 0 <= i < r.stop && !HasAtom(trace + r.out, i) ensures Covered(forms, s, i) {
      HasAtomSum(trace, r.out, i);
    }
  }

  lemma {:induction false} RunSound(forms: seq<Form>, chunks: seq<bytes>)
    ensures var st := Run(forms, chunks); Sound(forms, st.input, st.base, st.trace, false)
  {
    if chunks != [] {
      var before := Run(forms, chunks[..|chunks| - 1]);
      var p := chunks[|chunks| - 1];
      RunSound(forms, chunks[..|chunks| - 1]);
      if p != [] {
        SoundLater(forms, before.input, p, before.base, before.trace);
        SoundStep(forms, before.input + p, before.base, before.trace, false);
      }
    }
  }

  lemma {:induction false} FinalStop(forms: seq<Form>, s: bytes, i: nat, e: nat)
    requires i <= |s|
    ensures Scan(forms, s, true, i, e).stop == |s|
    decreases |s| - i
  {
    if i < |s| {
      match Best(forms, s[i..])
      case Some(f) => FinalStop(forms, s, i + 1, Max(e, i + |f.value|));
      case None => FinalStop(forms, s, i + 1, e);
    }
  }

  /** A scan stops early only at a tail that could still become a form. */
  lemma {:induction false} ScanStopsAtPartial(forms: seq<Form>, s: bytes, finalize: bool, i: nat, e: nat)
    requires i <= |s|
    ensures var stop := Scan(forms, s, finalize, i, e).stop;
      stop < |s| ==> Best(forms, s[stop..]).None? && Partial(forms, s[stop..])
    decreases |s| - i
  {
    if i < |s| && !HoldsAt(forms, s, finalize, i, e) {
      ScanUnfolds(forms, s, finalize, i, e);
      ScanStopsAtPartial(forms, s, finalize, i + 1, NextCover(forms, s, i, e));
    }
  }

  /**
   Between writes the held-over bytes are the end of the input, a proper prefix of some form and
   so shorter than the longest one; no form matches at their start.
   */
  lemma {:induction false} HoldoverIsPartial(forms: seq<Form>, chunks: seq<bytes>)
    ensures var st := Run(forms, chunks); var held := st.input[st.base..];
      st.input == Concat(chunks) &&
      (held != [] ==> Best(forms, held).None? && exists f :: f in forms && held < f.value && |held| < |f.value|)
  {
    if chunks != [] {
      var n := |chunks| - 1;
      HoldoverIsPartial(forms, chunks[..n]);
      if chunks[n] != [] {
        var before := Run(forms, chunks[..n]);
        var s := before.input + chunks[n];
        ScanStopsAtPartial(forms, s, false, before.base, before.base);
        var stop := Scan(forms, s, false, before.base, before.base).stop;
        if stop < |s| {
          var f :| f in forms && CouldBecome(f, s[stop..]);
          assert f in forms && s[stop..] < f.value && |s[stop..]| < |f.value|;
        }
      }
    }
  }

  lemma RedactSound(forms: seq<Form>, chunks: seq<bytes>)
    ensures Sound(forms, Concat(chunks), |Concat(chunks)|, Redact(forms, chunks), true)
  {
    var st := Run(forms, chunks);
    RunSound(forms, chunks);
    SoundStep(forms, st.input, st.base, st.trace, true);
    FinalStop(forms, st.input, st.base, st.base);
  }

  // ---------------------------------------------------------------------------------------------
  // Main results for every set of forms and every cutting of the input
  // ---------------------------------------------------------------------------------------------

  /** The first byte of every occurrence is never emitted verbatim. */
  lemma FirstByteWithheld(forms: seq<Form>, chunks: seq<bytes>, f: Form, i: nat)
    requires f in forms && Occurs(f, Concat(chunks), i)
    ensures !HasRaw(Redact(forms, chunks), i)
  {
    RedactSound(forms, chunks);
  }

  /** The occurrence of f at j is still to come whole, or has passed with all of its bytes withheld. */
  ghost predicate KeptWhole(f: Form, j: nat, input: bytes, base: nat, trace: seq<Atom>) {
    || (base <= j && Occurs(f, input, j))
    || (j + |f.value| <= base && forall p :: j <= p < j + |f.value| ==> !HasRaw(trace, p))
  }

  lemma KeptWholeStep(forms: seq<Form>, s: bytes, finalize: bool, base: nat, trace: seq<Atom>, f: Form, j: nat)
    requires base <= |s| && f in forms && f.value != [] && InOrder(trace, 0, base) && KeptWhole(f, j, s, base, trace)
    ensures var r := Scan(forms, s, finalize, base, base); KeptWhole(f, j, s, r.stop, trace + r.out)
  {
    hide Scan;
    var r := Scan(forms, s, finalize, base, base);
    ScanInOrder(forms, s, finalize, base, base);
    assert forall a :: a in trace ==> a.pos < base;
    assert forall a :: a in r.out ==> base <= a.pos;
    if base <= j {
      ScanKeepsWhole(forms, s, finalize, base, base, f, j);
    }
    forall p | j <= p < j + |f.value| ensures r.stop <= j || !HasRaw(trace + r.out, p) {
      HasRawSum(trace, r.out, p);
    }
  }

  lemma HasRawSum(a: seq<Atom>, b: seq<Atom>, i: nat)
    ensures HasRaw(a + b, i) <==> HasRaw(a, i) || HasRaw(b, i)
  {
    assert forall x :: x in a + b <==> x in a || x in b;
  }

  lemma KeptWholeStart(f: Form, j: nat, s: bytes, base: nat, trace: seq<Atom>)
    requires base <= j && Occurs(f, s, j)
    ensures KeptWhole(f, j, s, base, trace)
  {
  }

  lemma KeptWholeLater(f: Form, j: nat, s: bytes, p: bytes, base: nat, trace: seq<Atom>)
    requires KeptWhole(f, j, s, base, trace)
    ensures KeptWhole(f, j, s + p, base, trace)
  {
    if Occurs(f, s, j) {
      OccursLater(f, s, p, j);
    }
  }

  lemma {:induction false} RunKeepsWhole(forms: seq<Form>, chunks: seq<bytes>, n: nat, f: Form, j: nat)
    requires n < |chunks| && f in forms && f.value != []
    requires Run(forms, chunks[..n]).base <= j && Occurs(f, Concat(chunks[..n + 1]), j)
    ensures var st := Run(forms, chunks); KeptWhole(f, j, st.input, st.base, st.trace)
  {
    hide Scan, KeptWhole;
    var m := |chunks| - 1;
    var before, p := Run(forms, chunks[..m]), chunks[m];
    RunSound(forms, chunks[..m]);
    if n == m {
      assert chunks[..n + 1] == chunks;
      KeptWholeStart(f, j, before.input + p, before.base, before.trace);
    } else {
      assert chunks[..m][..n] == chunks[..n] && chunks[..m][..n + 1] == chunks[..n + 1];
      RunKeepsWhole(forms, chunks[..m], n, f, j);
      KeptWholeLater(f, j, before.input, p, before.base, before.trace);
    }
    if p == [] {
      assert before.input + p == before.input;
    } else {
      KeptWholeStep(forms, before.input + p, false, before.base, before.trace, f, j);
    }
  }

  /**
   An occurrence lying inside one scanned buffer has every one of its bytes withheld: if the n-th
   write finds it wholly in front of it, held-over bytes included, no later write or flush emits any.
   */
  lemma ScannedOccurrenceWithheld(forms: seq<Form>, chunks: seq<bytes>, n: nat, f: Form, j: nat, p: nat)
    requires n < |chunks| && f in forms && j <= p < j + |f.value|
    requires Run(forms, chunks[..n]).base <= j && Occurs(f, Concat(chunks[..n + 1]), j)
    ensures !HasRaw(Redact(forms, chunks), p)
  {
    hide Scan;
    var st := Run(forms, chunks);
    RunKeepsWhole(forms, chunks, n, f, j);
    RunSound(forms, chunks);
    KeptWholeStep(forms, st.input, true, st.base, st.trace, f, j);
    FinalStop(forms, st.input, st.base, st.base);
  }

  lemma WithheldIsOccurrence(forms: seq<Form>, chunks: seq<bytes>, i: nat)
    requires i < |Concat(chunks)| && !HasRaw(Redact(forms, chunks), i)
    ensures Covered(forms, Concat(chunks), i) || exists f :: f in forms && Occurs(f, Concat(chunks), i)
  {
    var s, out := Concat(chunks), Redact(forms, chunks);
    RedactSound(forms, chunks);
    if HasAtom(out, i) {
      var a :| a in out && a.pos == i;
      assert AtomTrue(forms, s, true, a);
    }
  }

  /**
   Conservation. Emitted input bytes come out once, in order and unchanged; a byte that does not
   come out lies inside a real occurrence.
   */
  lemma Conservation(forms: seq<Form>, chunks: seq<bytes>)
    ensures var s, out := Concat(chunks), Redact(forms, chunks);
      && (forall k, l :: 0 <= k < l < |out| ==> out[k].pos < out[l].pos)
      && (forall k :: 0 <= k < |out| ==> out[k].pos < |s| && (out[k].Raw? ==> out[k].b == s[out[k].pos]))
      && (forall k :: 0 <= k < |out| && out[k].Token? ==> out[k].form in forms && Occurs(out[k].form, s, out[k].pos))
      && (forall i :: 0 <= i < |s| && !HasRaw(out, i) ==>
            Covered(forms, s, i) || exists f :: f in forms && Occurs(f, s, i))
  {
    RedactSound(forms, chunks);
    var s, out := Concat(chunks), Redact(forms, chunks);
    assert forall k :: 0 <= k < |out| ==> out[k] in out && AtomTrue(forms, s, true, out[k]);
    forall i | 0 <= i < |s| && !HasRaw(out, i)
      ensures Covered(forms, s, i) || exists f :: f in forms && Occurs(f, s, i)
    {
      WithheldIsOccurrence(forms, chunks, i);
    }
  }

  lemma NeedsRoom(trace: seq<Atom>, lo: nat, hi: nat)
    requires InOrder(trace, lo, hi)
    ensures trace != [] ==> lo < hi
  {
    if trace != [] {
      assert lo <= trace[0].pos < hi;
    }
  }

  lemma Increasing(trace: seq<Atom>, lo: nat, hi: nat, k: nat, l: nat)
    requires InOrder(trace, lo, hi) && k <= l < |trace|
    ensures trace[l].pos < hi && (k < l ==> trace[k].pos < trace[l].pos)
  {
  }

  /** An order-keeping trace that has something at each of n positions has exactly n items. */
  lemma {:induction false} FullTrace(trace: seq<Atom>, n: nat)
    requires InOrder(trace, 0, n)
    requires forall i :: 0 <= i < n ==> HasAtom(trace, i)
    ensures |trace| == n && forall k :: 0 <= k < n ==> trace[k].pos == k
  {
    if n == 0 {
      NeedsRoom(trace, 0, 0);
    } else {
      assert HasAtom(trace, n - 1);
      var last :| last in trace && last.pos == n - 1;
      var k :| 0 <= k < |trace| && trace[k] == last;
      Increasing(trace, 0, n, k, |trace| - 1);
      var front := trace[..k];
      forall i | 0 <= i < n - 1 ensures HasAtom(front, i) {
        assert HasAtom(trace, i);
        var a :| a in trace && a.pos == i;
        assert a in front;
      }
      assert InOrder(front, 0, n - 1);
      FullTrace(front, n - 1);
    }
  }

  lemma {:induction false} RenderRaw(trace: seq<Atom>, s: bytes)
    requires |trace| == |s|
    requires forall k :: 0 <= k < |s| ==> trace[k] == Raw(k, s[k])
    ensures Render(trace) == s
  {
    if s != [] {
      var n := |s| - 1;
      RenderRaw(trace[..n], s[..n]);
      RenderAppend(trace[..n], [trace[n]]);
      RenderOne(trace[n]);
      assert trace == trace[..n] + [trace[n]] && s == s[..n] + [s[n]];
    }
  }

  /** Input that contains no form comes out byte for byte, however it is cut. */
  lemma CleanInputReproduced(forms: seq<Form>, chunks: seq<bytes>)
    requires forall f, i :: f in forms && 0 <= i <= |Concat(chunks)| ==> !Occurs(f, Concat(chunks), i)
    ensures Render(Redact(forms, chunks)) == Concat(chunks)
  {
    var s, out := Concat(chunks), Redact(forms, chunks);
    RedactSound(forms, chunks);
    forall i | 0 <= i < |s| ensures HasAtom(out, i) {
      assert !Covered(forms, s, i);
    }
    FullTrace(out, |s|);
    forall k | 0 <= k < |s| ensures out[k] == Raw(k, s[k]) {
      assert out[k] in out && AtomTrue(forms, s, true, out[k]);
    }
    RenderRaw(out, s);
  }

  // ---------------------------------------------------------------------------------------------
  // The declarative redaction
  // ---------------------------------------------------------------------------------------------

  ghost predicate IsLongest(forms: seq<Form>, s: bytes, i: nat, f: Form) {
    && f in forms
    && Occurs(f, s, i)
    && forall g :: g in forms && Occurs(g, s, i) ==> |g.value| <= |f.value|
  }

  /** De-duplication leaves exactly one candidate for "the longest form here". */
  lemma LongestIsUnique(forms: seq<Form>, s: bytes, i: nat, f: Form, g: Form)
    requires Registered(forms) && IsLongest(forms, s, i, f) && IsLongest(forms, s, i, g)
    ensures f == g
  {
    assert |f.value| == |g.value|;
    assert f.value == s[i..][..|f.value|] == g.value;
    assert SameValue(f, g);
  }

  /** What position i of s contributes: a token, nothing, or its own byte. */
  ghost function Expected(forms: seq<Form>, s: bytes, i: nat): seq<Atom>
    requires i < |s|
  {
    if exists f :: IsLongest(forms, s, i, f) then
      var f :| IsLongest(forms, s, i, f);
      [Token(i, f)]
    else if Covered(forms, s, i) then []
    else [Raw(i, s[i])]
  }

  /** The contributions of positions lo..hi in order. */
  ghost function Declaration(forms: seq<Form>, s: bytes, lo: nat, hi: nat): seq<Atom>
    requires hi <= |s|
    decreases hi - lo
  {
    if lo >= hi then [] else Expected(forms, s, lo) + Declaration(forms, s, lo + 1, hi)
  }

  lemma {:induction false} DeclarationSplit(forms: seq<Form>, s: bytes, lo: nat, mid: nat, hi: nat)
    requires lo <= mid <= hi <= |s|
    ensures Declaration(forms, s, lo, hi) == Declaration(forms, s, lo, mid) + Declaration(forms, s, mid, hi)
    decreases mid - lo
  {
    if lo < mid {
      DeclarationSplit(forms, s, lo + 1, mid, hi);
    }
  }

  lemma ExpectedPosition(forms: seq<Form>, s: bytes, i: nat)
    requires i < |s|
    ensures forall a :: a in Expected(forms, s, i) ==> a.pos == i
  {
  }

  lemma {:induction false} DeclarationRange(forms: seq<Form>, s: bytes, lo: nat, hi: nat)
    requires hi <= |s|
    ensures forall a :: a in Declaration(forms, s, lo, hi) ==> lo <= a.pos < hi
    decreases hi - lo
  {
    hide Expected;
    if lo < hi {
      ExpectedPosition(forms, s, lo);
      DeclarationRange(forms, s, lo + 1, hi);
    }
  }

  /** The declaration's items at position i are exactly what i contributes. */
  lemma {:induction false} DeclarationAt(forms: seq<Form>, s: bytes, lo: nat, hi: nat, i: nat)
    requires lo <= i < hi <= |s|
    ensures forall a :: a in Declaration(forms, s, lo, hi) && a.pos == i <==> a in Expected(forms, s, i)
    decreases hi - lo
  {
    hide Expected;
    ExpectedPosition(forms, s, lo);
    DeclarationRange(forms, s, lo + 1, hi);
    if lo < i {
      ExpectedPosition(forms, s, i);
      DeclarationAt(forms, s, lo + 1, hi, i);
    }
  }

  predicate Extends(g: Form, f: Form) {
    f.value < g.value
  }

  /** No form continues another. */
  ghost predicate PrefixFree(forms: seq<Form>) {
    forall f, g {:trigger Extends(g, f)} :: f in forms && g in forms ==> !Extends(g, f)
  }

  /** f's last bytes, from k on, are the start of g. */
  predicate Overlaps(f: Form, g: Form, k: nat) {
    0 < k < |f.value| && f.value[k..] < g.value
  }

  ghost predicate OverlapFree(forms: seq<Form>) {
    forall f, g, k :: f in forms && g in forms ==> !Overlaps(f, g, k)
  }

  /**
   The cursor e says where coverage of the final input S ends, as seen from i: no occurrence that
   starts before i reaches further, and if e lies ahead of i some occurrence does reach it.
   */
  ghost predicate CoverageIs(forms: seq<Form>, S: bytes, i: nat, e: nat) {
    && (forall f, j: nat :: f in forms && j < i && Occurs(f, S, j) ==> j + |f.value| <= Max(i, e))
    && (i < e ==> exists f, j: nat :: f in forms && j < i && Occurs(f, S, j) && j + |f.value| == e)
  }

  /** When a scan of s knows as much as the scan of everything, S, would. */
  ghost predicate Informed(forms: seq<Form>, s: bytes, finalize: bool, S: bytes) {
    && s <= S
    && (finalize ==> s == S)
    && ((finalize && s == S) || (PrefixFree(forms) && OverlapFree(forms)))
  }

  lemma InformedLength(forms: seq<Form>, s: bytes, finalize: bool, S: bytes)
    requires Informed(forms, s, finalize, S)
    ensures |s| <= |S|
  {
  }

  lemma TailOf(s: bytes, S: bytes, i: nat)
    requires s <= S && i <= |s|
    ensures s[i..] == S[i..][..|s| - i]
  {
  }

  /** A form that s does not show at i, but S does, is still growing where s ends. */
  lemma ShownOrGrowing(s: bytes, S: bytes, i: nat, g: Form)
    requires s <= S && i <= |s| && !Starts(g, s[i..])
    ensures !Occurs(g, S, i) || (CouldBecome(g, s[i..]) && |s| < i + |g.value|)
  {
    TailOf(s, S, i);
  }

  lemma SameStart(S: bytes, i: nat, f: Form, g: Form)
    requires Occurs(f, S, i) && Occurs(g, S, i)
    ensures Extends(g, f) || |g.value| <= |f.value|
  {
    assert f.value == S[i..][..|f.value|] && g.value == S[i..][..|g.value|];
  }

  /** Two occurrences that straddle each other are an overlap of their forms. */
  lemma Straddle(S: bytes, j: nat, f: Form, i: nat, g: Form)
    requires j < i < j + |f.value| < i + |g.value| && Occurs(f, S, j) && Occurs(g, S, i)
    ensures Overlaps(f, g, i - j)
  {
    var tail := f.value[i - j..];
    forall k | 0 <= k < |tail| ensures tail[k] == g.value[k] {
      assert f.value[i - j + k] == S[j..][i - j + k] == S[i + k];
      assert g.value[k] == S[i..][k] == S[i + k];
    }
    assert tail == g.value[..|tail|];
  }

  /** A form found in s is the longest in S too. */
  lemma BestIsLongest(forms: seq<Form>, s: bytes, finalize: bool, S: bytes, i: nat, f: Form)
    requires Registered(forms) && Informed(forms, s, finalize, S) && i < |s|
    requires Best(forms, s[i..]) == Some(f)
    ensures IsLongest(forms, S, i, f) && Expected(forms, S, i) == [Token(i, f)]
  {
    TailOf(s, S, i);
    forall g | g in forms && Occurs(g, S, i) ensures |g.value| <= |f.value| {
      SameStart(S, i, f, g);
    }
    assert IsLongest(forms, S, i, f);
    var g :| IsLongest(forms, S, i, g) && Expected(forms, S, i) == [Token(i, g)];
    LongestIsUnique(forms, S, i, f, g);
  }

  /** A position under a token, where s shows no form, starts no form of S. */
  lemma CoveredStartsNothing(forms: seq<Form>, s: bytes, finalize: bool, S: bytes, i: nat, e: nat)
    requires Informed(forms, s, finalize, S) && i < e <= |s| && CoverageIs(forms, S, i, e)
    requires Best(forms, s[i..]) == None
    ensures forall g :: g in forms ==> !Occurs(g, S, i)
  {
    var f, j: nat :| f in forms && j < i && Occurs(f, S, j) && j + |f.value| == e;
    forall g | g in forms ensures !Occurs(g, S, i) {
      ShownOrGrowing(s, S, i, g);
      if Occurs(g, S, i) {
        Straddle(S, j, f, i, g);
        assert false;
      }
    }
  }

  lemma CoverageAfterToken(forms: seq<Form>, S: bytes, i: nat, e: nat, f: Form)
    requires CoverageIs(forms, S, i, e) && IsLongest(forms, S, i, f) && f.value != []
    ensures CoverageIs(forms, S, i + 1, Max(e, i + |f.value|))
  {
    var e' := Max(e, i + |f.value|);
    if i + 1 < e' {
      if i + |f.value| < e {
        var g, j: nat :| g in forms && j < i && Occurs(g, S, j) && j + |g.value| == e;
        assert g in forms && j < i + 1 && Occurs(g, S, j) && j + |g.value| == e';
      } else {
        assert f in forms && i < i + 1 && Occurs(f, S, i) && i + |f.value| == e';
      }
    }
  }

  lemma CoverageAfterNothing(forms: seq<Form>, S: bytes, i: nat, e: nat)
    requires CoverageIs(forms, S, i, e) && forall g :: g in forms ==> !Occurs(g, S, i)
    ensures CoverageIs(forms, S, i + 1, e)
  {
    if i + 1 < e {
      var g, j: nat :| g in forms && j < i && Occurs(g, S, j) && j + |g.value| == e;
      assert g in forms && j < i + 1 && Occurs(g, S, j) && j + |g.value| == e;
    }
  }

  /** What position i contributes to S when s shows no form there. */
  lemma ExpectedNothingStarts(forms: seq<Form>, S: bytes, i: nat, e: nat)
    requires i < |S| && CoverageIs(forms, S, i, e) && forall g :: g in forms ==> !Occurs(g, S, i)
    ensures Expected(forms, S, i) == if i < e then [] else [Raw(i, S[i])]
  {
    if i < e {
      var g, j: nat :| g in forms && j < i && Occurs(g, S, j) && j + |g.value| == e;
      assert Covered(forms, S, i);
    }
  }

  lemma NothingStarts(forms: seq<Form>, s: bytes, finalize: bool, S: bytes, i: nat)
    requires s <= S && (finalize ==> s == S) && i < |s|
    requires Best(forms, s[i..]) == None && (finalize || !Partial(forms, s[i..]))
    ensures forall g :: g in forms ==> !Occurs(g, S, i)
  {
    forall g | g in forms ensures !Occurs(g, S, i) {
      ShownOrGrowing(s, S, i, g);
    }
  }

  lemma CoverageSettles(forms: seq<Form>, S: bytes, i: nat, e: nat)
    requires CoverageIs(forms, S, i, e) && e <= i
    ensures CoverageIs(forms, S, i, i)
  {
  }

  lemma TurnCoverage(forms: seq<Form>, s: bytes, finalize: bool, S: bytes, i: nat, e: nat)
    requires Registered(forms) && Informed(forms, s, finalize, S)
    requires i < |s| && e <= |s| && CoverageIs(forms, S, i, e) && !HoldsAt(forms, s, finalize, i, e)
    ensures CoverageIs(forms, S, i + 1, NextCover(forms, s, i, e)) && NextCover(forms, s, i, e) <= |s|
    ensures Expected(forms, S, i) ==
            match Best(forms, s[i..])
            case Some(f) => [Token(i, f)]
            case None => if i < e then [] else [Raw(i, s[i])]
  {
    match Best(forms, s[i..])
    case Some(f) =>
      BestIsLongest(forms, s, finalize, S, i, f);
      CoverageAfterToken(forms, S, i, e, f);
    case None =>
      if i < e {
        CoveredStartsNothing(forms, s, finalize, S, i, e);
      } else {
        NothingStarts(forms, s, finalize, S, i);
      }
      CoverageAfterNothing(forms, S, i, e);
      ExpectedNothingStarts(forms, S, i, e);
      TailOf(s, S, i);
  }

  /** An informed scan emits the declarative redaction of the positions it passes. */
  lemma {:induction false} ScanDeclares(
      forms: seq<Form>, s: bytes, finalize: bool, S: bytes, i: nat, e: nat)
    requires Registered(forms) && Informed(forms, s, finalize, S)
    requires i <= |s| && e <= |s| && CoverageIs(forms, S, i, e)
    ensures var r := Scan(forms, s, finalize, i, e);
      r.out == Declaration(forms, S, i, r.stop) && CoverageIs(forms, S, r.stop, r.stop)
    decreases |s| - i
  {
    hide CoverageIs, Expected, Best, Informed, Registered, Max;
    InformedLength(forms, s, finalize, S);
    var r := Scan(forms, s, finalize, i, e);
    if i == |s| || HoldsAt(forms, s, finalize, i, e) {
      CoverageSettles(forms, S, i, e);
    } else {
      var e' := NextCover(forms, s, i, e);
      TurnCoverage(forms, s, finalize, S, i, e);
      ScanUnfolds(forms, s, finalize, i, e);
      ScanDeclares(forms, s, finalize, S, i + 1, e');
      assert Declaration(forms, S, i, r.stop) == Expected(forms, S, i) + Declaration(forms, S, i + 1, r.stop);
    }
  }

  /** The two-cursor scan of a whole input is the declarative redaction. */
  lemma WholeIsDeclarative(forms: seq<Form>, s: bytes)
    requires Registered(forms)
    ensures Whole(forms, s) == Declaration(forms, s, 0, |s|)
  {
    ScanDeclares(forms, s, true, s, 0, 0);
    FinalStop(forms, s, 0, 0);
  }

  /** What one scan of the whole input emits verbatim lies in no occurrence. */
  lemma WholeRawIsClear(forms: seq<Form>, s: bytes, i: nat)
    requires Registered(forms) && HasRaw(Whole(forms, s), i)
    ensures i < |s| && !Covered(forms, s, i) && forall f :: f in forms ==> !Occurs(f, s, i)
  {
    var whole := Whole(forms, s);
    var a :| a in whole && a.pos == i && a.Raw?;
    ScanTruthful(forms, s, true, 0, 0);
    assert AtomTrue(forms, s, true, a);
    WholeIsDeclarative(forms, s);
    DeclarationAt(forms, s, 0, |s|, i);
  }

  /** No cutting of the input withholds a byte that one scan of the whole input would emit. */
  lemma ChunkingWithholdsNoMore(forms: seq<Form>, chunks: seq<bytes>, i: nat)
    requires Registered(forms) && HasRaw(Whole(forms, Concat(chunks)), i)
    ensures HasRaw(Redact(forms, chunks), i)
  {
    WholeRawIsClear(forms, Concat(chunks), i);
    if !HasRaw(Redact(forms, chunks), i) {
      WithheldIsOccurrence(forms, chunks, i);
      assert false;
    }
  }

  // ---------------------------------------------------------------------------------------------
  // Chunk independence: exactly when it holds
  // ---------------------------------------------------------------------------------------------

  /** However the input is cut, the writer emits what one scan of the whole would. */
  ghost predicate ChunkIndependent(forms: seq<Form>) {
    forall chunks :: Redact(forms, chunks) == Whole(forms, Concat(chunks))
  }

  lemma {:induction false} RunDeclares(forms: seq<Form>, chunks: seq<bytes>, S: bytes)
    requires Registered(forms) && PrefixFree(forms) && OverlapFree(forms)
    requires Concat(chunks) <= S
    ensures var st := Run(forms, chunks);
      st.trace == Declaration(forms, S, 0, st.base) && CoverageIs(forms, S, st.base, st.base)
  {
    if chunks != [] {
      var before := Run(forms, chunks[..|chunks| - 1]);
      assert before.input <= Concat(chunks);
      RunDeclares(forms, chunks[..|chunks| - 1], S);
      var st := Run(forms, chunks);
      if chunks[|chunks| - 1] != [] {
        ScanDeclares(forms, st.input, false, S, before.base, before.base);
        DeclarationSplit(forms, S, 0, before.base, st.base);
      }
    }
  }

  lemma ApartImpliesIndependent(forms: seq<Form>, chunks: seq<bytes>)
    requires Registered(forms) && PrefixFree(forms) && OverlapFree(forms)
    ensures Redact(forms, chunks) == Whole(forms, Concat(chunks))
  {
    var S := Concat(chunks);
    var st := Run(forms, chunks);
    RunDeclares(forms, chunks, S);
    ScanDeclares(forms, S, true, S, st.base, st.base);
    FinalStop(forms, S, st.base, st.base);
    DeclarationSplit(forms, S, 0, st.base, |S|);
    WholeIsDeclarative(forms, S);
  }

  lemma FormScansToItself(forms: seq<Form>, f: Form, finalize: bool)
    requires Registered(forms) && f in forms
    ensures var r := Scan(forms, f.value, finalize, 0, 0);
      r.out != [] && r.out[0] == Token(0, f) && r.stop == |f.value|
  {
    assert f.value[0..] == f.value && Starts(f, f.value[0..]);
    var g := Best(forms, f.value[0..]).value;
    assert SameValue(f, g);
    ScanReach(forms, f.value, finalize, 1, |f.value|);
  }

  /** Two writes and a flush: what the first write emits, then items at later positions. */
  lemma TwoChunks(forms: seq<Form>, chunks: seq<bytes>) returns (rest: seq<Atom>)
    requires |chunks| == 2 && chunks[0] != [] && chunks[1] != []
    ensures Concat(chunks) == chunks[0] + chunks[1]
    ensures var first := Scan(forms, chunks[0], false, 0, 0);
      Redact(forms, chunks) == first.out + rest && forall k :: 0 <= k < |rest| ==> first.stop <= rest[k].pos
  {
    var one := chunks[..1];
    assert one[..0] == [] && one[0] == chunks[0];
    assert Concat(one) == chunks[0];
    var st := Run(forms, one);
    assert st == Feed(forms, Run(forms, one[..0]), chunks[0]);
    assert [] + chunks[0] == chunks[0];
    var first := Scan(forms, chunks[0], false, 0, 0);
    assert [] + first.out == first.out;
    var s := chunks[0] + chunks[1];
    var second := Scan(forms, s, false, st.base, st.base);
    var third := Scan(forms, s, true, second.stop, second.stop);
    ScanInOrder(forms, s, false, st.base, st.base);
    ScanInOrder(forms, s, true, second.stop, second.stop);
    rest := second.out + third.out;
    assert first.out + second.out + third.out == first.out + rest;
  }

  lemma Differs(forms: seq<Form>, chunks: seq<bytes>, a: Atom)
    requires (a in Redact(forms, chunks)) != (a in Whole(forms, Concat(chunks)))
    ensures !ChunkIndependent(forms)
  {
  }

  lemma PrefixBreaks(forms: seq<Form>, f: Form, g: Form, chunks: seq<bytes>)
    requires Registered(forms) && f in forms && g in forms && f.value < g.value
    requires |chunks| == 2 && chunks[0] == f.value && chunks[1] == g.value[|f.value|..]
    ensures !ChunkIndependent(forms)
  {
    assert chunks[0] + chunks[1] == g.value;
    RedactStarts(forms, f, chunks);
    FormScansToItself(forms, g, true);
    DiffersAtOnce(forms, chunks);
  }

  /**
   The forms AB and ABCDE, cut after AB: one token for the short form instead of the long one, and
   the bytes handed downstream differ.
   */
  lemma CutInsideLongForm()
    ensures var short, long := Form([1], [65, 66]), Form([2], [65, 66, 67, 68, 69]);
      var forms, chunks := [short, long], [[65, 66], [67, 68, 69]];
      var cut, whole := Redact(forms, chunks), Whole(forms, Concat(chunks));
      && cut != [] && cut[0] == Token(0, short)
      && whole != [] && whole[0] == Token(0, long)
      && Render(cut) != Render(whole)
  {
    var short, long := Form([1], [65, 66]), Form([2], [65, 66, 67, 68, 69]);
    var forms: seq<Form>, chunks: seq<bytes> := [short, long], [[65, 66], [67, 68, 69]];
    assert short.value != long.value;
    RedactStarts(forms, short, chunks);
    assert chunks[0] + chunks[1] == long.value;
    FormScansToItself(forms, long, true);
    RenderStarts(Redact(forms, chunks), short);
    RenderStarts(Whole(forms, Concat(chunks)), long);
  }

  /** The name in a leading token shows in the bytes. */
  lemma RenderStarts(trace: seq<Atom>, f: Form)
    requires trace != [] && trace[0] == Token(0, f) && f.name != []
    ensures |Render(trace)| > |OPEN| && Render(trace)[|OPEN|] == f.name[0]
  {
    assert trace == [trace[0]] + trace[1..];
    RenderAppend([trace[0]], trace[1..]);
    RenderOne(trace[0]);
  }

  lemma RedactStarts(forms: seq<Form>, f: Form, chunks: seq<bytes>)
    requires Registered(forms) && f in forms && |chunks| == 2 && chunks[0] == f.value && chunks[1] != []
    ensures Concat(chunks) == chunks[0] + chunks[1]
    ensures Redact(forms, chunks) != [] && Redact(forms, chunks)[0] == Token(0, f)
  {
    var rest := TwoChunks(forms, chunks);
    FormScansToItself(forms, f, false);
  }

  lemma DiffersAtOnce(forms: seq<Form>, chunks: seq<bytes>)
    requires Redact(forms, chunks) != [] && Whole(forms, Concat(chunks)) != []
    requires Redact(forms, chunks)[0] != Whole(forms, Concat(chunks))[0]
    ensures !ChunkIndependent(forms)
  {
  }

  lemma OverlapBreaks(forms: seq<Form>, f: Form, g: Form, k: nat, chunks: seq<bytes>)
    requires Registered(forms) && PrefixFree(forms) && f in forms && g in forms && Overlaps(f, g, k)
    requires |chunks| == 2 && chunks[0] == f.value && chunks[1] == g.value[|f.value| - k..]
    ensures !ChunkIndependent(forms)
  {
    var S := f.value + chunks[1];
    OverlapInput(f, g, k, chunks[1]);
    TokenInWhole(forms, S, k, g);
    var rest := TwoChunks(forms, chunks);
    assert Token(k, g) !in Redact(forms, chunks) by {
      NoTokenBeyond(forms, f.value, k, g);
      FormScansToItself(forms, f, false);
    }
    Differs(forms, chunks, Token(k, g));
  }

  lemma OverlapInput(f: Form, g: Form, k: nat, b: bytes)
    requires Overlaps(f, g, k) && b == g.value[|f.value| - k..]
    ensures k < |f.value| < k + |g.value| && (f.value + b)[k..] == g.value
  {
    assert (f.value + b)[k..] == f.value[k..] + b;
    assert g.value == g.value[..|f.value| - k] + b;
  }

  lemma TokenInWhole(forms: seq<Form>, s: bytes, i: nat, g: Form)
    requires Registered(forms) && g in forms && i < |s| && s[i..] == g.value
    ensures Token(i, g) in Whole(forms, s)
  {
    assert IsLongest(forms, s, i, g);
    var h :| IsLongest(forms, s, i, h) && Expected(forms, s, i) == [Token(i, h)];
    LongestIsUnique(forms, s, i, g, h);
    WholeIsDeclarative(forms, s);
    DeclarationAt(forms, s, 0, |s|, i);
  }

  lemma NoTokenBeyond(forms: seq<Form>, s: bytes, i: nat, g: Form)
    requires i <= |s| < i + |g.value|
    ensures Token(i, g) !in Scan(forms, s, false, 0, 0).out
  {
    ScanTruthful(forms, s, false, 0, 0);
    var out := Scan(forms, s, false, 0, 0).out;
    assert Token(i, g) in out ==> AtomTrue(forms, s, false, Token(i, g));
  }

  /** A cut can change the output exactly when some form continues, or overlaps into, another. */
  lemma ChunkIndependenceExactly(forms: seq<Form>)
    requires Registered(forms)
    ensures ChunkIndependent(forms) <==> PrefixFree(forms) && OverlapFree(forms)
  {
    if PrefixFree(forms) && OverlapFree(forms) {
      forall chunks ensures Redact(forms, chunks) == Whole(forms, Concat(chunks)) {
        ApartImpliesIndependent(forms, chunks);
      }
    } else if !PrefixFree(forms) {
      var f, g :| f in forms && g in forms && Extends(g, f);
      PrefixBreaks(forms, f, g, [f.value, g.value[|f.value|..]]);
    } else {
      var f, g, k :| f in forms && g in forms && Overlaps(f, g, k);
      OverlapBreaks(forms, f, g, k, [f.value, g.value[|f.value| - k..]]);
    }
  }
}
