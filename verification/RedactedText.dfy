/** What the redacted stream reads like: its bytes rather than the positions they come from. */
module RedactedText {
  import opened ByteStrings
  import opened Redaction

  // ---------------------------------------------------------------------------------------------
  // Emitted bytes do not spell a form either
  // ---------------------------------------------------------------------------------------------

  /** After a raw item at position i the next one stands at i + 1, or the trace ends there. */
  ghost predicate Gapless(trace: seq<Atom>, end: nat) {
    && (forall k :: 0 <= k && k + 1 < |trace| && trace[k].Raw? ==> trace[k + 1].pos == trace[k].pos + 1)
    && (trace != [] && trace[|trace| - 1].Raw? ==> trace[|trace| - 1].pos + 1 == end)
  }

  /** It goes on at position i. */
  ghost predicate StartsAt(trace: seq<Atom>, i: nat, end: nat) {
    if trace == [] then end == i else trace[0].pos == i
  }

  lemma GaplessAfter(a: Atom, rest: seq<Atom>, end: nat)
    requires Gapless(rest, end) && (a.Raw? ==> StartsAt(rest, a.pos + 1, end))
    ensures Gapless([a] + rest, end)
  {
    var trace := [a] + rest;
    forall k | 0 <= k && k + 1 < |trace| && trace[k].Raw? ensures trace[k + 1].pos == trace[k].pos + 1 {
      if k > 0 {
        assert trace[k] == rest[k - 1] && trace[k + 1] == rest[k - 1 + 1];
      }
    }
  }

  lemma GaplessSum(a: seq<Atom>, mid: nat, b: seq<Atom>, end: nat)
    requires Gapless(a, mid) && Gapless(b, end) && StartsAt(b, mid, end)
    ensures Gapless(a + b, end)
  {
    var trace := a + b;
    forall k | 0 <= k && k + 1 < |trace| && trace[k].Raw? ensures trace[k + 1].pos == trace[k].pos + 1 {
      if k >= |a| {
        assert trace[k] == b[k - |a|] && trace[k + 1] == b[k - |a| + 1];
      }
    }
  }

  /** A scan leaves no gap behind a raw item, and goes on where it starts unless covered there. */
  lemma {:induction false} ScanGapless(forms: seq<Form>, s: bytes, finalize: bool, i: nat, e: nat)
    requires i <= |s|
    ensures var r := Scan(forms, s, finalize, i, e);
      Gapless(r.out, r.stop) && (e <= i ==> StartsAt(r.out, i, r.stop))
    decreases |s| - i
  {
    if i < |s| && !HoldsAt(forms, s, finalize, i, e) {
      var e' := NextCover(forms, s, i, e);
      var rest := Scan(forms, s, finalize, i + 1, e');
      ScanGapless(forms, s, finalize, i + 1, e');
      ScanUnfolds(forms, s, finalize, i, e);
      match Best(forms, s[i..])
      case Some(f) => GaplessAfter(Token(i, f), rest.out, rest.stop);
      case None =>
        if e <= i {
          GaplessAfter(Raw(i, s[i]), rest.out, rest.stop);
        }
    }
  }

  lemma {:induction false} RunGapless(forms: seq<Form>, chunks: seq<bytes>)
    ensures var st := Run(forms, chunks); Gapless(st.trace, st.base)
  {
    if chunks != [] {
      var n := |chunks| - 1;
      RunGapless(forms, chunks[..n]);
      if chunks[n] != [] {
        var st := Run(forms, chunks[..n]);
        var s := st.input + chunks[n];
        var r := Scan(forms, s, false, st.base, st.base);
        ScanGapless(forms, s, false, st.base, st.base);
        GaplessSum(st.trace, st.base, r.out, r.stop);
      }
    }
  }

  lemma RedactGapless(forms: seq<Form>, chunks: seq<bytes>)
    ensures Gapless(Redact(forms, chunks), |Concat(chunks)|)
  {
    var st := Run(forms, chunks);
    var r := Scan(forms, st.input, true, st.base, st.base);
    RunGapless(forms, chunks);
    ScanGapless(forms, st.input, true, st.base, st.base);
    GaplessSum(st.trace, st.base, r.out, r.stop);
    FinalStop(forms, st.input, st.base, st.base);
  }

  /** The items from i on are raw and spell text. */
  ghost predicate Spelled(trace: seq<Atom>, i: nat, text: bytes) {
    && i + |text| <= |trace|
    && forall m :: i <= m < i + |text| ==> trace[m].Raw? && trace[m].b == text[m - i]
  }

  lemma {:induction false} SpelledPositions(trace: seq<Atom>, end: nat, i: nat, text: bytes, k: nat)
    requires Gapless(trace, end) && Spelled(trace, i, text) && k < |text|
    ensures trace[i + k].pos == trace[i].pos + k
  {
    if k > 0 {
      SpelledPositions(trace, end, i, text, k - 1);
      assert trace[i + k - 1].Raw?;
    }
  }

  /**
   Input bytes that come out next to each other never spell a form, whatever was withheld around
   them and however the input was cut.
   */
  lemma OutputSpellsNoForm(forms: seq<Form>, chunks: seq<bytes>, f: Form, i: nat)
    requires f in forms && f.value != []
    ensures !Spelled(Redact(forms, chunks), i, f.value)
  {
    var s, out := Concat(chunks), Redact(forms, chunks);
    if Spelled(out, i, f.value) {
      var p := out[i].pos;
      RedactGapless(forms, chunks);
      Conservation(forms, chunks);
      SpelledInput(s, out, i, f.value);
      SpelledOccurs(f, s, p);
      FirstByteWithheld(forms, chunks, f, p);
      assert false;
    }
  }

  lemma SpelledInput(s: bytes, out: seq<Atom>, i: nat, text: bytes)
    requires Gapless(out, |s|) && Spelled(out, i, text) && text != []
    requires forall k :: 0 <= k < |out| ==> out[k].pos < |s| && (out[k].Raw? ==> out[k].b == s[out[k].pos])
    ensures out[i].pos + |text| <= |s| && s[out[i].pos..out[i].pos + |text|] == text
  {
    var p := out[i].pos;
    SpelledPositions(out, |s|, i, text, |text| - 1);
    assert out[i + (|text| - 1)].pos < |s|;
    forall k | 0 <= k < |text| ensures s[p..p + |text|][k] == text[k] {
      SpelledPositions(out, |s|, i, text, k);
      assert out[i + k].Raw? && out[i + k].b == text[k];
    }
  }

  lemma SpelledOccurs(f: Form, s: bytes, p: nat)
    requires p + |f.value| <= |s| && s[p..p + |f.value|] == f.value
    ensures Occurs(f, s, p)
  {
    assert s[p..] == s[p..p + |f.value|] + s[p + |f.value|..];
  }

  // ---------------------------------------------------------------------------------------------
  // What one occurrence comes out as, byte for byte
  // ---------------------------------------------------------------------------------------------

  /** A token hides its whole occurrence: no raw item stands inside it, and end lies past it. */
  ghost predicate Shadowed(trace: seq<Atom>, end: nat) {
    && (forall a :: a in trace && a.Token? ==> a.pos + |a.form.value| <= end)
    && (forall a, b :: a in trace && b in trace && a.Token? && b.Raw? && a.pos <= b.pos ==> a.pos + |a.form.value| <= b.pos)
  }

  lemma {:induction false} ScanShadows(forms: seq<Form>, s: bytes, finalize: bool, i: nat, e: nat)
    requires i <= |s| && e <= |s|
    ensures var r := Scan(forms, s, finalize, i, e); Shadowed(r.out, r.stop)
    decreases |s| - i
  {
    if i < |s| && !HoldsAt(forms, s, finalize, i, e) {
      var e' := NextCover(forms, s, i, e);
      CoverFits(forms, s, i, e);
      var rest := Scan(forms, s, finalize, i + 1, e');
      ScanShadows(forms, s, finalize, i + 1, e');
      ScanSuppresses(forms, s, finalize, i + 1, e');
      ScanReach(forms, s, finalize, i + 1, e');
      ScanInOrder(forms, s, finalize, i + 1, e');
      ScanUnfolds(forms, s, finalize, i, e);
      assert forall a :: a in rest.out ==> i < a.pos;
    }
  }

  lemma CoverFits(forms: seq<Form>, s: bytes, i: nat, e: nat)
    requires i < |s| && e <= |s|
    ensures NextCover(forms, s, i, e) <= |s|
    ensures Best(forms, s[i..]).Some? ==> i + |Best(forms, s[i..]).value.value| <= NextCover(forms, s, i, e)
  {
  }

  lemma ShadowedSum(a: seq<Atom>, mid: nat, b: seq<Atom>, end: nat)
    requires Shadowed(a, mid) && Shadowed(b, end) && mid <= end
    requires (forall x :: x in a ==> x.pos < mid) && (forall x :: x in b ==> mid <= x.pos)
    ensures Shadowed(a + b, end)
  {
  }

  lemma {:induction false} RunShadows(forms: seq<Form>, chunks: seq<bytes>)
    ensures var st := Run(forms, chunks); Shadowed(st.trace, st.base)
  {
    if chunks != [] {
      var n := |chunks| - 1;
      RunShadows(forms, chunks[..n]);
      if chunks[n] != [] {
        var st := Run(forms, chunks[..n]);
        StepShadows(forms, chunks[..n], st.input + chunks[n], false);
      }
    }
  }

  lemma StepShadows(forms: seq<Form>, chunks: seq<bytes>, s: bytes, finalize: bool)
    requires var st := Run(forms, chunks); Shadowed(st.trace, st.base) && st.base <= |s|
    ensures var st := Run(forms, chunks);
      var r := Scan(forms, s, finalize, st.base, st.base); Shadowed(st.trace + r.out, r.stop)
  {
    var st := Run(forms, chunks);
    var r := Scan(forms, s, finalize, st.base, st.base);
    RunSound(forms, chunks);
    assert forall x :: x in st.trace ==> x.pos < st.base;
    ScanInOrder(forms, s, finalize, st.base, st.base);
    assert forall x :: x in r.out ==> st.base <= x.pos;
    ScanShadows(forms, s, finalize, st.base, st.base);
    ShadowedSum(st.trace, st.base, r.out, r.stop);
  }

  /** However the input is cut, nothing of an occurrence that a token stands for comes out. */
  lemma TokenHidesOccurrence(forms: seq<Form>, chunks: seq<bytes>, f: Form, i: nat, p: nat)
    requires Token(i, f) in Redact(forms, chunks) && i <= p < i + |f.value|
    ensures !HasRaw(Redact(forms, chunks), p)
  {
    var st := Run(forms, chunks);
    RunShadows(forms, chunks);
    StepShadows(forms, chunks, st.input, true);
  }

  function RawRun(s: bytes, lo: nat, hi: nat): (r: seq<Atom>)
    requires lo <= hi <= |s|
    ensures |r| == hi - lo && forall k :: 0 <= k < hi - lo ==> r[k] == Raw(lo + k, s[lo + k])
  {
    seq(hi - lo, k requires 0 <= k < hi - lo => Raw(lo + k, s[lo + k]))
  }

  lemma {:induction false} RenderRun(s: bytes, lo: nat, hi: nat)
    requires lo <= hi <= |s|
    ensures Render(RawRun(s, lo, hi)) == s[lo..hi]
    decreases hi
  {
    if lo == hi {
      assert RawRun(s, lo, hi) == [];
    } else {
      RenderRun(s, lo, hi - 1);
      assert RawRun(s, lo, hi) == RawRun(s, lo, hi - 1) + [Raw(hi - 1, s[hi - 1])];
      RenderAppend(RawRun(s, lo, hi - 1), [Raw(hi - 1, s[hi - 1])]);
      RenderOne(Raw(hi - 1, s[hi - 1]));
      assert s[lo..hi] == s[lo..hi - 1] + [s[hi - 1]];
    }
  }

  ghost predicate SameMembers(a: seq<Atom>, b: seq<Atom>) {
    forall x :: x in a <==> x in b
  }

  lemma NoneAlike(a: seq<Atom>, b: seq<Atom>)
    requires SameMembers(a, b)
    ensures a == [] <==> b == []
  {
    if a != [] {
      assert a[0] in b;
    }
    if b != [] {
      assert b[0] in a;
    }
  }

  lemma LastIsSame(a: seq<Atom>, b: seq<Atom>, lo: nat, hi: nat)
    requires InOrder(a, lo, hi) && InOrder(b, lo, hi) && SameMembers(a, b) && a != [] && b != []
    ensures a[|a| - 1] == b[|b| - 1]
  {
    var m, n := |a| - 1, |b| - 1;
    assert a[m] in b && b[n] in a;
    var j :| 0 <= j < |b| && b[j] == a[m];
    var k :| 0 <= k < |a| && a[k] == b[n];
    Increasing(a, lo, hi, k, m);
    Increasing(b, lo, hi, j, n);
  }

  /** The items of a trace in order, but for the last, are those at earlier positions. */
  lemma FrontHolds(a: seq<Atom>, lo: nat, hi: nat, x: Atom)
    requires InOrder(a, lo, hi) && a != []
    ensures x in a[..|a| - 1] <==> x in a && x.pos < a[|a| - 1].pos
  {
    var m := |a| - 1;
    if x in a {
      var k :| 0 <= k < |a| && a[k] == x;
      if k < m {
        assert a[..m][k] == x;
      }
    }
  }

  /** Two traces in order with the same items are the same. */
  lemma {:induction false} SameItems(a: seq<Atom>, b: seq<Atom>, lo: nat, hi: nat)
    requires InOrder(a, lo, hi) && InOrder(b, lo, hi) && SameMembers(a, b)
    ensures a == b
  {
    NoneAlike(a, b);
    if a != [] {
      var m, n := |a| - 1, |b| - 1;
      LastIsSame(a, b, lo, hi);
      forall x ensures x in a[..m] <==> x in b[..n] {
        FrontHolds(a, lo, hi, x);
        FrontHolds(b, lo, hi, x);
      }
      SameItems(a[..m], b[..n], lo, hi);
      assert a == a[..m] + [a[m]] && b == b[..n] + [b[n]];
    }
  }

  /** Between p and q stands the one occurrence of any form in s, of f. */
  ghost predicate OnlyOccurrence(forms: seq<Form>, s: bytes, f: Form, p: nat) {
    && f in forms && f.value != [] && Occurs(f, s, p)
    && forall g, i: nat :: g in forms && Occurs(g, s, i) ==> g == f && i == p
  }

  /** The trace expected around it. */
  function Around(s: bytes, f: Form, p: nat): seq<Atom>
    requires p + |f.value| <= |s|
  {
    RawRun(s, 0, p) + [Token(p, f)] + RawRun(s, p + |f.value|, |s|)
  }

  lemma AroundInOrder(s: bytes, f: Form, p: nat)
    requires p + |f.value| <= |s| && f.value != []
    ensures InOrder(Around(s, f, p), 0, |s|)
  {
    var out, q := Around(s, f, p), p + |f.value|;
    forall k | 0 <= k < |out|
      ensures out[k].pos == if k <= p then k else q + (k - p - 1)
    {
      if k < p {
        assert out[k] == RawRun(s, 0, p)[k];
      } else if k > p {
        assert out[k] == RawRun(s, q, |s|)[k - p - 1];
      }
    }
  }

  lemma OnlyItem(forms: seq<Form>, chunks: seq<bytes>, f: Form, p: nat, x: Atom)
    requires OnlyOccurrence(forms, Concat(chunks), f, p) && p + |f.value| <= |Concat(chunks)|
    ensures x in Redact(forms, chunks) <==> x in Around(Concat(chunks), f, p)
  {
    hide Redact, RawRun, Scan, Around;
    var s := Concat(chunks);
    RedactSound(forms, chunks);
    OnlyToken(forms, chunks, f, p);
    AroundItem(s, f, p, x);
    if x in Redact(forms, chunks) {
      assert AtomTrue(forms, s, true, x);
      if x.Raw? && p <= x.pos < p + |f.value| {
        TokenHidesOccurrence(forms, chunks, f, p, x.pos);
        assert false;
      }
    } else if x in Around(s, f, p) && x.Raw? {
      OnlyRaw(forms, chunks, f, p, x.pos);
    }
  }

  lemma OccursFits(f: Form, s: bytes, p: nat)
    requires Occurs(f, s, p)
    ensures p + |f.value| <= |s| && s[p..p + |f.value|] == f.value
  {
    assert s[p..][..|f.value|] == s[p..p + |f.value|];
  }

  lemma OnlyTrace(forms: seq<Form>, chunks: seq<bytes>, f: Form, p: nat)
    requires OnlyOccurrence(forms, Concat(chunks), f, p)
    ensures p + |f.value| <= |Concat(chunks)| && Redact(forms, chunks) == Around(Concat(chunks), f, p)
  {
    hide Redact, Around;
    var s := Concat(chunks);
    OccursFits(f, s, p);
    RedactSound(forms, chunks);
    AroundInOrder(s, f, p);
    forall x ensures x in Redact(forms, chunks) <==> x in Around(s, f, p) {
      OnlyItem(forms, chunks, f, p, x);
    }
    SameItems(Redact(forms, chunks), Around(s, f, p), 0, |s|);
  }

  lemma OnlyToken(forms: seq<Form>, chunks: seq<bytes>, f: Form, p: nat)
    requires OnlyOccurrence(forms, Concat(chunks), f, p)
    ensures Token(p, f) in Redact(forms, chunks)
  {
    var s, out := Concat(chunks), Redact(forms, chunks);
    RedactSound(forms, chunks);
    FirstByteWithheld(forms, chunks, f, p);
    assert !Covered(forms, s, p);
    assert HasAtom(out, p);
    var a :| a in out && a.pos == p;
    assert AtomTrue(forms, s, true, a);
  }

  lemma OnlyRaw(forms: seq<Form>, chunks: seq<bytes>, f: Form, p: nat, i: nat)
    requires OnlyOccurrence(forms, Concat(chunks), f, p)
    requires i < |Concat(chunks)| && (i < p || p + |f.value| <= i)
    ensures Raw(i, Concat(chunks)[i]) in Redact(forms, chunks)
  {
    var s, out := Concat(chunks), Redact(forms, chunks);
    RedactSound(forms, chunks);
    assert !Covered(forms, s, i);
    assert HasAtom(out, i);
    var a :| a in out && a.pos == i;
    assert AtomTrue(forms, s, true, a);
  }

  lemma AroundItem(s: bytes, f: Form, p: nat, x: Atom)
    requires p + |f.value| <= |s|
    ensures x in Around(s, f, p) <==>
      x == Token(p, f) || (x.Raw? && x.pos < |s| && x.b == s[x.pos] && (x.pos < p || p + |f.value| <= x.pos))
  {
    var q := p + |f.value|;
    if x.Raw? && x.pos < p && x.b == s[x.pos] {
      assert RawRun(s, 0, p)[x.pos] == x;
    }
    if x.Raw? && q <= x.pos < |s| && x.b == s[x.pos] {
      assert RawRun(s, q, |s|)[x.pos - q] == x;
    }
  }

  lemma RenderAround(s: bytes, f: Form, p: nat)
    requires p + |f.value| <= |s|
    ensures Render(Around(s, f, p)) == s[..p] + AtomText(Token(p, f)) + s[p + |f.value|..]
  {
    hide Render, RawRun, AtomText;
    var q := p + |f.value|;
    RenderAppend(RawRun(s, 0, p) + [Token(p, f)], RawRun(s, q, |s|));
    RenderAppend(RawRun(s, 0, p), [Token(p, f)]);
    RenderOne(Token(p, f));
    RenderRun(s, 0, p);
    RenderRun(s, q, |s|);
  }

  /** One occurrence between clean texts comes out as [REDACTED:name] between them, however it is cut. */
  lemma OneOccurrenceRenders(forms: seq<Form>, chunks: seq<bytes>, a: bytes, f: Form, b: bytes)
    requires Concat(chunks) == a + f.value + b && OnlyOccurrence(forms, Concat(chunks), f, |a|)
    ensures Render(Redact(forms, chunks)) == a + ([91, 82, 69, 68, 65, 67, 84, 69, 68, 58] + f.name + [93]) + b
  {
    hide Render, Redact, Around, OnlyOccurrence;
    OnlyTrace(forms, chunks, f, |a|);
    RenderAround(Concat(chunks), f, |a|);
    var s := Concat(chunks);
    assert s[..|a|] == a && s[|a| + |f.value|..] == b;
  }
}
