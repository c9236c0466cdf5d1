/**
 The redacting writer itself: the three reused scratch arrays, the shared patterns, and the methods
 that change them, each proved against the redactor on values.
 */
module RedactingWriterModel {
  import opened ByteStrings
  import opened Redaction
  import opened ScratchArrays
  import opened Registration
  import opened CappedOutput

  // ---------------------------------------------------------------------------------------------
  // Matching at one position
  // ---------------------------------------------------------------------------------------------

  method LongestCandidate(cands: seq<Entry>, work: array<byte>, len: nat, i: nat, ghost forms: seq<Form>, ghost values: set<array<byte>>)
    returns (bestLen: nat, bestName: bytes)
    requires i < len <= work.Length && SpellsAll(cands, forms, values) && forall f :: f in forms ==> f.value != []
    ensures match Best(forms, work[i..len])
            case Some(f) => bestLen == |f.value| > 0 && bestName == f.name
            case None => bestLen == 0
    ensures forall x: array<byte> :: fresh(x) ==> Zero(x)
  {
    bestLen, bestName := 0, [];
    ghost var t := work[i..len];
    for k := 0 to |cands|
      invariant match Best(forms[..k], t)
                case Some(f) => bestLen == |f.value| > 0 && bestName == f.name
                case None => bestLen == 0
      invariant forall x: array<byte> :: fresh(x) ==> Zero(x)
    {
      var s := cands[k];
      assert forms[..k + 1][..k] == forms[..k];
      assert forms[k] in forms && Spells(s, forms[k]);
      if s.value.Length <= len - i && s.value[..] <= work[i..len] {
        if s.value.Length > bestLen {
          bestLen := s.value.Length;
          bestName := s.name;
        }
      }
    }
    assert forms[..|cands|] == forms;
  }

  method AnyPartial(cands: seq<Entry>, work: array<byte>, len: nat, i: nat, ghost forms: seq<Form>, ghost values: set<array<byte>>)
    returns (r: bool)
    requires i < len <= work.Length && SpellsAll(cands, forms, values)
    ensures r == Partial(forms, work[i..len])
    ensures forall x: array<byte> :: fresh(x) ==> Zero(x)
  {
    for k := 0 to |cands|
      invariant forall f :: f in forms[..k] ==> !CouldBecome(f, work[i..len])
      invariant forall x: array<byte> :: fresh(x) ==> Zero(x)
    {
      var s := cands[k];
      assert Spells(s, forms[k]);
      if len - i < s.value.Length && work[i..len] <= s.value[..] {
        assert forms[k] in forms && CouldBecome(forms[k], work[i..len]);
        return true;
      }
    }
    return false;
  }

  /** The bytes the scan appends at position i before going on to the next. */
  function TextAt(forms: seq<Form>, s: bytes, i: nat, e: nat): bytes
    requires i < |s|
  {
    match Best(forms, s[i..])
    case Some(f) => OPEN + f.name + CLOSE
    case None => if i < e then [] else [s[i]]
  }

  /** buf[..len] is the part of s from base on. */
  ghost predicate Shows(buf: array<byte>, len: nat, s: bytes, base: nat)
    reads buf
  {
    len <= buf.Length && base + len == |s| && buf[..len] == s[base..]
  }

  lemma ShowsText(buf: array<byte>, len: nat, s: bytes, base: nat)
    requires Shows(buf, len, s, base)
    ensures len <= buf.Length && base + len == |s| && Text(buf, len) == s[base..]
  {
  }

  lemma TextShows(buf: array<byte>, len: nat, s: bytes, p: bytes, base: nat)
    requires base <= |s| && len <= buf.Length && len == |s| - base + |p| && Text(buf, len) == s[base..] + p
    ensures Shows(buf, len, s + p, base)
  {
    assert (s + p)[base..] == s[base..] + p;
  }

  lemma ShowsLength(buf: array<byte>, len: nat, s: bytes, base: nat)
    requires Shows(buf, len, s, base)
    ensures len <= buf.Length && base + len == |s|
  {
  }

  lemma ShowsAt(buf: array<byte>, len: nat, s: bytes, base: nat, i: nat)
    requires Shows(buf, len, s, base) && i < len
    ensures len <= buf.Length && base + len == |s|
    ensures buf[i..len] == s[base + i..] && buf[i] == s[base + i] && buf[i..i + 1] == [s[base + i]]
  {
    assert buf[..len][i] == s[base..][i];
    assert buf[i..len] == buf[..len][i..] == s[base..][i..] == s[base + i..];
  }

  /** What a scan gave, as bytes and the position where it stopped. */
  ghost predicate ScanResultIs(r: ScanResult, out: bytes, stop: int) {
    out == Render(r.out) && stop == r.stop
  }

  /** With text appended so far and rest still to come, the scan gives result. */
  ghost predicate Pending(result: ScanResult, text: bytes, rest: ScanResult) {
    Render(result.out) == text + Render(rest.out) && result.stop == rest.stop
  }

  lemma Advance(
      forms: seq<Form>, s: bytes, finalize: bool, i: nat, e: nat, result: ScanResult, text: bytes)
    requires i < |s| && !HoldsAt(forms, s, finalize, i, e)
    requires Pending(result, text, Scan(forms, s, finalize, i, e))
    ensures Pending(result, text + TextAt(forms, s, i, e),
                    Scan(forms, s, finalize, i + 1, NextCover(forms, s, i, e)))
  {
    var rest := Scan(forms, s, finalize, i + 1, NextCover(forms, s, i, e));
    ScanUnfolds(forms, s, finalize, i, e);
    match Best(forms, s[i..])
    case Some(f) => AdvanceBy(Token(i, f), rest.out, text);
    case None =>
      if i < e {
        assert text + [] == text;
      } else {
        AdvanceBy(Raw(i, s[i]), rest.out, text);
      }
  }

  lemma AdvanceBy(a: Atom, rest: seq<Atom>, text: bytes)
    ensures text + Render([a] + rest) == text + AtomText(a) + Render(rest)
  {
    RenderAppend([a], rest);
    RenderOne(a);
    assert text + (AtomText(a) + Render(rest)) == text + AtomText(a) + Render(rest);
  }

  lemma Begin(result: ScanResult)
    ensures Pending(result, [], result)
  {
    assert [] + Render(result.out) == Render(result.out);
  }

  /** The scan that stops at i has nothing to add. */
  lemma Settle(forms: seq<Form>, s: bytes, finalize: bool, i: nat, e: nat, result: ScanResult, text: bytes)
    requires i <= |s| && (i < |s| ==> HoldsAt(forms, s, finalize, i, e))
    requires Pending(result, text, Scan(forms, s, finalize, i, e))
    ensures ScanResultIs(result, text, i)
  {
    assert Scan(forms, s, finalize, i, e) == ScanResult([], i);
    assert Render([]) == [];
  }

  /** The candidates for a tail's first byte decide everything the scan asks about the tail. */
  lemma Lookup(
      secrets: seq<Entry>, candidates: seq<seq<Entry>>, maxLen: nat, forms: seq<Form>, values: set<array<byte>>, t: bytes)
    requires Registered(forms) && Tables(secrets, candidates, maxLen, forms, values) && t != []
    ensures |candidates| == 256
    ensures var bucket := Bucket(forms, t[0]);
      && SpellsAll(candidates[t[0] as int], bucket, values)
      && (forall f :: f in bucket ==> f.value != [])
      && Best(bucket, t) == Best(forms, t)
      && Partial(bucket, t) == Partial(forms, t)
      && (maxLen <= |t| ==> !Partial(forms, t))
  {
    IndexFindsBest(forms, t);
    BucketHolds(forms, t[0]);
  }

  lemma NothingHeld(a: array<byte>)
    ensures Shows(a, 0, [], 0) && (Zero(a) <==> ZeroFrom(a, 0))
  {
  }

  lemma HeldIn(
      secrets: seq<Entry>, candidates: seq<seq<Entry>>, maxLen: nat, forms: seq<Form>, values: set<array<byte>>)
    requires Tables(secrets, candidates, maxLen, forms, values)
    ensures values == ValuesOf(secrets) && |secrets| == |forms|
  {
  }

  /** The reference count of the patterns that writers share, and who they are. */
  class Patterns {
    var refs: int
    ghost var users: set<object>

    constructor ()
      ensures refs == 1 && users == {}
      ensures forall x: array<byte> :: fresh(x) ==> Zero(x)
    {
      refs, users := 1, {};
    }

    ghost predicate Counts(user: object)
      reads this
    {
      user in users && refs == |users|
    }

    method Join(ghost user: object)
      requires refs == |users| && user !in users
      modifies this
      ensures refs == old(refs) + 1 && users == old(users) + {user}
      ensures refs == |users|
      ensures forall x: array<byte> :: fresh(x) ==> Zero(x)
    {
      refs := refs + 1;
      users := users + {user};
    }

    /** One user less; the last one wipes the patterns' bytes. */
    method Leave(secrets: seq<Entry>, ghost user: object, ghost values: set<array<byte>>)
      requires Counts(user) && values == ValuesOf(secrets)
      modifies this, values
      ensures users == old(users) - {user} && refs == |users|
      ensures users == {} ==> forall a :: a in values ==> Zero(a)
      ensures users != {} ==> unchanged(values)
      ensures forall x: array<byte> :: fresh(x) ==> Zero(x)
    {
      hide Zero, ValuesOf;
      refs := refs - 1;
      users := users - {user};
      if refs == 0 {
        WipePatterns(secrets, values);
      }
    }
  }

  method NewScratch() returns (a: array<byte>, b: array<byte>, c: array<byte>)
    ensures fresh(a) && fresh(b) && fresh(c) && a != b && a != c && b != c
    ensures Zero(a) && Zero(b) && Zero(c) && ZeroFrom(a, 0)
    ensures Shows(a, 0, [], 0)
    ensures forall x: array<byte> :: fresh(x) ==> Zero(x)
  {
    hide Zero;
    a := Make(0);
    b := Make(0);
    c := Make(0);
    NothingHeld(a);
  }

  class RedactingWriter {
    const w: CappedWriter
    const wired: bool
    var secrets: seq<Entry>
    var candidates: seq<seq<Entry>>
    var maxLen: nat
    var patterns: Patterns?
    var holdover: array<byte>
    var holdLen: nat
    var work: array<byte>
    var out: array<byte>
    var passThrough: bool
    /** The forms the secrets hold, and the arrays they hold them in. */
    ghost var forms: seq<Form>
    ghost var values: set<array<byte>>
    /** The stream so far, on values. */
    ghost var stream: Stream
    /** Every scratch array this writer has let go of. */
    ghost var retired: set<array<byte>>

    ghost predicate Scratch()
      reads this, holdover, work, out, retired
    {
      && holdover != work && holdover != out && work != out
      && holdover !in retired && work !in retired && out !in retired
      && Zero(work) && Zero(out)
      && ZeroFrom(holdover, holdLen)
      && (forall a :: a in retired ==> Zero(a))
    }

    ghost predicate Valid()
      reads this, holdover, work, out, retired, values, if patterns == null then {} else {patterns}
    {
      && Scratch()
      && (secrets != [] ==> patterns != null)
      && (patterns != null ==> patterns.Counts(this))
      && |secrets| == |forms|
      && Registered(forms) && Tables(secrets, candidates, maxLen, forms, values)
      && values !! Owned()
      && stream.base <= |stream.input| && Shows(holdover, holdLen, stream.input, stream.base)
      && (passThrough || secrets == [] ==> holdLen == 0)
    }

    /** Without anything held over, every scratch array is clean. */
    lemma AllWiped()
      requires Valid() && holdLen == 0
      ensures AllZero(Owned())
    {
      NothingHeld(holdover);
    }

    lemma Sized()
      requires Valid()
      ensures |secrets| == |forms| && values !! Owned()
      ensures stream.base <= |stream.input| && (passThrough || secrets == [] || holdLen == 0 ==> stream.base == |stream.input|)
    {
    }

    ghost function State(): Pipe
      reads this, w
    {
      Pipe(stream, passThrough, w.State())
    }

    ghost function Arrays(): set<array<byte>>
      reads this
    {
      {holdover, work, out}
    }

    /** Every scratch array this writer has or had. */
    ghost function Owned(): set<array<byte>>
      reads this
    {
      Arrays() + retired
    }

    /** At the start nothing was let go of, so the scratch arrays are all there is to keep apart. */
    lemma Starts()
      requires retired == {} && holdover !in values && work !in values && out !in values
      ensures values !! Owned()
    {
    }

    twostate lemma ScratchStays()
      requires old(Scratch())
      requires holdover == old(holdover) && work == old(work) && out == old(out)
      requires holdLen == old(holdLen) && retired == old(retired)
      requires unchanged(old(holdover), old(work), old(out), old(retired))
      ensures Scratch()
    {
      hide Zero, ZeroFrom;
    }

    /** A writer is as ready as before when only the users of its patterns changed, and still count it. */
    twostate lemma StaysReady()
      requires old(Valid())
      requires unchanged(this, old(holdover), old(work), old(out), old(retired), old(values)) && (patterns != null ==> patterns.Counts(this))
      ensures Valid()
    {
      hide Tables, Registered, Zero, ZeroFrom, Shows;
    }

    constructor (w: CappedWriter, wired: bool, named: seq<NamedSecret>)
      requires forall s, v :: s in named && v in s.forms ==> v != []
      ensures Valid() && fresh(Arrays()) && retired == {} && fresh(values)
      ensures this.w == w && this.wired == wired && forms == Distinct(AllForms(named))
      ensures stream == START && !passThrough && holdLen == 0
      ensures patterns != null && fresh(patterns) && patterns.refs == 1 && patterns.users == {this}
      ensures forall x: array<byte> :: fresh(x) ==> x in values || Zero(x)
    {
      hide Tables, Registered, Zero, ZeroFrom, Shows, AllForms, Distinct, ValuesOf, RedactingWriter.Owned;
      this.w, this.wired := w, wired;
      ghost var registered, arrays;
      var table, index, longest;
      table, index, longest, registered, arrays := Register(named);
      secrets, candidates, maxLen, forms, values := table, index, longest, registered, arrays;
      var p := new Patterns();
      var a, b, c := NewScratch();
      assert a !in arrays && b !in arrays && c !in arrays;
      patterns, holdover, work, out := p, a, b, c;
      holdLen, passThrough, stream, retired := 0, false, START, {};
      new;
      patterns.users := {this};
      assert |{this}| == 1;
      HeldIn(secrets, candidates, maxLen, forms, values);
      Starts();
    }

    /** The second of a pair: shares the first one's tables and patterns. */
    constructor Second(w: CappedWriter, wired: bool, first: RedactingWriter)
      requires first.Valid() && first.patterns != null
      modifies first.patterns
      ensures Valid() && fresh(Arrays()) && retired == {}
      ensures this.w == w && this.wired == wired && secrets == first.secrets && forms == first.forms && values == first.values
      ensures stream == START && !passThrough && holdLen == 0
      ensures patterns == first.patterns && first.Valid()
      ensures patterns.refs == old(first.patterns.refs) + 1 && patterns.users == old(first.patterns.users) + {this}
      ensures forall x: array<byte> :: fresh(x) ==> Zero(x)
    {
      hide Tables, Registered, Zero, ZeroFrom, Shows, AllForms, Distinct, RedactingWriter.Owned;
      this.w, this.wired := w, wired;
      secrets, candidates, maxLen, patterns := first.secrets, first.candidates, first.maxLen, first.patterns;
      forms, values := first.forms, first.values;
      var a, b, c := NewScratch();
      holdover, work, out := a, b, c;
      holdLen, passThrough, stream, retired := 0, false, START, {};
      new;
      patterns.Join(this);
      first.StaysReady();
      Starts();
    }

    /** One turn of the scan at position i: what is appended, and whether the rest is held over. */
    method ScanAt(buf: array<byte>, len: nat, finalize: bool, i: nat, emitUpTo: nat, o: array<byte>, n: nat,
                  ghost s: bytes, ghost base: nat)
      returns (o': array<byte>, n': nat, emitUpTo': nat, hold: bool)
      requires Registered(forms) && Tables(secrets, candidates, maxLen, forms, values) && o !in values
      requires i < len && Shows(buf, len, s, base) && n <= o.Length && buf != o
      modifies o
      ensures hold == HoldsAt(forms, s, finalize, base + i, base + emitUpTo)
      ensures hold ==> o' == o && n' == n && Text(o, n) == old(Text(o, n))
      ensures !hold ==> base + emitUpTo' == NextCover(forms, s, base + i, base + emitUpTo)
      ensures n' <= o'.Length
      ensures !hold ==> Text(o', n') == old(Text(o, n)) + TextAt(forms, s, base + i, base + emitUpTo)
      ensures o' != o ==> fresh(o') && Zero(o)
      ensures forall x: array<byte> :: fresh(x) ==> x == o' || Zero(x)
    {
      hide Best, Scan, Registered, Tables, Partial, OPEN, CLOSE, Shows, Text, Zero, SpellsAll, Bucket;
      ShowsAt(buf, len, s, base, i);
      assert Text(o, n) + [] == Text(o, n);
      Lookup(secrets, candidates, maxLen, forms, values, buf[i..len]);
      o', n', emitUpTo', hold := o, n, emitUpTo, false;
      ghost var bucket := Bucket(forms, buf[i]);
      var cands := candidates[buf[i] as int];
      var bestLen, bestName := LongestCandidate(cands, buf, len, i, bucket, values);
      if bestLen > 0 {
        o', n' := AppendToken(o', n', bestName);
        if i + bestLen > emitUpTo {
          emitUpTo' := i + bestLen;
        }
        return;
      }
      if i < emitUpTo {
        return;
      }
      if !finalize && len - i < maxLen {
        hold := AnyPartial(cands, buf, len, i, bucket, values);
        if hold {
          return;
        }
      }
      o', n' := AppendOutput(o', n', buf[i..i + 1]);
    }

    /** Walks buf[..len], which holds s from base on, up to position i where the scan stops. */
    method ScanLoop(buf: array<byte>, len: nat, finalize: bool, ghost s: bytes, ghost base: nat)
      returns (o: array<byte>, n: nat, i: nat)
      requires Registered(forms) && Tables(secrets, candidates, maxLen, forms, values) && out !in values
      requires Shows(buf, len, s, base) && buf != out
      modifies out
      ensures n <= o.Length && i <= len
      ensures ScanResultIs(Scan(forms, s, finalize, base, base), Text(o, n), base + i)
      ensures o != out ==> fresh(o) && Zero(out)
      ensures forall x: array<byte> :: fresh(x) ==> x == o || Zero(x)
    {
      hide Best, Scan, Render, Registered, Tables, Partial, NextCover, TextAt, HoldsAt, Zero, Shows, Pending, Text;
      ShowsLength(buf, len, s, base);
      ghost var result := Scan(forms, s, finalize, base, base);
      Begin(result);
      o := Resize(out, len);
      n := 0;
      Nothing(o);
      var emitUpTo := 0;
      i := 0;
      while i < len
        invariant 0 <= i <= len && base + len == |s| && Shows(buf, len, s, base)
        invariant n <= o.Length && o != buf
        invariant o != out ==> fresh(o) && Zero(out)
        invariant forall x: array<byte> :: fresh(x) ==> x == o || Zero(x)
        invariant Tables(secrets, candidates, maxLen, forms, values) && o !in values
        invariant Pending(result, Text(o, n), Scan(forms, s, finalize, base + i, base + emitUpTo))
      {
        ghost var p, e, text := base + i, base + emitUpTo, Text(o, n);
        var partial;
        o, n, emitUpTo, partial := ScanAt(buf, len, finalize, i, emitUpTo, o, n, s, base);
        if partial {
          Settle(forms, s, finalize, p, e, result, text);
          return;
        }
        Advance(forms, s, finalize, p, e, result, text);
        i := i + 1;
      }
      Settle(forms, s, finalize, base + i, base + emitUpTo, result, Text(o, n));
    }

    /** The scan: output in this.out or its replacement, holdover in this.holdover or its replacement. */
    method ScanBuffer(buf: array<byte>, len: nat, finalize: bool, ghost s: bytes, ghost base: nat)
      returns (o: array<byte>, n: nat, hold: array<byte>, h: nat)
      requires Registered(forms) && Tables(secrets, candidates, maxLen, forms, values) && out !in values
      requires Shows(buf, len, s, base)
      requires buf != out && holdover != out && (buf == holdover ==> finalize)
      modifies out, holdover
      ensures n <= o.Length && h <= |s|
      ensures ScanResultIs(Scan(forms, s, finalize, base, base), Text(o, n), |s| - h)
      ensures Shows(hold, h, s, |s| - h)
      ensures o != hold && o != buf && hold != out && o != holdover
      ensures o != out ==> fresh(o) && Zero(out)
      ensures hold != holdover ==> fresh(hold) && Zero(holdover)
      ensures finalize ==> hold == holdover && h == 0 && unchanged(holdover)
      ensures old(Zero(holdover)) ==> ZeroFrom(hold, h)
      ensures forall x: array<byte> :: fresh(x) ==> x == o || x == hold || Zero(x)
    {
      hide Tables, Registered, Scan, Render;
      var i;
      o, n, i := ScanLoop(buf, len, finalize, s, base);
      if finalize {
        FinalStop(forms, s, base, base);
      }
      hold, h := holdover, 0;
      if i < len {
        hold, h := HoldOver(buf, len, i);
      }
    }

    method HoldOver(buf: array<byte>, len: nat, i: nat) returns (hold: array<byte>, h: nat)
      requires i < len <= buf.Length && buf != holdover
      modifies holdover
      ensures h == len - i <= hold.Length && hold[..h] == buf[i..len]
      ensures hold != holdover ==> fresh(hold) && Zero(holdover)
      ensures old(Zero(holdover)) ==> ZeroFrom(hold, h)
      ensures forall x: array<byte> :: fresh(x) ==> x == hold || Zero(x)
    {
      hold := Resize(holdover, len - i);
      h := len - i;
      CopyInto(hold, 0, buf[i..len]);
    }

    /** Gives up the holdover once the downstream drops bytes anyway. */
    method EnterPassThrough()
      requires Valid()
      modifies this`passThrough, this`holdover, this`holdLen, this`stream, holdover
      ensures Valid() && passThrough && holdLen == 0
      ensures stream == Abandon(old(stream))
      ensures holdover != old(holdover) ==> fresh(holdover) && Zero(old(holdover))
      ensures forall x: array<byte> :: fresh(x) ==> x == holdover || Zero(x)
    {
      hide Tables, Registered, Patterns.Counts, Zero, ZeroFrom;
      passThrough := true;
      if holdLen > 0 {
        WipeFront(holdover, holdLen);
        var empty := Make(0);
        NothingHeld(empty);
        holdover := empty;
        holdLen := 0;
      }
      stream := Abandon(stream);
    }

    /** work := holdover + p, then the holdover's whole array is wiped. */
    method Assemble(p: bytes) returns (len: nat)
      requires Valid()
      modifies this`work, work, holdover
      ensures Scratch0() && Zero(holdover)
      ensures ZeroFrom(work, len)
      ensures len == holdLen + |p| && Shows(work, len, stream.input + p, stream.base)
      ensures work != old(work) ==> fresh(work) && Zero(old(work))
      ensures forall x: array<byte> :: fresh(x) ==> x == work || Zero(x)
    {
      hide Registered, Tables, Zero, ZeroFrom, Shows, Text;
      len := holdLen + |p|;
      ShowsText(holdover, holdLen, stream.input, stream.base);
      work := Gather(work, holdover, holdLen, p);
      TextShows(work, len, stream.input, p, stream.base);
    }

    /** The arrays are apart, the output array is clean, and so is every array let go of. */
    ghost predicate Scratch0()
      reads this, holdover, work, out, retired
    {
      && holdover != work && holdover != out && work != out
      && holdover !in retired && work !in retired && out !in retired
      && Zero(out)
      && (forall a :: a in retired ==> Zero(a))
    }

    /** Scans work[..len]; afterwards work is clean and the holdover holds the unscanned rest. */
    method ScanWork(len: nat, ghost s: bytes, ghost base: nat) returns (n: nat)
      requires Registered(forms) && Tables(secrets, candidates, maxLen, forms, values) && values !! Owned()
      requires Scratch0() && Zero(holdover) && Shows(work, len, s, base)
      requires ZeroFrom(work, len)
      modifies this`holdover, this`holdLen, this`out, work, holdover, out
      ensures Scratch1() && n <= out.Length
      ensures ScanResultIs(Scan(forms, s, false, base, base), Text(out, n), |s| - holdLen)
      ensures holdLen <= |s| && Shows(holdover, holdLen, s, |s| - holdLen)
      ensures holdover != old(holdover) ==> fresh(holdover) && Zero(old(holdover))
      ensures out != old(out) ==> fresh(out) && Zero(old(out))
      ensures forall x: array<byte> :: fresh(x) ==> x == holdover || x == out || Zero(x)
    {
      hide Registered, Tables, Scan, Render, Zero, ZeroFrom, Shows, Text, ScanResultIs;
      var o, m, hold, h := ScanBuffer(work, len, false, s, base);
      holdover, holdLen := hold, h;
      WipeFront(work, len);
      out := o;
      n := m;
    }

    /** As Scratch, while the output array still holds output. */
    ghost predicate Scratch1()
      reads this, holdover, work, out, retired
    {
      && holdover != work && holdover != out && work != out
      && holdover !in retired && work !in retired && out !in retired
      && Zero(work)
      && ZeroFrom(holdover, holdLen)
      && (forall a :: a in retired ==> Zero(a))
    }

    /** Hands the scan's output down, then wipes the output array whatever the answer was. */
    method Forward(n: nat, reply: Reply) returns (failed: bool)
      requires n <= out.Length
      modifies w, out
      ensures Zero(out)
      ensures w.State() == CapPut(old(w.State()), old(Text(out, n)), reply)
      ensures failed == PutFails(old(w.State()), old(Text(out, n)), reply)
      ensures forall x: array<byte> :: fresh(x) ==> Zero(x)
    {
      failed := false;
      if n > 0 {
        var taken;
        taken, failed := w.Write(out[..n], reply);
      }
      WipeAll(out);
    }

    /** Holdover and p are scanned; the output array holds what is settled. */
    method Refill(p: bytes) returns (n: nat)
      requires Valid() && p != []
      modifies this`holdover, this`holdLen, this`work, this`out, this`stream, holdover, work, out
      ensures Scratch1() && n <= out.Length
      ensures stream == Feed(forms, old(stream), p)
      ensures Text(out, n) == Emitted(forms, old(stream), p)
      ensures stream.base <= |stream.input| && Shows(holdover, holdLen, stream.input, stream.base)
      ensures holdover != old(holdover) ==> fresh(holdover) && Zero(old(holdover))
      ensures work != old(work) ==> fresh(work) && Zero(old(work))
      ensures out != old(out) ==> fresh(out) && Zero(old(out))
      ensures forall x: array<byte> :: fresh(x) ==> x == holdover || x == work || x == out || Zero(x)
    {
      hide Registered, Tables, Scan, Render, Feed, Zero, Shows, Text, Emitted;
      WriteScans(forms, stream, p);
      var len := Assemble(p);
      n := ScanWork(len, stream.input + p, stream.base);
      stream := Feed(forms, stream, p);
    }

    /** The redacting half of Write. */
    method WriteScanned(p: bytes, reply: Reply) returns (failed: bool)
      requires Valid() && !passThrough && secrets != [] && p != []
      modifies this`holdover, this`holdLen, this`work, this`out, this`stream, w, holdover, work, out
      ensures Valid() && stream == Feed(forms, old(stream), p)
      ensures w.State() == CapPut(old(w.State()), Emitted(forms, old(stream), p), reply)
      ensures failed == PutFails(old(w.State()), Emitted(forms, old(stream), p), reply)
      ensures holdover != old(holdover) ==> fresh(holdover) && Zero(old(holdover))
      ensures work != old(work) ==> fresh(work) && Zero(old(work))
      ensures out != old(out) ==> fresh(out) && Zero(old(out))
      ensures forall x: array<byte> :: fresh(x) ==> x == holdover || x == work || x == out || Zero(x)
    {
      hide Registered, Tables, Scan, Render, Feed, Zero, CapWrite, CapPut, PutFails, Shows, Text, Emitted;
      var m := Refill(p);
      failed := Forward(m, reply);
    }

    /** Records arrays that were let go of on the way. */
    ghost method Retire(more: set<array<byte>>)
      requires Valid() && more !! Arrays() && more !! values && forall a :: a in more ==> Zero(a)
      modifies this`retired
      ensures Valid() && retired == old(retired) + more
      ensures forall x: array<byte> :: fresh(x) ==> x in more
    {
      hide Tables, Registered, Zero, ZeroFrom, Shows, Patterns.Counts;
      retired := retired + more;
    }

    /** With no forms the stream takes p as it comes. */
    ghost method Consume(p: bytes)
      requires Valid() && secrets == []
      modifies this`stream
      ensures Valid() && stream == Feed(forms, old(stream), p)
      ensures forall x: array<byte> :: fresh(x) ==> Zero(x)
    {
      hide Tables, Registered, Zero, ZeroFrom;
      NoFormsFeed(stream, p);
      stream := Feed(forms, stream, p);
    }

    /** Write, except for the record of the arrays it let go of. */
    method Handle(p: bytes, reply: Reply) returns (n: nat, failed: bool)
      requires Valid() && p != []
      modifies this`passThrough, this`holdover, this`holdLen, this`work, this`out, this`stream
      modifies w, holdover, work, out
      ensures Valid()
      ensures State() == PipeWrite(forms, wired, old(State()), p, reply)
      ensures (n, failed) == PipeAnswer(forms, wired, old(State()), p, reply)
      ensures holdover != old(holdover) ==> fresh(holdover) && Zero(old(holdover))
      ensures work != old(work) ==> fresh(work) && Zero(old(work))
      ensures out != old(out) ==> fresh(out) && Zero(old(out))
      ensures forall x: array<byte> :: fresh(x) ==> x == holdover || x == work || x == out || Zero(x)
    {
      hide Registered, Tables, Feed, Zero, CapWrite, CapPut, PutFails, Emitted, RedactingWriter.Valid;
      Sized();
      if |secrets| == 0 {
        Consume(p);
        n, failed := w.Write(p, reply);
        return;
      }
      if !passThrough && wired && w.truncated {
        EnterPassThrough();
      }
      if passThrough {
        n, failed := w.Write(p, reply);
        return;
      }
      failed := WriteScanned(p, reply);
      return |p|, failed;
    }

    method Write(p: bytes, reply: Reply) returns (n: nat, failed: bool)
      requires Valid()
      modifies this`passThrough, this`holdover, this`holdLen, this`work, this`out, this`stream, this`retired
      modifies w, holdover, work, out
      ensures Valid()
      ensures State() == PipeWrite(forms, wired, old(State()), p, reply)
      ensures (n, failed) == PipeAnswer(forms, wired, old(State()), p, reply)
      ensures reply.Taken? ==> n == |p| && !failed
      ensures old(Owned()) <= Owned() && forall x :: x in Owned() ==> x in old(Owned()) || fresh(x)
      ensures forall x :: x in Arrays() ==> x in old(Arrays()) || fresh(x)
      ensures forall x: array<byte> :: fresh(x) ==> x in Owned()
    {
      hide Zero, PipeWrite, PipeAnswer, RedactingWriter.Valid;
      Sized();
      TakenInFull(forms, wired, State(), p);
      if |p| == 0 {
        EmptyWrite(forms, wired, State(), reply);
        return 0, false;
      }
      n, failed := Handle(p, reply);
      Retire(set x: array<byte> | (x in old(Arrays()) || (fresh(x) && Zero(x))) && x !in Arrays());
    }

    /** The finalizing scan of the holdover, which is wiped afterwards. */
    method ScanHeld(ghost s: bytes, ghost base: nat) returns (n: nat)
      requires Registered(forms) && Tables(secrets, candidates, maxLen, forms, values) && values !! Owned()
      requires Scratch() && Shows(holdover, holdLen, s, base)
      modifies this`holdLen, this`out, holdover, out
      ensures Scratch1() && n <= out.Length && holdLen == 0
      ensures Text(out, n) == Render(Scan(forms, s, true, base, base).out)
      ensures out != old(out) ==> fresh(out) && Zero(old(out))
      ensures forall x: array<byte> :: fresh(x) ==> x == out || Zero(x)
    {
      hide Registered, Tables, Scan, Render, Text;
      var o, m, hold, h := ScanBuffer(holdover, holdLen, true, s, base);
      WipeAll(holdover);
      holdLen := 0;
      out := o;
      n := m;
    }

    method FlushHeld(reply: Reply) returns (failed: bool)
      requires Valid()
      modifies this`holdLen, this`out, this`stream, w, holdover, out
      ensures Valid() && holdLen == 0
      ensures State() == PipeFlush(forms, old(State()), reply)
      ensures failed == PutFails(old(w.State()), Render(Scan(forms, old(stream.input), true, old(stream.base), old(stream.base)).out), reply)
      ensures out != old(out) ==> fresh(out) && Zero(old(out))
      ensures forall x: array<byte> :: fresh(x) ==> x == out || Zero(x)
    {
      hide Registered, Tables, Scan, Render, Zero, CapWrite, PutFails, Text;
      FlushScans(forms, stream, reply);
      var n := ScanHeld(stream.input, stream.base);
      stream := Stream(stream.input, |stream.input|, Finish(forms, stream));
      failed := Forward(n, reply);
      NothingHeld(holdover);
    }

    method Flush(reply: Reply) returns (failed: bool)
      requires Valid()
      modifies this`holdLen, this`out, this`stream, this`retired, w, holdover, out
      ensures Valid() && holdLen == 0
      ensures State() == PipeFlush(forms, old(State()), reply)
      ensures failed == PutFails(old(w.State()), Render(Scan(forms, old(stream.input), true, old(stream.base), old(stream.base)).out), reply)
      ensures failed ==> reply.Failed? && old(w.remaining) > 0
      ensures old(Owned()) <= Owned() && forall x :: x in Owned() ==> x in old(Owned()) || fresh(x)
      ensures forall x :: x in Arrays() ==> x in old(Arrays()) || fresh(x)
      ensures forall x: array<byte> :: fresh(x) ==> x in Owned()
    {
      hide Zero, Scan, Render, PutFails, RedactingWriter.Valid;
      Sized();
      PutFailsExactly(w.State(), Render(Scan(forms, stream.input, true, stream.base, stream.base).out), reply);
      FlushScans(forms, stream, reply);
      if holdLen == 0 {
        return false;
      }
      failed := FlushHeld(reply);
      Retire(set x: array<byte> | (x in old(Arrays()) || (fresh(x) && Zero(x))) && x !in Arrays());
    }

    /** Leaves the patterns to their other users; the last one wipes their bytes. */
    method LeavePatterns()
      requires Valid()
      modifies this`patterns, this`secrets, this`candidates, this`forms, this`values
      modifies values, if patterns == null then {} else {patterns}
      ensures Scratch() && secrets == [] && forms == [] && values == {} && patterns == null
      ensures Registered([]) && Tables([], candidates, maxLen, [], {})
      ensures old(patterns) != null ==>
        && old(patterns).users == old(patterns.users) - {this}
        && old(patterns).refs == |old(patterns).users|
        && (old(patterns).users == {} ==> forall a :: a in old(values) ==> Zero(a))
        && (old(patterns).users != {} ==> unchanged(old(values)))
      ensures forall x: array<byte> :: fresh(x) ==> Zero(x)
    {
      hide Registered, Tables, Zero, ZeroFrom, Shows, ValuesOf, RedactingWriter.Scratch;
      assert holdover !in values && work !in values && out !in values && retired !! values;
      if patterns != null {
        HeldIn(secrets, candidates, maxLen, forms, values);
        patterns.Leave(secrets, this, values);
      }
      patterns := null;
      secrets, forms, values := [], [], {};
      candidates := EmptyIndex();
      ScratchStays();
    }

    /**
     Leaves the patterns to the other users and lets go of the scratch arrays; the last user
     wipes the patterns' bytes.
     */
    method Destroy()
      requires Valid()
      modifies this, holdover, work, out, values, if patterns == null then {} else {patterns}
      ensures Valid() && secrets == [] && forms == [] && values == {} && patterns == null && holdLen == 0
      ensures stream == Abandon(old(stream))
      ensures fresh(Arrays()) && old(Owned()) <= retired && forall x :: x in Owned() ==> x in old(Owned()) || fresh(x)
      ensures forall x: array<byte> :: fresh(x) ==> x in Owned()
      ensures old(patterns) != null ==>
        && old(patterns).users == old(patterns.users) - {this}
        && old(patterns).refs == |old(patterns).users|
        && (old(patterns).users == {} ==> forall a :: a in old(values) ==> Zero(a))
        && (old(patterns).users != {} ==> unchanged(old(values)))
    {
      hide Zero, Patterns.Counts, RedactingWriter.Valid;
      DropAll();
      ghost var more := set x: array<byte> | (x in old(Arrays()) || (fresh(x) && Zero(x))) && x !in Arrays();
      assert forall x :: x in more ==> Zero(x);
      Retire(more);
    }

    /** Destroy, except for the record of the arrays it let go of. */
    method DropAll()
      requires Valid()
      modifies this, holdover, work, out, values, if patterns == null then {} else {patterns}
      ensures Valid() && secrets == [] && forms == [] && values == {} && patterns == null && holdLen == 0
      ensures stream == Abandon(old(stream)) && retired == old(retired)
      ensures fresh(holdover) && fresh(work) && fresh(out)
      ensures Zero(old(holdover)) && Zero(old(work)) && Zero(old(out))
      ensures forall x: array<byte> :: fresh(x) ==> Zero(x)
      ensures old(patterns) != null ==>
        && old(patterns).users == old(patterns.users) - {this}
        && old(patterns).refs == |old(patterns).users|
        && (old(patterns).users == {} ==> forall a :: a in old(values) ==> Zero(a))
        && (old(patterns).users != {} ==> unchanged(old(values)))
    {
      hide Registered, Tables, Zero, ZeroFrom;
      LeavePatterns();
      DropScratch();
      stream := Abandon(stream);
    }

    /** Wipes the three scratch arrays over their whole capacity and lets them go. */
    method DropScratch()
      requires Scratch()
      modifies this`holdover, this`work, this`out, this`holdLen, holdover, work, out
      ensures Scratch() && holdLen == 0 && fresh(holdover) && fresh(work) && fresh(out) && Shows(holdover, 0, [], 0)
      ensures Zero(old(holdover)) && Zero(old(work)) && Zero(old(out)) && Zero(holdover)
      ensures forall x: array<byte> :: fresh(x) ==> Zero(x)
    {
      hide Zero;
      WipeAll(holdover);
      WipeAll(work);
      WipeAll(out);
      var a, b, c := NewScratch();
      holdover, work, out := a, b, c;
      holdLen := 0;
    }
  }

  lemma EmptyWrite(forms: seq<Form>, wired: bool, pipe: Pipe, reply: Reply)
    requires pipe.Valid()
    ensures PipeWrite(forms, wired, pipe, [], reply) == pipe && PipeAnswer(forms, wired, pipe, [], reply) == (0, false)
  {
  }

  lemma NoFormsFeed(st: Stream, p: bytes)
    requires st.base == |st.input|
    ensures var r := Feed([], st, p); r.base == |r.input|
  {
    NoFormsScan(st.input + p, false, st.base);
  }

  lemma WriteScans(forms: seq<Form>, st: Stream, p: bytes)
    requires st.base <= |st.input| && p != []
    ensures var s := st.input + p;
      var r := Scan(forms, s, false, st.base, st.base);
      Feed(forms, st, p) == Stream(s, r.stop, st.trace + r.out) && Emitted(forms, st, p) == Render(r.out)
  {
    var r := Scan(forms, st.input + p, false, st.base, st.base);
    assert (st.trace + r.out)[|st.trace|..] == r.out;
  }

  lemma FlushScans(forms: seq<Form>, st: Stream, reply: Reply)
    requires st.base <= |st.input|
    ensures Render([]) == []
    ensures st.base == |st.input| ==> Scan(forms, st.input, true, st.base, st.base).out == []
    ensures forall c :: !PutFails(c, [], reply)
  {
  }
}
