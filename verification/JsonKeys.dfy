/**
 Duplicate-key detection over a stream of JSON tokens.

 The stream is what is left for the decoder to hand out: a bad item stands for
 any syntax error, and the end of the stream for the end of the input.
 */
module JsonKeys {
  import opened ByteStrings

  datatype Token = OpenObject | CloseObject | OpenArray | CloseArray | Text(text: string) | Scalar | Bad

  type Stream = seq<Token>

  /** A JSON value, a list of array elements and a list of object members. */
  datatype Value = Leaf(token: Token) | Array(elements: Elements) | Object(members: Members)

  datatype Elements = NoElements | Element(head: Value, tail: Elements)

  datatype Members = NoMembers | Member(key: string, value: Value, rest: Members)

  predicate Plain(v: Value) {
    match v
    case Leaf(t) => t.Text? || t.Scalar?
    case Array(es) => PlainElements(es)
    case Object(ms) => PlainMembers(ms)
  }

  predicate PlainElements(es: Elements) {
    es.Element? ==> Plain(es.head) && PlainElements(es.tail)
  }

  predicate PlainMembers(ms: Members) {
    ms.Member? ==> Plain(ms.value) && PlainMembers(ms.rest)
  }

  function Tokens(v: Value): Stream {
    match v
    case Leaf(t) => [t]
    case Array(es) => [OpenArray] + ElementTokens(es) + [CloseArray]
    case Object(ms) => [OpenObject] + MemberTokens(ms) + [CloseObject]
  }

  function ElementTokens(es: Elements): Stream {
    if es.NoElements? then [] else Tokens(es.head) + ElementTokens(es.tail)
  }

  function MemberTokens(ms: Members): Stream {
    if ms.NoMembers? then [] else [Text(ms.key)] + Tokens(ms.value) + MemberTokens(ms.rest)
  }

  function Keys(ms: Members, lower: string -> string): seq<string> {
    if ms.NoMembers? then [] else [lower(ms.key)] + Keys(ms.rest, lower)
  }

  predicate Distinct(keys: seq<string>) {
    forall i, j :: 0 <= i < j < |keys| ==> keys[i] != keys[j]
  }

  /** No object at any depth has two keys that agree after lowering. */
  predicate Unambiguous(v: Value, lower: string -> string) {
    match v
    case Leaf(_) => true
    case Array(es) => UnambiguousElements(es, lower)
    case Object(ms) => Distinct(Keys(ms, lower)) && UnambiguousMembers(ms, lower)
  }

  predicate UnambiguousElements(es: Elements, lower: string -> string) {
    es.Element? ==> Unambiguous(es.head, lower) && UnambiguousElements(es.tail, lower)
  }

  predicate UnambiguousMembers(ms: Members, lower: string -> string) {
    ms.Member? ==> Unambiguous(ms.value, lower) && UnambiguousMembers(ms.rest, lower)
  }

  /** Another element or member follows, as far as the next token shows. */
  predicate HasMore(ts: Stream) {
    ts != [] && !ts[0].CloseObject? && !ts[0].CloseArray?
  }

  /** The checker as a function: what is left of the stream when it accepts. */
  function Check(ts: Stream, lower: string -> string): (left: Option<Stream>)
    ensures left.Some? ==> |left.value| < |ts|
    decreases |ts|, 1
  {
    if ts == [] then None
    else match ts[0]
      case OpenObject => CheckMembers(ts[1..], {}, lower)
      case OpenArray => CheckElements(ts[1..], lower)
      case Text(_) => Some(ts[1..])
      case Scalar => Some(ts[1..])
      case _ => None
  }

  function CheckElements(ts: Stream, lower: string -> string): (left: Option<Stream>)
    ensures left.Some? ==> |left.value| < |ts|
    decreases |ts|, 2
  {
    if HasMore(ts) then
      var next := Check(ts, lower);
      if next.None? then None else CheckElements(next.value, lower)
    else if ts != [] && ts[0] == CloseArray then Some(ts[1..]) else None
  }

  function CheckMembers(ts: Stream, seen: set<string>, lower: string -> string): (left: Option<Stream>)
    ensures left.Some? ==> |left.value| < |ts|
    decreases |ts|, 2
  {
    if HasMore(ts) then
      if !ts[0].Text? || lower(ts[0].text) in seen then None
      else
        var next := Check(ts[1..], lower);
        if next.None? then None else CheckMembers(next.value, seen + {lower(ts[0].text)}, lower)
    else if ts != [] && ts[0] == CloseObject then Some(ts[1..]) else None
  }

  lemma TokensStart(v: Value)
    requires Plain(v)
    ensures HasMore(Tokens(v))
  {}

  predicate Fresh(keys: seq<string>, seen: set<string>) {
    Distinct(keys) && forall k :: k in keys ==> k !in seen
  }

  lemma FreshStep(k: string, keys: seq<string>, seen: set<string>)
    ensures Fresh([k] + keys, seen) <==> k !in seen && Fresh(keys, seen + {k})
  {
    var all := [k] + keys;
    assert forall i :: 0 <= i < |keys| ==> all[i + 1] == keys[i];
    if Fresh(all, seen) {
      assert all[0] == k;
      forall x | x in keys ensures x !in seen + {k} {
        var i :| 0 <= i < |keys| && keys[i] == x;
        assert all[i + 1] == x && all[0] != all[i + 1];
      }
      assert forall i, j :: 0 <= i < j < |keys| ==> keys[i] != keys[j] by {
        forall i, j | 0 <= i < j < |keys| ensures keys[i] != keys[j] {
          assert all[i + 1] != all[j + 1];
        }
      }
    } else if k !in seen && Fresh(keys, seen + {k}) {
      forall i, j | 0 <= i < j < |all| ensures all[i] != all[j] {
        assert all[j] == keys[j - 1] && keys[j - 1] in keys;
        if i > 0 {
          assert keys[i - 1] != keys[j - 1];
        }
      }
      assert false;
    }
  }

  /**
   On the tokens of any value followed by anything, the checker stops right after
   the value, and accepts it exactly when the value is unambiguous.
   */
  lemma {:induction false} CheckDecides(v: Value, after: Stream, lower: string -> string)
    requires Plain(v)
    ensures Check(Tokens(v) + after, lower) == if Unambiguous(v, lower) then Some(after) else None
    decreases v, 0
  {
    var ts := Tokens(v) + after;
    match v
    case Leaf(t) =>
      assert ts[1..] == after;
    case Array(es) =>
      assert ts[1..] == ElementTokens(es) + ([CloseArray] + after);
      ElementsDecide(es, after, lower);
    case Object(ms) =>
      assert ts[1..] == MemberTokens(ms) + ([CloseObject] + after);
      MembersDecide(ms, {}, after, lower);
  }

  lemma {:induction false} ElementsDecide(es: Elements, after: Stream, lower: string -> string)
    requires PlainElements(es)
    ensures CheckElements(ElementTokens(es) + ([CloseArray] + after), lower)
         == if UnambiguousElements(es, lower) then Some(after) else None
    decreases es, 1
  {
    var close := [CloseArray] + after;
    var ts := ElementTokens(es) + close;
    if es.NoElements? {
      assert ts == close && close[1..] == after;
    } else {
      var rest := ElementTokens(es.tail) + close;
      assert ts == Tokens(es.head) + rest;
      TokensStart(es.head);
      CheckDecides(es.head, rest, lower);
      ElementsDecide(es.tail, after, lower);
    }
  }

  lemma {:induction false} MembersDecide(ms: Members, seen: set<string>, after: Stream, lower: string -> string)
    requires PlainMembers(ms)
    ensures CheckMembers(MemberTokens(ms) + ([CloseObject] + after), seen, lower)
         == if Fresh(Keys(ms, lower), seen) && UnambiguousMembers(ms, lower) then Some(after) else None
    decreases ms, 1
  {
    var close := [CloseObject] + after;
    var ts := MemberTokens(ms) + close;
    if ms.NoMembers? {
      assert ts == close && close[1..] == after;
    } else {
      var rest := MemberTokens(ms.rest) + close;
      assert ts[1..] == Tokens(ms.value) + rest;
      var k := lower(ms.key);
      CheckDecides(ms.value, rest, lower);
      MembersDecide(ms.rest, seen + {k}, after, lower);
      FreshStep(k, Keys(ms.rest, lower), seen);
    }
  }

  /** And whatever it accepts is such a value: nothing else gets through. */
  lemma {:induction false} AcceptedIsValue(ts: Stream, lower: string -> string) returns (v: Value)
    requires Check(ts, lower).Some?
    ensures Plain(v) && Unambiguous(v, lower)
    ensures ts == Tokens(v) + Check(ts, lower).value
    decreases |ts|, 1
  {
    var after := Check(ts, lower).value;
    match ts[0]
    case OpenObject =>
      var ms := AcceptedIsMembers(ts[1..], {}, lower);
      v := Object(ms);
      Bracketed(ts, MemberTokens(ms), [CloseObject], after);
    case OpenArray =>
      var es := AcceptedIsElements(ts[1..], lower);
      v := Array(es);
      Bracketed(ts, ElementTokens(es), [CloseArray], after);
    case Text(_) =>
      v := Leaf(ts[0]);
    case Scalar =>
      v := Leaf(ts[0]);
  }

  lemma Bracketed(ts: Stream, inner: Stream, close: Stream, after: Stream)
    requires ts != [] && ts[1..] == inner + (close + after)
    ensures ts == [ts[0]] + inner + close + after
  {
    assert ts == [ts[0]] + ts[1..];
    assert inner + (close + after) == inner + close + after;
  }

  lemma MemberFirst(ts: Stream, value: Stream, rest: Stream, close: Stream)
    requires ts != [] && ts[1..] == value + (rest + close)
    ensures ts == ([ts[0]] + value + rest) + close
  {
    assert ts == [ts[0]] + ts[1..];
    assert value + (rest + close) == value + rest + close;
  }

  lemma ElementFirst(ts: Stream, value: Stream, rest: Stream, close: Stream)
    requires ts == value + (rest + close)
    ensures ts == (value + rest) + close
  {
  }

  lemma {:induction false} AcceptedIsElements(ts: Stream, lower: string -> string) returns (es: Elements)
    requires CheckElements(ts, lower).Some?
    ensures PlainElements(es) && UnambiguousElements(es, lower)
    ensures ts == ElementTokens(es) + ([CloseArray] + CheckElements(ts, lower).value)
    decreases |ts|, 2
  {
    hide Check;
    if HasMore(ts) {
      var left := Check(ts, lower).value;
      var v := AcceptedIsValue(ts, lower);
      var tail := AcceptedIsElements(left, lower);
      es := Element(v, tail);
      ElementFirst(ts, Tokens(v), ElementTokens(tail), [CloseArray] + CheckElements(left, lower).value);
    } else {
      es := NoElements;
    }
  }

  lemma {:induction false} AcceptedIsMembers(ts: Stream, seen: set<string>, lower: string -> string) returns (ms: Members)
    requires CheckMembers(ts, seen, lower).Some?
    ensures PlainMembers(ms) && UnambiguousMembers(ms, lower) && Fresh(Keys(ms, lower), seen)
    ensures ts == MemberTokens(ms) + ([CloseObject] + CheckMembers(ts, seen, lower).value)
    decreases |ts|, 2
  {
    hide Check, Fresh;
    if HasMore(ts) {
      var k := lower(ts[0].text);
      var left := Check(ts[1..], lower).value;
      var v := AcceptedIsValue(ts[1..], lower);
      var rest := AcceptedIsMembers(left, seen + {k}, lower);
      ms := Member(ts[0].text, v, rest);
      FreshStep(k, Keys(rest, lower), seen);
      MemberFirst(ts, Tokens(v), MemberTokens(rest), [CloseObject] + CheckMembers(left, seen + {k}, lower).value);
    } else {
      ms := NoMembers;
      NothingFresh(seen);
    }
  }

  lemma NothingFresh(seen: set<string>)
    ensures Fresh([], seen)
  {
  }

  /** Acceptance of an arbitrary stream, both ways. */
  lemma AcceptsExactlyUnambiguousValues(ts: Stream, after: Stream, lower: string -> string)
    ensures Check(ts, lower) == Some(after)
       <==> exists v :: Plain(v) && Unambiguous(v, lower) && ts == Tokens(v) + after
  {
    if Check(ts, lower) == Some(after) {
      var v := AcceptedIsValue(ts, lower);
    } else if v :| Plain(v) && Unambiguous(v, lower) && ts == Tokens(v) + after {
      CheckDecides(v, after, lower);
      assert false;
    }
  }

  // ---------------------------------------------------------------------------------------------
  // Against another reading of keys
  // ---------------------------------------------------------------------------------------------

  /** Keys that fold together also agree after lowering. */
  ghost predicate Covers(lower: string -> string, fold: string -> string) {
    forall a, b :: fold(a) == fold(b) ==> lower(a) == lower(b)
  }

  lemma {:induction false} KeysAt(ms: Members, lower: string -> string, fold: string -> string, i: nat, j: nat)
    requires i < j < |Keys(ms, fold)| && Covers(lower, fold) && Keys(ms, fold)[i] == Keys(ms, fold)[j]
    ensures |Keys(ms, lower)| == |Keys(ms, fold)| && Keys(ms, lower)[i] == Keys(ms, lower)[j]
  {
    KeyAt(ms, lower, i);
    KeyAt(ms, fold, i);
    KeyAt(ms, lower, j);
    KeyAt(ms, fold, j);
  }

  function Names(ms: Members): seq<string> {
    if ms.NoMembers? then [] else [ms.key] + Names(ms.rest)
  }

  lemma {:induction false} KeyAt(ms: Members, g: string -> string, i: nat)
    ensures |Keys(ms, g)| == |Names(ms)| && (i < |Names(ms)| ==> Keys(ms, g)[i] == g(Names(ms)[i]))
  {
    if ms.Member? {
      KeyAt(ms.rest, g, if i == 0 then 0 else i - 1);
    }
  }

  lemma {:induction false} CoveredValue(v: Value, lower: string -> string, fold: string -> string)
    requires Covers(lower, fold) && Unambiguous(v, lower)
    ensures Unambiguous(v, fold)
    decreases v, 0
  {
    match v
    case Leaf(_) =>
    case Array(es) => CoveredElements(es, lower, fold);
    case Object(ms) =>
      CoveredMembers(ms, lower, fold);
      if i, j :| 0 <= i < j < |Keys(ms, fold)| && Keys(ms, fold)[i] == Keys(ms, fold)[j] {
        KeysAt(ms, lower, fold, i, j);
        assert false;
      }
  }

  lemma {:induction false} CoveredElements(es: Elements, lower: string -> string, fold: string -> string)
    requires Covers(lower, fold) && UnambiguousElements(es, lower)
    ensures UnambiguousElements(es, fold)
    decreases es, 1
  {
    if es.Element? {
      CoveredValue(es.head, lower, fold);
      CoveredElements(es.tail, lower, fold);
    }
  }

  lemma {:induction false} CoveredMembers(ms: Members, lower: string -> string, fold: string -> string)
    requires Covers(lower, fold) && UnambiguousMembers(ms, lower)
    ensures UnambiguousMembers(ms, fold)
    decreases ms, 1
  {
    if ms.Member? {
      CoveredValue(ms.value, lower, fold);
      CoveredMembers(ms.rest, lower, fold);
    }
  }

  function TwoKeys(a: string, b: string): Value {
    Object(Member(a, Leaf(Scalar), Member(b, Leaf(Scalar), NoMembers)))
  }

  lemma TwoKeysAmbiguous(a: string, b: string, g: string -> string)
    ensures Plain(TwoKeys(a, b)) && (Unambiguous(TwoKeys(a, b), g) <==> g(a) != g(b))
  {
    var ms := TwoKeys(a, b).members;
    var last := ms.rest;
    assert PlainMembers(NoMembers) && PlainMembers(last) && PlainMembers(ms);
    assert Keys(last, g) == [g(b)] && Keys(ms, g) == [g(a), g(b)];
    assert UnambiguousMembers(last, g) && UnambiguousMembers(ms, g);
    assert Keys(ms, g)[0] == g(a) && Keys(ms, g)[1] == g(b);
  }

  /**
   What the checker accepts is unambiguous for a reader that folds keys in its own way, for every
   value, exactly if keys that fold together also agree after lowering.
   */
  lemma AcceptanceCoversExactly(lower: string -> string, fold: string -> string)
    ensures (forall v :: Plain(v) && Check(Tokens(v), lower) == Some([]) ==> Unambiguous(v, fold)) <==> Covers(lower, fold)
  {
    if Covers(lower, fold) {
      forall v | Plain(v) && Check(Tokens(v), lower) == Some([]) ensures Unambiguous(v, fold) {
        CheckWhole(v, lower);
        CoveredValue(v, lower, fold);
      }
    } else {
      var a, b :| fold(a) == fold(b) && lower(a) != lower(b);
      TwoKeysAmbiguous(a, b, lower);
      TwoKeysAmbiguous(a, b, fold);
      CheckWhole(TwoKeys(a, b), lower);
    }
  }

  lemma CheckWhole(v: Value, lower: string -> string)
    requires Plain(v)
    ensures Check(Tokens(v), lower) == if Unambiguous(v, lower) then Some([]) else None
  {
    CheckDecides(v, [], lower);
    assert Tokens(v) + [] == Tokens(v);
  }

  const LONG_S: char := '\U{017F}'

  /**
   The long s is a lower-case letter and folds with s: an object with the keys args and arg with a long s is
   accepted although a reader that folds case takes both for one.
   */
  lemma LongSIsAccepted(lower: string -> string, fold: string -> string)
    requires lower("args") == "args" && lower("arg" + [LONG_S]) == "arg" + [LONG_S]
    requires fold("args") == fold("arg" + [LONG_S])
    ensures var v := TwoKeys("args", "arg" + [LONG_S]);
      Plain(v) && Check(Tokens(v), lower) == Some([]) && !Unambiguous(v, fold)
  {
    var b := "arg" + [LONG_S];
    assert b[3] == LONG_S && "args"[3] == 's';
    TwoKeysAmbiguous("args", b, lower);
    TwoKeysAmbiguous("args", b, fold);
    CheckWhole(TwoKeys("args", b), lower);
  }

  /**
   Where the decoder stands: between top-level values, inside an array, before a
   key, or before the value of a key.
   */
  datatype Place = Top | InArray | BeforeKey | BeforeValue

  function ValueEnd(places: seq<Place>): (r: seq<Place>)
    ensures |r| == |places|
  {
    if places != [] && places[|places| - 1] == BeforeValue then places[..|places| - 1] + [BeforeKey] else places
  }

  class Decoder {
    var left: Stream
    var places: seq<Place>

    ghost predicate Valid() reads this { |places| > 0 }

    function Place(): Place
      requires Valid()
      reads this
    {
      places[|places| - 1]
    }

    constructor (ts: Stream)
      ensures Valid() && left == ts && places == [Top]
    {
      left, places := ts, [Top];
    }

    /** Whether another element or member follows: a look at the next token only. */
    method More() returns (more: bool)
      ensures more == HasMore(left)
    {
      more := left != [] && !left[0].CloseObject? && !left[0].CloseArray?;
    }

    /**
     The next token, or nothing when none may stand here. Before a key that is a
     string or the end of the object, so reading a key never yields another kind.
     */
    method Token() returns (token: Option<Token>)
      requires Valid()
      modifies this
      ensures Valid()
      ensures token.Some? ==> old(left) == [token.value] + left
      ensures token.None? ==> left == old(left) && places == old(places)
      ensures old(Place()) == BeforeKey && token.Some? ==>
                (token.value.Text? && places == old(places)[..|old(places)| - 1] + [BeforeValue]) ||
                (token.value.CloseObject? && |old(places)| > 1 && places == ValueEnd(old(places)[..|old(places)| - 1]))
      ensures old(Place()) == BeforeKey ==>
                (token.Some? <==> old(left) != [] && (old(left)[0].Text? || (old(left)[0].CloseObject? && |old(places)| > 1)))
      ensures old(Place()) != BeforeKey && token.Some? ==>
                match token.value
                case OpenObject => places == old(places) + [BeforeKey]
                case OpenArray => places == old(places) + [InArray]
                case CloseArray => old(Place()) == InArray && |old(places)| > 1 && places == ValueEnd(old(places)[..|old(places)| - 1])
                case Text(_) => places == ValueEnd(old(places))
                case Scalar => places == ValueEnd(old(places))
                case _ => false
      ensures old(Place()) != BeforeKey ==>
                (token.Some? <==> old(left) != [] && !old(left)[0].Bad? && !old(left)[0].CloseObject? &&
                                  (old(left)[0].CloseArray? ==> old(Place()) == InArray && |old(places)| > 1))
    {
      if left == [] {
        return None;
      }
      var t, here, n := left[0], Place(), |places| - 1;
      match t {
        case OpenObject =>
          if here == BeforeKey { return None; }
          places := places + [BeforeKey];
        case OpenArray =>
          if here == BeforeKey { return None; }
          places := places + [InArray];
        case CloseObject =>
          if here != BeforeKey || n == 0 { return None; }
          places := ValueEnd(places[..n]);
        case CloseArray =>
          if here != InArray || n == 0 { return None; }
          places := ValueEnd(places[..n]);
        case Text(_) =>
          places := if here == BeforeKey then places[..n] + [BeforeValue] else ValueEnd(places);
        case Scalar =>
          if here == BeforeKey { return None; }
          places := ValueEnd(places);
        case Bad =>
          return None;
      }
      left := left[1..];
      return Some(t);
    }
  }

  /**
   The recursive checker. A key is always a string here: the decoder stands before
   a key and another token follows.
   */
  method CheckJSONValue(dec: Decoder, lower: string -> string) returns (ok: bool)
    requires dec.Valid() && dec.Place() != BeforeKey
    requires dec.Place() == InArray ==> HasMore(dec.left)
    modifies dec
    ensures dec.Valid()
    ensures ok <==> Check(old(dec.left), lower).Some?
    ensures ok ==> Check(old(dec.left), lower) == Some(dec.left)
    ensures ok ==> dec.places == ValueEnd(old(dec.places))
    ensures |dec.left| <= |old(dec.left)|
    decreases |dec.left|
  {
    ghost var before, outer := dec.left, dec.places;
    if before != [] && before[0] == CloseArray {
      assert Check(before, lower) == None;
    }
    var token := dec.Token();
    if token.None? {
      return false;
    }
    assert dec.left == before[1..];
    match token.value {
      case OpenObject =>
        var seen: map<string, bool> := map[];
        ghost var all := CheckMembers(dec.left, {}, lower);
        assert all == Check(before, lower);
        assert seen.Keys == {};
        var more := dec.More();
        while more
          invariant dec.Valid() && dec.places == outer + [BeforeKey]
          invariant |dec.left| < |before|
          invariant all == CheckMembers(dec.left, seen.Keys, lower)
          invariant forall k :: k in seen ==> seen[k]
          invariant more == HasMore(dec.left)
          decreases |dec.left|
        {
          ghost var here := dec.left;
          var key := dec.Token();
          if key.None? {
            return false;
          }
          assert key.value.Text? && dec.left == here[1..];
          var name := lower(key.value.text);
          if name in seen && seen[name] {
            return false;
          }
          ghost var had := seen.Keys;
          seen := seen[name := true];
          assert seen.Keys == had + {name};
          var good := CheckJSONValue(dec, lower);
          if !good {
            return false;
          }
          assert dec.places == outer + [BeforeKey];
          more := dec.More();
        }
        token := dec.Token();
        assert outer + [BeforeKey] != [];
        assert (outer + [BeforeKey])[..|outer|] == outer;
      case OpenArray =>
        ghost var all := CheckElements(dec.left, lower);
        assert all == Check(before, lower);
        var more := dec.More();
        while more
          invariant dec.Valid() && dec.places == outer + [InArray]
          invariant |dec.left| < |before|
          invariant all == CheckElements(dec.left, lower)
          invariant more == HasMore(dec.left)
          decreases |dec.left|
        {
          var good := CheckJSONValue(dec, lower);
          if !good {
            return false;
          }
          assert dec.places == outer + [InArray];
          more := dec.More();
        }
        token := dec.Token();
        assert (outer + [InArray])[..|outer|] == outer;
      case _ =>
    }
    return token.Some?;
  }
}
