/** Preparing the patterns: de-duplicated forms, each in an array of its own, and the first-byte index. */
module Registration {
  import opened ByteStrings
  import opened Redaction
  import opened ScratchArrays

  /** A secret's name with every byte sequence to match for it: raw first, then its encodings. */
  datatype NamedSecret = NamedSecret(name: bytes, forms: seq<bytes>)

  function FormsOf(s: NamedSecret): seq<Form> {
    seq(|s.forms|, k requires 0 <= k < |s.forms| => Form(s.name, s.forms[k]))
  }

  function AllForms(secrets: seq<NamedSecret>): seq<Form> {
    if secrets == [] then []
    else AllForms(secrets[..|secrets| - 1]) + FormsOf(secrets[|secrets| - 1])
  }

  predicate HasValue(forms: seq<Form>, value: bytes) {
    exists f :: f in forms && f.value == value
  }

  /** The first form registered for each value. */
  function Distinct(forms: seq<Form>): seq<Form> {
    if forms == [] then []
    else
      var d, f := Distinct(forms[..|forms| - 1]), forms[|forms| - 1];
      if HasValue(d, f.value) then d else d + [f]
  }

  lemma {:induction false} DistinctRegisters(forms: seq<Form>)
    requires forall f :: f in forms ==> f.value != []
    ensures Registered(Distinct(forms))
    ensures forall f :: f in Distinct(forms) ==> f in forms
    ensures forall f :: f in forms ==> HasValue(Distinct(forms), f.value)
  {
    if forms != [] {
      var n := |forms| - 1;
      var d, f := Distinct(forms[..n]), forms[n];
      DistinctRegisters(forms[..n]);
      assert forms == forms[..n] + [f];
      if !HasValue(d, f.value) {
        assert f in Distinct(forms);
        forall g | g in forms ensures HasValue(Distinct(forms), g.value) {
          if g != f {
            var h :| h in d && h.value == g.value;
            assert h in Distinct(forms);
          }
        }
      }
    }
  }

  /** Secret k is the first one to list v. */
  ghost predicate FirstLister(named: seq<NamedSecret>, k: nat, v: bytes) {
    && k < |named| && v in named[k].forms
    && forall j :: 0 <= j < k ==> v !in named[j].forms
  }

  /**
   The forms stand for exactly what the secrets list: each listed value is there once, and under
   the name of the first secret that lists it.
   */
  ghost predicate StandsFor(forms: seq<Form>, named: seq<NamedSecret>) {
    && (forall s, v :: s in named && v in s.forms ==> HasValue(forms, v))
    && (forall f {:trigger f in forms} :: f in forms ==>
          exists k: nat :: FirstLister(named, k, f.value) && named[k].name == f.name)
  }

  /** The first form of each value stays when more forms follow; others only add new values. */
  lemma {:induction false} DistinctAppend(a: seq<Form>, b: seq<Form>)
    ensures forall f :: f in Distinct(a) ==> f in Distinct(a + b)
    ensures forall f :: f in Distinct(a + b) ==> f in Distinct(a) || (f in b && !HasValue(Distinct(a), f.value))
  {
    if b == [] {
      assert a + b == a;
    } else {
      var n := |b| - 1;
      DistinctAppend(a, b[..n]);
      assert (a + b)[..|a| + n] == a + b[..n];
      assert b == b[..n] + [b[n]];
      if HasValue(Distinct(a), b[n].value) {
        var f :| f in Distinct(a) && f.value == b[n].value;
        assert f in Distinct(a + b[..n]);
      }
    }
  }

  lemma FormsOfHolds(s: NamedSecret)
    ensures forall f: Form :: f in FormsOf(s) <==> f.name == s.name && f.value in s.forms
  {
    forall f: Form | f.name == s.name && f.value in s.forms ensures f in FormsOf(s) {
      var k :| 0 <= k < |s.forms| && s.forms[k] == f.value;
      assert FormsOf(s)[k] == f;
    }
  }

  lemma {:induction false} AllFormsStandFor(named: seq<NamedSecret>)
    requires forall s, v :: s in named && v in s.forms ==> v != []
    ensures StandsFor(Distinct(AllForms(named)), named)
  {
    if named != [] {
      var n := |named| - 1;
      var front, last := named[..n], named[n];
      assert named == front + [last];
      AllFormsStandFor(front);
      AllFormsNonEmpty(named);
      DistinctRegisters(AllForms(named));
      FormsOfHolds(last);
      DistinctAppend(AllForms(front), FormsOf(last));
      LastStandsFor(named);
    }
  }

  lemma LastStandsFor(named: seq<NamedSecret>)
    requires named != []
    requires var front, last := named[..|named| - 1], named[|named| - 1];
      var before, forms := Distinct(AllForms(front)), Distinct(AllForms(named));
      && StandsFor(before, front)
      && (forall f :: f in before ==> f in forms)
      && (forall f :: f in forms ==> f in before || (f in FormsOf(last) && !HasValue(before, f.value)))
      && (forall f :: f in FormsOf(last) <==> f.name == last.name && f.value in last.forms)
      && (forall f :: f in AllForms(named) ==> HasValue(forms, f.value))
    ensures StandsFor(Distinct(AllForms(named)), named)
  {
    hide Distinct, FormsOf;
    var n := |named| - 1;
    var front, last := named[..n], named[n];
    var before, forms := Distinct(AllForms(front)), Distinct(AllForms(named));
    assert named == front + [last];
    forall s, v | s in named && v in s.forms ensures HasValue(forms, v) {
      if s in front {
        assert HasValue(before, v);
        var f :| f in before && f.value == v;
        assert f in forms;
      } else {
        assert Form(last.name, v) in FormsOf(last);
        assert Form(last.name, v) in AllForms(named);
      }
    }
    forall f | f in forms ensures exists k: nat :: FirstLister(named, k, f.value) && named[k].name == f.name {
      if f in before {
        var k: nat :| FirstLister(front, k, f.value) && front[k].name == f.name;
        assert FirstLister(named, k, f.value) && named[k].name == f.name;
      } else {
        forall j | 0 <= j < n ensures f.value !in named[j].forms {
          assert named[j] == front[j] && front[j] in front;
        }
        assert FirstLister(named, n, f.value) && named[n].name == f.name;
      }
    }
  }

  /** The forms whose first byte is b, in registration order. */
  function Bucket(forms: seq<Form>, b: byte): seq<Form> {
    if forms == [] then []
    else
      var rest, f := Bucket(forms[..|forms| - 1], b), forms[|forms| - 1];
      if f.value != [] && f.value[0] == b then rest + [f] else rest
  }

  lemma {:induction false} BucketHolds(forms: seq<Form>, b: byte)
    ensures forall f :: f in Bucket(forms, b) <==> f in forms && f.value != [] && f.value[0] == b
  {
    if forms != [] {
      var n := |forms| - 1;
      BucketHolds(forms[..n], b);
      assert forms == forms[..n] + [forms[n]];
    }
  }

  /** Looking only at the forms that share the first byte finds the same longest match. */
  lemma IndexFindsBest(forms: seq<Form>, t: bytes)
    requires Registered(forms) && t != []
    ensures Best(Bucket(forms, t[0]), t) == Best(forms, t)
    ensures Partial(Bucket(forms, t[0]), t) == Partial(forms, t)
  {
    var bucket := Bucket(forms, t[0]);
    BucketHolds(forms, t[0]);
    var a, b := Best(bucket, t), Best(forms, t);
    forall f | f in forms && (Starts(f, t) || CouldBecome(f, t)) ensures f in bucket {
      assert f.value != [] && f.value[0] == t[0];
    }
    if b.Some? {
      assert b.value in bucket;
      assert a.value in forms;
      assert |a.value.value| == |b.value.value|;
      assert a.value.value == t[..|a.value.value|] == b.value.value;
      assert SameValue(a.value, b.value);
    }
  }

  /** One prepared pattern: its bytes live in an array that every user of the patterns shares. */
  datatype Entry = Entry(name: bytes, value: array<byte>)

  ghost function ValuesOf(entries: seq<Entry>): set<array<byte>> {
    set e | e in entries :: e.value
  }

  ghost predicate Spells(e: Entry, f: Form)
    reads e.value
  {
    e.name == f.name && e.value[..] == f.value
  }

  /** The entries hold exactly these forms at present, in arrays among values. */
  ghost predicate SpellsAll(entries: seq<Entry>, forms: seq<Form>, values: set<array<byte>>)
    reads values
  {
    |entries| == |forms| && forall k :: 0 <= k < |entries| ==> entries[k].value in values && Spells(entries[k], forms[k])
  }

  /** The tables hold the registered forms, in exactly the arrays of values. */
  ghost predicate Tables(
      secrets: seq<Entry>, candidates: seq<seq<Entry>>, maxLen: nat, forms: seq<Form>, values: set<array<byte>>)
    reads values
  {
    && values == ValuesOf(secrets)
    && SpellsAll(secrets, forms, values)
    && |candidates| == 256
    && (forall b: byte :: SpellsAll(candidates[b as int], Bucket(forms, b), values))
    && (forall f {:trigger f in forms} :: f in forms ==> |f.value| <= maxLen)
  }

  lemma BucketAppend(forms: seq<Form>, f: Form, b: byte)
    requires f.value != []
    ensures Bucket(forms + [f], b) == if f.value[0] == b then Bucket(forms, b) + [f] else Bucket(forms, b)
  {
    assert (forms + [f])[..|forms|] == forms;
  }

  lemma ValuesAppend(entries: seq<Entry>, e: Entry)
    ensures ValuesOf(entries + [e]) == ValuesOf(entries) + {e.value}
  {
    assert forall x :: x in entries + [e] <==> x in entries || x == e;
  }

  lemma SpellsMore(entries: seq<Entry>, forms: seq<Form>, values: set<array<byte>>, e: Entry, f: Form)
    requires SpellsAll(entries, forms, values) && Spells(e, f)
    ensures SpellsAll(entries, forms, values + {e.value})
    ensures SpellsAll(entries + [e], forms + [f], values + {e.value})
  {
  }

  lemma BucketSpelled(
      secrets: seq<Entry>, candidates: seq<seq<Entry>>, maxLen: nat, forms: seq<Form>, values: set<array<byte>>, b: byte)
    requires Tables(secrets, candidates, maxLen, forms, values)
    ensures |candidates| == 256 && SpellsAll(candidates[b as int], Bucket(forms, b), values)
  {
  }

  /** A further entry, at the end of the list and of its bucket. */
  lemma TablesAppend(
      secrets: seq<Entry>, candidates: seq<seq<Entry>>, maxLen: nat, forms: seq<Form>, values: set<array<byte>>, e: Entry, f: Form)
    requires Tables(secrets, candidates, maxLen, forms, values) && Spells(e, f) && f.value != []
    ensures var b := f.value[0] as int;
      Tables(secrets + [e], candidates[b := candidates[b] + [e]], Max(maxLen, |f.value|), forms + [f], values + {e.value})
  {
    hide SpellsAll, Spells;
    var candidates' := candidates[f.value[0] as int := candidates[f.value[0] as int] + [e]];
    ValuesAppend(secrets, e);
    SpellsMore(secrets, forms, values, e, f);
    forall b: byte ensures SpellsAll(candidates'[b as int], Bucket(forms + [f], b), values + {e.value}) {
      SpellsMore(candidates[b as int], Bucket(forms, b), values, e, f);
      BucketAppend(forms, f, b);
    }
  }

  method IsDuplicate(prior: seq<Entry>, form: array<byte>, ghost forms: seq<Form>, ghost values: set<array<byte>>)
    returns (duplicate: bool)
    requires SpellsAll(prior, forms, values)
    ensures duplicate <==> HasValue(forms, form[..])
    ensures forall x: array<byte> :: fresh(x) ==> Zero(x)
  {
    for k := 0 to |prior|
      invariant !HasValue(forms[..k], form[..])
      invariant forall x: array<byte> :: fresh(x) ==> Zero(x)
    {
      assert Spells(prior[k], forms[k]) && forms[..k + 1] == forms[..k] + [forms[k]];
      if prior[k].value[..] == form[..] {
        assert forms[k] in forms && forms[k].value == form[..];
        return true;
      }
    }
    assert forms[..|prior|] == forms;
    return false;
  }

  /** Registers form unless its bytes are known already; a duplicate is wiped. */
  method RegisterForm(
      name: bytes, form: array<byte>, secrets: seq<Entry>, candidates: seq<seq<Entry>>, maxLen: nat,
      ghost forms: seq<Form>, ghost values: set<array<byte>>)
    returns (secrets': seq<Entry>, candidates': seq<seq<Entry>>, maxLen': nat, ghost forms': seq<Form>, ghost values': set<array<byte>>)
    requires form.Length > 0 && form !in values && Tables(secrets, candidates, maxLen, forms, values)
    modifies form
    ensures forms' == if HasValue(forms, old(form[..])) then forms else forms + [Form(name, old(form[..]))]
    ensures Tables(secrets', candidates', maxLen', forms', values')
    ensures values' == values || values' == values + {form}
    ensures form in values' || Zero(form)
    ensures forall x: array<byte> :: fresh(x) ==> Zero(x)
  {
    hide Tables, SpellsAll, Bucket;
    secrets', candidates', maxLen', forms', values' := secrets, candidates, maxLen, forms, values;
    ghost var f := Form(name, form[..]);
    BucketSpelled(secrets, candidates, maxLen, forms, values, form[0]);
    var bucket := candidates[form[0] as int];
    BucketHolds(forms, form[0]);
    var duplicate := IsDuplicate(bucket, form, Bucket(forms, form[0]), values);
    if duplicate {
      WipeAll(form);
      return;
    }
    assert !HasValue(forms, f.value) by {
      assert forall g :: g in forms && g.value == f.value ==> g in Bucket(forms, form[0]);
    }
    var entry := Entry(name, form);
    TablesAppend(secrets, candidates, maxLen, forms, values, entry, f);
    secrets' := secrets + [entry];
    candidates' := candidates[form[0] as int := bucket + [entry]];
    maxLen' := Max(maxLen, form.Length);
    forms', values' := forms + [f], values + {form};
  }

  method RegisterSecret(
      s: NamedSecret, ghost earlier: seq<Form>, secrets: seq<Entry>, candidates: seq<seq<Entry>>, maxLen: nat,
      ghost forms: seq<Form>, ghost values: set<array<byte>>)
    returns (secrets': seq<Entry>, candidates': seq<seq<Entry>>, maxLen': nat, ghost forms': seq<Form>, ghost values': set<array<byte>>)
    requires forall v :: v in s.forms ==> v != []
    requires forms == Distinct(earlier) && Tables(secrets, candidates, maxLen, forms, values)
    ensures forms' == Distinct(earlier + FormsOf(s)) && Tables(secrets', candidates', maxLen', forms', values')
    ensures values <= values' && fresh(values' - values)
    ensures forall x: array<byte> :: fresh(x) ==> x in values' || Zero(x)
  {
    hide Tables, Zero, HasValue, UpTo, FormsOf, Distinct;
    secrets', candidates', maxLen', forms', values' := secrets, candidates, maxLen, forms, values;
    UpToEnds(earlier, s);
    for j := 0 to |s.forms|
      invariant forms' == UpTo(earlier, s, j)
      invariant Tables(secrets', candidates', maxLen', forms', values')
      invariant values <= values' && fresh(values' - values)
      invariant forall x: array<byte> :: fresh(x) ==> x in values' || Zero(x)
    {
      assert s.forms[j] in s.forms;
      UpToNext(earlier, s, j);
      var form := Fill(s.forms[j]);
      secrets', candidates', maxLen', forms', values' :=
        RegisterForm(s.name, form, secrets', candidates', maxLen', forms', values');
    }
  }

  /** What is registered after the first j forms of s. */
  ghost function UpTo(earlier: seq<Form>, s: NamedSecret, j: nat): seq<Form>
    requires j <= |s.forms|
  {
    Distinct(earlier + FormsOf(s)[..j])
  }

  lemma UpToEnds(earlier: seq<Form>, s: NamedSecret)
    ensures UpTo(earlier, s, 0) == Distinct(earlier)
    ensures UpTo(earlier, s, |s.forms|) == Distinct(earlier + FormsOf(s))
  {
    assert earlier + FormsOf(s)[..0] == earlier;
    assert FormsOf(s)[..|s.forms|] == FormsOf(s);
  }

  lemma UpToNext(earlier: seq<Form>, s: NamedSecret, j: nat)
    requires j < |s.forms|
    ensures var before, v := UpTo(earlier, s, j), s.forms[j];
      UpTo(earlier, s, j + 1) == if HasValue(before, v) then before else before + [Form(s.name, v)]
  {
    var before := earlier + FormsOf(s)[..j];
    assert earlier + FormsOf(s)[..j + 1] == before + [Form(s.name, s.forms[j])];
    assert (before + [Form(s.name, s.forms[j])])[..|before|] == before;
  }

  method Register(named: seq<NamedSecret>)
    returns (secrets: seq<Entry>, candidates: seq<seq<Entry>>, maxLen: nat, ghost forms: seq<Form>, ghost values: set<array<byte>>)
    requires forall s, v :: s in named && v in s.forms ==> v != []
    ensures forms == Distinct(AllForms(named)) && Registered(forms) && StandsFor(forms, named)
    ensures Tables(secrets, candidates, maxLen, forms, values)
    ensures fresh(values)
    ensures forall x: array<byte> :: fresh(x) ==> x in values || Zero(x)
  {
    hide Tables, Zero, Registered, StandsFor;
    secrets, maxLen, forms, values := [], 0, [], {};
    candidates := EmptyIndex();
    for i := 0 to |named|
      invariant forms == Distinct(AllForms(named[..i]))
      invariant Tables(secrets, candidates, maxLen, forms, values)
      invariant fresh(values)
      invariant forall x: array<byte> :: fresh(x) ==> x in values || Zero(x)
    {
      assert named[..i + 1][..i] == named[..i];
      assert named[i] in named;
      secrets, candidates, maxLen, forms, values :=
        RegisterSecret(named[i], AllForms(named[..i]), secrets, candidates, maxLen, forms, values);
    }
    assert named[..|named|] == named;
    AllFormsNonEmpty(named);
    DistinctRegisters(AllForms(named));
    AllFormsStandFor(named);
  }

  method EmptyIndex() returns (candidates: seq<seq<Entry>>)
    ensures Registered([]) && forall maxLen: nat :: Tables([], candidates, maxLen, [], {})
    ensures forall x: array<byte> :: fresh(x) ==> Zero(x)
  {
    candidates := seq(256, _ => []);
  }

  lemma {:induction false} AllFormsNonEmpty(named: seq<NamedSecret>)
    requires forall s, v :: s in named && v in s.forms ==> v != []
    ensures forall f :: f in AllForms(named) ==> f.value != []
  {
    if named != [] {
      var n := |named| - 1;
      AllFormsNonEmpty(named[..n]);
      assert named[n] in named;
      assert forall f :: f in FormsOf(named[n]) ==> f.value in named[n].forms;
    }
  }

  /** Wipes every pattern's bytes. */
  method WipePatterns(entries: seq<Entry>, ghost values: set<array<byte>>)
    requires values == ValuesOf(entries)
    modifies values
    ensures forall a :: a in values ==> Zero(a)
    ensures forall x: array<byte> :: fresh(x) ==> Zero(x)
  {
    hide Zero;
    for i := 0 to |entries|
      invariant forall k :: 0 <= k < i ==> Zero(entries[k].value)
      invariant forall x: array<byte> :: fresh(x) ==> Zero(x)
    {
      WipeAll(entries[i].value);
    }
  }
}
