/** Byte arrays that are reused and wiped: no method here leaves plaintext in an array it lets go of. */
module ScratchArrays {
  import opened ByteStrings
  import opened Redaction

  ghost predicate Zero(a: array<byte>)
    reads a
  {
    forall k :: 0 <= k < a.Length ==> a[k] == 0
  }

  ghost predicate AllZero(arrays: set<array<byte>>)
    reads arrays
  {
    forall a :: a in arrays ==> Zero(a)
  }

  /** Nothing is left beyond the first n bytes. */
  ghost predicate ZeroFrom(a: array<byte>, n: nat)
    reads a
  {
    n <= a.Length && forall k :: n <= k < a.Length ==> a[k] == 0
  }

  method Wipe(a: array<byte>, n: nat)
    requires n <= a.Length
    modifies a
    ensures forall k :: 0 <= k < n ==> a[k] == 0
    ensures forall k :: n <= k < a.Length ==> a[k] == old(a[k])
    ensures forall x: array<byte> :: fresh(x) ==> Zero(x)
  {
    for i := 0 to n
      invariant forall k :: 0 <= k < i ==> a[k] == 0
      invariant forall k :: i <= k < a.Length ==> a[k] == old(a[k])
      invariant forall x: array<byte> :: fresh(x) ==> Zero(x)
    {
      a[i] := 0;
    }
  }

  method WipeAll(a: array<byte>)
    modifies a
    ensures Zero(a)
    ensures forall x: array<byte> :: fresh(x) ==> Zero(x)
  {
    Wipe(a, a.Length);
  }

  /** Wiping what there is wipes everything. */
  method WipeFront(a: array<byte>, n: nat)
    requires ZeroFrom(a, n)
    modifies a
    ensures Zero(a)
    ensures forall x: array<byte> :: fresh(x) ==> Zero(x)
  {
    Wipe(a, n);
  }

  method Make(n: nat) returns (a: array<byte>)
    ensures fresh(a) && a.Length == n && Zero(a)
    ensures forall x: array<byte> :: fresh(x) ==> Zero(x)
  {
    a := new byte[n](_ => 0);
  }

  method CopyInto(dst: array<byte>, at: nat, src: bytes)
    requires at + |src| <= dst.Length
    modifies dst
    ensures dst[..at + |src|] == old(dst[..at]) + src
    ensures forall k :: at + |src| <= k < dst.Length ==> dst[k] == old(dst[k])
    ensures forall x: array<byte> :: fresh(x) ==> Zero(x)
  {
    for i := 0 to |src|
      invariant forall k :: 0 <= k < at ==> dst[k] == old(dst[k])
      invariant forall k :: 0 <= k < i ==> dst[at + k] == src[k]
      invariant forall k :: at + i <= k < dst.Length ==> dst[k] == old(dst[k])
      invariant forall x: array<byte> :: fresh(x) ==> Zero(x)
    {
      dst[at + i] := src[i];
    }
  }

  /** A new array holding exactly src. */
  method Fill(src: bytes) returns (a: array<byte>)
    ensures fresh(a) && a[..] == src
    ensures forall x: array<byte> :: fresh(x) ==> x == a || Zero(x)
  {
    a := Make(|src|);
    CopyInto(a, 0, src);
    assert a[..|src|] == a[..];
  }

  /** A scratch array with room for size bytes; an array too small is wiped before it is let go. */
  method Resize(buf: array<byte>, size: nat) returns (r: array<byte>)
    modifies buf
    ensures size <= r.Length
    ensures r == buf ==> buf[..] == old(buf[..])
    ensures r != buf ==> fresh(r) && Zero(r) && Zero(buf)
    ensures forall x: array<byte> :: fresh(x) ==> Zero(x)
  {
    if buf.Length < size {
      WipeAll(buf);
      r := Make(size);
    } else {
      r := buf;
    }
  }

  /** The first n bytes of a. */
  ghost function Text(a: array<byte>, n: nat): bytes
    requires n <= a.Length
    reads a
  {
    a[..n]
  }

  lemma Nothing(a: array<byte>)
    ensures Text(a, 0) == []
  {
  }

  /** work := held + p, in work or a replacement; then the whole of held is wiped. */
  method Gather(work: array<byte>, held: array<byte>, len: nat, p: bytes) returns (r: array<byte>)
    requires work != held && len <= held.Length && Zero(work)
    modifies work, held
    ensures Zero(held) && ZeroFrom(r, len + |p|) && Text(r, len + |p|) == old(Text(held, len)) + p
    ensures r != held && (r != work ==> fresh(r) && Zero(work))
    ensures forall x: array<byte> :: fresh(x) ==> x == r || Zero(x)
  {
    r := Resize(work, len + |p|);
    CopyInto(r, 0, held[..len]);
    assert r[..len] == old(held[..len]);
    CopyInto(r, len, p);
    WipeAll(held);
  }

  /** Appends value to buf[..len]; a full array is copied to a larger one and wiped. */
  method AppendOutput(buf: array<byte>, len: nat, value: bytes) returns (r: array<byte>, n: nat)
    requires len <= buf.Length
    modifies buf
    ensures n == len + |value| <= r.Length && Text(r, n) == old(Text(buf, len)) + value
    ensures r != buf ==> fresh(r) && Zero(buf)
    ensures forall x: array<byte> :: fresh(x) ==> x == r || Zero(x)
  {
    r := buf;
    if |value| > buf.Length - len {
      r := Make(Max(2 * buf.Length, len + |value|));
      CopyInto(r, 0, buf[..len]);
      assert r[..len] == old(buf[..len]);
      WipeAll(buf);
    }
    CopyInto(r, len, value);
    n := len + |value|;
    assert r[..n] == old(buf[..len]) + value;
  }

  /** Up to three growths: whichever arrays they allocated on the way, all but the last are wiped. */
  method AppendToken(buf: array<byte>, len: nat, name: bytes) returns (r: array<byte>, n: nat)
    requires len <= buf.Length
    modifies buf
    ensures n <= r.Length && Text(r, n) == old(Text(buf, len)) + (OPEN + name + CLOSE)
    ensures r != buf ==> fresh(r) && Zero(buf)
    ensures forall x: array<byte> :: fresh(x) ==> x == r || Zero(x)
  {
    hide Zero, Text, OPEN, CLOSE;
    r, n := AppendOutput(buf, len, OPEN);
    r, n := AppendOutput(r, n, name);
    r, n := AppendOutput(r, n, CLOSE);
  }
}
