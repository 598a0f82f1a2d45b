/**
 * Byte memory as one array indexed by address, the C fields stored in it,
 * and the two library calls the work-buffer code makes on it (memset and
 * memmove). Each operation is paired with a ghost function giving the memory
 * it leaves behind.
 */
module Memory {
  import opened Bytes

  /** The unsigned w-byte field stored at address at. */
  function Field(m: seq<byte>, at: nat, w: nat): (v: nat)
    requires at + w <= |m|
    ensures v < Pow256(w)
  {
    Decode(m[at..at + w])
  }

  /** m after v is stored as a w-byte field at address at. */
  ghost function Put(m: seq<byte>, at: nat, w: nat, v: nat): (r: seq<byte>)
    requires at + w <= |m|
    ensures |r| == |m|
  {
    m[..at] + Encode(v, w) + m[at + w..]
  }

  /** Storing a field writes its bytes and no others. */
  lemma PutBytes(m: seq<byte>, at: nat, w: nat, v: nat)
    requires at + w <= |m|
    ensures Put(m, at, w, v)[at..at + w] == Encode(v, w)
    ensures forall i :: 0 <= i < |m| && !(at <= i < at + w) ==> Put(m, at, w, v)[i] == m[i]
  {
  }

  /** One byte outside a stored field keeps its value. */
  lemma PutKeeps(m: seq<byte>, at: nat, w: nat, v: nat, i: nat)
    requires at + w <= |m| && i < |m| && !(at <= i < at + w)
    ensures Put(m, at, w, v)[i] == m[i]
  {
    PutBytes(m, at, w, v);
  }

  /** m after memset(at, 0, n). */
  ghost function Clear(m: seq<byte>, at: nat, n: nat): (r: seq<byte>)
    requires at + n <= |m|
    ensures |r| == |m|
  {
    m[..at] + Zeros(n) + m[at + n..]
  }

  lemma ClearBytes(m: seq<byte>, at: nat, n: nat)
    requires at + n <= |m|
    ensures forall i :: at <= i < at + n ==> Clear(m, at, n)[i] == 0
    ensures forall i :: 0 <= i < |m| && !(at <= i < at + n) ==> Clear(m, at, n)[i] == m[i]
  {
  }

  /**
   * m after memmove(dst, src, n): the n bytes that were at src are now at dst,
   * whether or not the two ranges overlap, and nothing else changes.
   */
  ghost function Move(m: seq<byte>, dst: nat, src: nat, n: nat): (r: seq<byte>)
    requires src + n <= |m| && dst + n <= |m|
    ensures |r| == |m|
  {
    m[..dst] + m[src..src + n] + m[dst + n..]
  }

  lemma MoveBytes(m: seq<byte>, dst: nat, src: nat, n: nat)
    requires src + n <= |m| && dst + n <= |m|
    ensures forall i :: dst <= i < dst + n ==> Move(m, dst, src, n)[i] == m[i - dst + src]
    ensures forall i :: 0 <= i < |m| && !(dst <= i < dst + n) ==> Move(m, dst, src, n)[i] == m[i]
  {
  }

  /** A stored field reads back as the value stored, when it fits. */
  lemma FieldOfPut(m: seq<byte>, at: nat, w: nat, v: nat)
    requires at + w <= |m| && v < Pow256(w)
    ensures Field(Put(m, at, w, v), at, w) == v
  {
    PutBytes(m, at, w, v);
    DecodeEncode(v, w);
  }

  /** A field depends only on its own bytes. */
  lemma FieldFrame(m1: seq<byte>, a1: nat, m2: seq<byte>, a2: nat, w: nat)
    requires a1 + w <= |m1| && a2 + w <= |m2|
    requires forall i :: a1 <= i < a1 + w ==> m1[i] == m2[i - a1 + a2]
    ensures Field(m1, a1, w) == Field(m2, a2, w)
  {
    assert m1[a1..a1 + w] == m2[a2..a2 + w];
  }

  /** Storing the value a field already holds changes no byte. */
  lemma PutSame(m: seq<byte>, at: nat, w: nat)
    requires at + w <= |m|
    ensures Put(m, at, w, Field(m, at, w)) == m
  {
    EncodeDecode(m[at..at + w]);
    assert m[..at] + m[at..at + w] + m[at + w..] == m;
  }

  /** A field whose bytes are all zero reads as zero. */
  lemma FieldOfZeros(m: seq<byte>, at: nat, w: nat)
    requires at + w <= |m|
    requires forall i :: at <= i < at + w ==> m[i] == 0
    ensures Field(m, at, w) == 0
  {
    DecodeZeros(m[at..at + w]);
  }

  /** Store v, truncated to w bytes, little-endian at address at. */
  method Store(mem: array<byte>, at: nat, w: nat, v: nat)
    requires at + w <= mem.Length
    modifies mem
    ensures mem[..] == Put(old(mem[..]), at, w, v)
  {
    var bytes := Encode(v, w);
    forall i | 0 <= i < w {
      mem[at + i] := bytes[i];
    }
    ghost var r := Put(old(mem[..]), at, w, v);
    PutBytes(old(mem[..]), at, w, v);
    assert forall i :: at <= i < at + w ==> r[i] == r[at..at + w][i - at];
    assert mem[..] == r;
  }

  /** memset(at, 0, n). */
  method Memset0(mem: array<byte>, at: nat, n: nat)
    requires at + n <= mem.Length
    modifies mem
    ensures mem[..] == Clear(old(mem[..]), at, n)
  {
    forall i | 0 <= i < n {
      mem[at + i] := 0;
    }
    ClearBytes(old(mem[..]), at, n);
    assert mem[..] == Clear(old(mem[..]), at, n);
  }

  /** memmove(dst, src, n): every byte is read before any is written. */
  method Memmove(mem: array<byte>, dst: nat, src: nat, n: nat)
    requires src + n <= mem.Length && dst + n <= mem.Length
    modifies mem
    ensures mem[..] == Move(old(mem[..]), dst, src, n)
  {
    forall i | 0 <= i < n {
      mem[dst + i] := mem[src + i];
    }
    MoveBytes(old(mem[..]), dst, src, n);
    assert mem[..] == Move(old(mem[..]), dst, src, n);
  }
}
