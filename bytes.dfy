/** Fixed-width unsigned integers and their little-endian byte images. */
module Bytes {

  /** An octet. */
  newtype byte = x: int | 0 <= x < 256

  type u16 = x: nat | x < 0x1_0000
  type u32 = x: nat | x < 0x1_0000_0000
  type u64 = x: nat | x < 0x1_0000_0000_0000_0000

  /** 256 to the power w: the number of values that fit in w bytes. */
  function Pow256(w: nat): (p: nat)
    ensures p > 0
  {
    if w == 0 then 1 else 256 * Pow256(w - 1)
  }

  lemma Pow256Widths()
    ensures Pow256(2) == 0x1_0000
    ensures Pow256(4) == 0x1_0000_0000
    ensures Pow256(8) == 0x1_0000_0000_0000_0000
  {
  }

  /** The w-byte little-endian image of v, truncated to w bytes. */
  function Encode(v: nat, w: nat): (s: seq<byte>)
    ensures |s| == w
  {
    if w == 0 then [] else [(v % 256) as byte] + Encode(v / 256, w - 1)
  }

  /** The unsigned value of a little-endian byte string. */
  function Decode(s: seq<byte>): (v: nat)
    ensures v < Pow256(|s|)
  {
    if s == [] then 0 else s[0] as nat + 256 * Decode(s[1..])
  }

  function Zeros(n: nat): (s: seq<byte>)
    ensures |s| == n
    ensures forall i :: 0 <= i < n ==> s[i] == 0
  {
    if n == 0 then [] else [0] + Zeros(n - 1)
  }

  /** Reading back a stored value that fits gives the value. */
  lemma {:induction false} DecodeEncode(v: nat, w: nat)
    requires v < Pow256(w)
    ensures Decode(Encode(v, w)) == v
  {
    if w > 0 {
      var e := Encode(v, w);
      assert e[1..] == Encode(v / 256, w - 1);
      DivBound(v, Pow256(w - 1));
      DecodeEncode(v / 256, w - 1);
      assert Decode(e) == v % 256 + 256 * (v / 256);
    }
  }

  lemma DivBound(v: nat, p: nat)
    requires v < 256 * p
    ensures v / 256 < p
  {
  }

  lemma DivMod256(b: nat, d: nat)
    requires b < 256
    ensures (b + 256 * d) % 256 == b && (b + 256 * d) / 256 == d
  {
  }

  /** Storing the value just read gives back the same bytes. */
  lemma {:induction false} EncodeDecode(s: seq<byte>)
    ensures Encode(Decode(s), |s|) == s
  {
    if s != [] {
      var d := Decode(s[1..]);
      DivMod256(s[0] as nat, d);
      EncodeDecode(s[1..]);
      calc {
        Encode(Decode(s), |s|);
        [((s[0] as nat + 256 * d) % 256) as byte] + Encode((s[0] as nat + 256 * d) / 256, |s| - 1);
        [s[0]] + s[1..];
      }
    }
  }

  /** Zeroed bytes read as zero. */
  lemma {:induction false} DecodeZeros(s: seq<byte>)
    requires forall i :: 0 <= i < |s| ==> s[i] == 0
    ensures Decode(s) == 0
  {
    if s != [] {
      DecodeZeros(s[1..]);
    }
  }
}
