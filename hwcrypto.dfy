/**
 * The default hardware-crypto hooks of firmware/2lib/2stub_hwcrypto.c:
 * what every caller gets when the platform supplies no accelerated
 * implementation. Each hook ignores its arguments and returns a fixed
 * status; the ones that take output buffers write nothing to them.
 */
module HwCrypto {
  import opened Bytes
  import opened Status

  /** enum vb2_hash_algorithm and enum vb2_signature_algorithm, by their numeric codes. */
  type HashAlgorithm = nat
  type SignatureAlgorithm = nat

  /** struct vb2_public_key: an RSA public key as held in memory. */
  datatype PublicKey = PublicKey(
    arrsize: u32,                 // length of n and rr, in 32-bit words
    n0inv: u32,                   // -1 / n[0] mod 2^32
    n: seq<u32>,                  // modulus, least significant word first
    rr: seq<u32>,                 // R^2, least significant word first
    sigAlg: SignatureAlgorithm,
    hashAlg: HashAlgorithm,
    desc: string,
    version: u32,
    id: seq<byte>,
    allowHwcrypto: bool)

  /** "Unsupported" is the routing signal: use the software path instead. */
  predicate Unsupported(s: Status) {
    s == ErrorExHwcryptoUnsupported
  }

  /** A hard error: neither success nor the routing signal. */
  predicate HardError(s: Status) {
    s != Success && !Unsupported(s)
  }

  /** How a caller acts on a hook's status. */
  datatype Path = Hardware | Software | Fail

  /** The calling convention: success ends on the hardware path, "unsupported" falls back, anything else fails. */
  function Route(s: Status): (p: Path)
    ensures p == Hardware <==> s == Success
    ensures p == Software <==> Unsupported(s)
    ensures p == Fail <==> HardError(s)
  {
    if s == Success then Hardware
    else if s == ErrorExHwcryptoUnsupported then Software
    else Fail
  }

  /** vb2ex_hwcrypto_digest_init: no hardware hash session, for any algorithm and size. */
  function DigestInit(hashAlg: HashAlgorithm, dataSize: u32): (s: Status)
    ensures Unsupported(s) && Route(s) == Software
  {
    ErrorExHwcryptoUnsupported
  }

  /**
   * vb2ex_hwcrypto_digest_extend: reachable only after a successful
   * DigestInit, which the default never gives, so it fails loudly.
   */
  function DigestExtend(buf: seq<byte>, size: u32): (s: Status)
    ensures HardError(s) && s == ErrorShaExtendAlgorithm
  {
    ErrorShaExtendAlgorithm
  }

  /** The status of a hook together with the output buffer as the hook leaves it. */
  datatype Output = Output(status: Status, buffer: seq<byte>)

  /** vb2ex_hwcrypto_digest_finalize: fails loudly and leaves the digest buffer as it was. */
  function DigestFinalize(digest: seq<byte>, digestSize: u32): (r: Output)
    ensures HardError(r.status) && r.status == ErrorShaFinalizeAlgorithm
    ensures r.buffer == digest
  {
    Output(ErrorShaFinalizeAlgorithm, digest)
  }

  /**
   * vb2ex_hwcrypto_rsa_verify_digest: neither a verification success nor a
   * verification failure, for every key, signature and digest.
   */
  function RsaVerifyDigest(key: PublicKey, sig: seq<byte>, digest: seq<byte>): (s: Status)
    ensures Unsupported(s) && Route(s) == Software
  {
    ErrorExHwcryptoUnsupported
  }

  /** The result of vb2ex_hwcrypto_modexp: its status and the inout and scratch buffers afterwards. */
  datatype ModexpOutput = ModexpOutput(status: Status, inout: seq<byte>, workbuf: seq<byte>)

  /** vb2ex_hwcrypto_modexp: "unsupported", with inout and the scratch buffer untouched. */
  function Modexp(key: PublicKey, inout: seq<byte>, workbuf: seq<byte>, workbufSize: nat, exp: int)
    : (r: ModexpOutput)
    ensures Unsupported(r.status) && Route(r.status) == Software
    ensures r.inout == inout && r.workbuf == workbuf
  {
    ModexpOutput(ErrorExHwcryptoUnsupported, inout, workbuf)
  }

  /**
   * No default hook reports success: a caller that follows the convention
   * takes the software path after DigestInit, RsaVerifyDigest and Modexp,
   * and never reaches DigestExtend or DigestFinalize with a session, which
   * fail if it does.
   */
  lemma NoStubSucceeds(hashAlg: HashAlgorithm, size: u32, buf: seq<byte>, key: PublicKey,
                       sig: seq<byte>, digest: seq<byte>, workbuf: seq<byte>, exp: int)
    ensures DigestInit(hashAlg, size) != Success
    ensures DigestExtend(buf, size) != Success && DigestFinalize(digest, size).status != Success
    ensures RsaVerifyDigest(key, sig, digest) != Success
    ensures Modexp(key, buf, workbuf, |workbuf|, exp).status != Success
    ensures Route(DigestInit(hashAlg, size)) == Software
    ensures Route(DigestExtend(buf, size)) == Fail && Route(DigestFinalize(digest, size).status) == Fail
    ensures Route(RsaVerifyDigest(key, sig, digest)) == Software
    ensures Route(Modexp(key, buf, workbuf, |workbuf|, exp).status) == Software
  {
  }
}
