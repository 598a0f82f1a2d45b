# vboot work buffer and default hardware-crypto hooks, in Dafny

This project models two parts of vboot's firmware library.

**The work-buffer context** (`firmware/2lib/2context.c`). A caller hands vboot a raw,
aligned buffer. `vb2api_init` stamps a `struct vb2_shared_data` header at its start. The
header holds a magic number, a major and minor version, the buffer size, the amount used,
and the embedded `vb2_context` with its flags and boot mode. The rest of the buffer is
scratch space, handed out from `workbuf_used` upwards (`vb2_workbuf_from_ctx`) and claimed
by `vb2_set_workbuf_used`. `vb2api_relocate` checks a header and moves its used bytes to
another buffer, possibly overlapping, possibly the same one. It then records the new size.
A header of minor version 0 is migrated to version 1 by writing the boot mode that
`get_boot_mode` derives from the context flags. `vb2api_reinit` is a relocation onto the
same buffer with the recorded size.

**The default hooks** (`firmware/2lib/2stub_hwcrypto.c`). These are what `vb2ex_hwcrypto_*`
does when the platform supplies no accelerator. Init, RSA verify and modexp answer
"unsupported", which is the signal to use software. Digest extend and finalize fail with
hard errors, because they are only reachable after a hardware session that the default
never opens.

Layout of the model:

- `bytes.dfy` (module `Bytes`): little-endian encoding of unsigned integers as bytes, with
  both round trips.
- `status.dfy` (module `Status`): the `vb2_error_t` values used, and `Option`.
- `abi.dfy` (module `Abi`): the build constants, kept abstract.
  - `VB2_WORKBUF_ALIGN` is any positive alignment.
  - The header layout is any layout whose fields lie inside the header without overlapping.
  - The magic, the major version, the two flag masks and the boot-mode codes are
    uninterpreted constants.
  - `vb2_wb_round_up` is `RoundUp`.
- `memory.dfy` (module `Memory`): memory is one `array<byte>` indexed by address, where `byte` is the integers 0 to 255 (`Bytes.byte`). `Store`,
  `Memset0` and `Memmove` are the writes the code makes. Each is tied to a function on the
  memory contents (`Put`, `Clear`, `Move`), with lemmas saying which bytes change.
  `Memmove` is correct for overlapping ranges.
- `context.dfy` (module `Context`): the header as it decodes from memory (`HeaderAt`), and
  the six operations.
  - The ghost functions `InitImage`, `RelocateImage` and `ReinitImage` give the memory each
    operation leaves. Each method's postcondition ties the array to them.
  - Lemmas state what those images mean: which header fields hold what, which bytes moved,
    and what stayed the same.
  - Pointer out-parameters are results. `ctx` is `Some(address of the embedded context)`
    or `None` for NULL. `VB2_SHARED_DATA_VERSION_MINOR` is the parameter `expectedMinor`.
- `hwcrypto.dfy` (module `HwCrypto`): the five default hooks as total functions, the
  routing convention for their status, and `struct vb2_public_key` (`2rsa.h:15-26`) as the
  key datatype.

Behaviour of the code that the model follows:

- `vb2api_init` zeroes only `sizeof(struct vb2_shared_data)` bytes, not the whole buffer.
  Scratch bytes past the header keep their old contents (`Context.InitBytes`).
- `vb2api_init` sets `*ctxptr` to NULL before its checks. `vb2api_relocate` and
  `vb2api_reinit` leave `*ctxptr` as it was when they fail (`ctxIn` in the model).
- The length computed by `vb2_workbuf_from_ctx` is a 32-bit difference. Its wrap-around for
  an inconsistent header is modelled.

## Model

| member | source | states |
|---|---|---|
| Context.GetBootMode | firmware/2lib/2context.c:58-67 | manual recovery exactly when the recovery flag is set; developer exactly when the developer flag is set and the recovery flag is not; normal exactly when neither is set |
| Context.WorkbufFromCtx | firmware/2lib/2context.c:13-18 | the scratch region starts `workbuf_used` bytes into the buffer and, when the bookkeeping is consistent, ends at `workbuf_size`; when used exceeds size, its length is the wrapped 32-bit difference |
| Context.SetWorkbufUsed | firmware/2lib/2context.c:20-24 | the memory afterwards is the old memory with `workbuf_used` holding the rounded request, as a uint32_t |
| Context.SetWorkbufUsedEffect | firmware/2lib/2context.c:20-24 | only `workbuf_used` changes in the header; without 32-bit overflow the stored value is at least the request, aligned, and the least such value, and the scratch view then starts there |
| Context.Init | firmware/2lib/2context.c:26-50 | a misaligned buffer gives VB2_ERROR_WORKBUF_ALIGN, and one smaller than the rounded header gives VB2_ERROR_WORKBUF_SMALL; on both errors ctx is NULL and memory is untouched; otherwise success, ctx points to the embedded context, and memory is the zeroed and stamped header image |
| Context.StampHeader | firmware/2lib/2context.c:38-46 | the memset of the header followed by the five field stores gives exactly the init image |
| Context.ClearedHeader | firmware/2lib/2context.c:38-39 | after the memset every header field decodes as zero |
| Context.StoredUsedLeast | firmware/2lib/2context.c:23 | when rounding does not overflow 32 bits, the stored amount is the rounded request: at least the request, aligned, and below every other aligned value at or above it |
| Context.InitHeader | firmware/2lib/2context.c:38-46 | after init the header holds the magic, the major version, the expected minor version, the given size and the rounded header size as used, with zero flags and zero boot mode |
| Context.InitBytes | firmware/2lib/2context.c:38-46 | init writes only header bytes: header bytes outside the five stamped fields are zero, and every byte past the header is as before |
| Context.StampFieldsBytes | firmware/2lib/2context.c:41-46 | the five field stores change no byte outside those fields |
| Context.InitScratch | firmware/2lib/2context.c:13-50 | after init the scratch view starts at the rounded header size and spans the rest of the buffer |
| Context.InitValid | firmware/2lib/2context.c:26-106 | init leaves a header that passes every relocate check without migration, recording the given size |
| Context.VersionCheck | firmware/2lib/2context.c:86-96 | the version is accepted exactly when the major version matches and the minor version is at least the expected one, or is 0 with 1 expected; migration happens exactly when the minor version is older; rejection is VB2_ERROR_SHARED_DATA_VERSION |
| Context.RelocateCheck | firmware/2lib/2context.c:79-106 | relocation is accepted exactly when the new buffer is aligned, the magic and version pass and round_up(sizeof) <= used <= recorded size and used <= new size; otherwise the error is that of the first failing check (align, magic, version, invalid, small), each stated both ways |
| Context.Relocate | firmware/2lib/2context.c:72-125 | on rejection the status is the check's error, memory is unchanged and ctx is as before; on acceptance the status is success, ctx points to the new context, and memory is the relocate image |
| Context.MoveAndStamp | firmware/2lib/2context.c:108-122 | the memmove (skipped when the buffers coincide) followed by the header stores gives exactly the relocate image |
| Context.Stamp | firmware/2lib/2context.c:112-122 | stores the new size and, when migrating, minor version 1 and then the boot mode computed from the flags in the new buffer |
| Context.MoveImageHeader | firmware/2lib/2context.c:99-110 | the memmove carries the whole header, because used covers the rounded header size, so the new address decodes to the current header |
| Context.StampImageHeader | firmware/2lib/2context.c:112-122 | the header stores set `workbuf_size`, and when migrating also minor version 1 and the boot mode of the flags, and change no other header field |
| Context.RelocateHeader | firmware/2lib/2context.c:108-122 | after relocation the new header is the old one with the new size, plus minor version 1 and the boot mode when migrating; with no migration and the same size it is the old header exactly |
| Context.StampImageKeeps | firmware/2lib/2context.c:112-122 | the header stores change no byte outside the rewritten fields |
| Context.MoveImageAt | firmware/2lib/2context.c:109-110 | after the move a byte of the new used range comes from the matching byte of the old buffer, and a byte outside it is as before |
| Context.RelocateBytes | firmware/2lib/2context.c:108-122 | the first `used` bytes of the new buffer are the first `used` bytes of the old buffer, taken from before the call even when the buffers overlap, except the rewritten fields; no byte outside the new buffer's used range changes |
| Context.RelocateInPlace | firmware/2lib/2context.c:108-122 | relocating onto the same buffer changes only the rewritten fields, and with no migration and the recorded size changes nothing |
| Context.ValidAccepted | firmware/2lib/2context.c:79-106 | a valid header is accepted without migration into any aligned buffer that holds its used bytes |
| Context.RelocateValid | firmware/2lib/2context.c:72-125 | whatever relocation accepts, it leaves a valid header that records the new size and needs no further migration |
| Context.Reinit | firmware/2lib/2context.c:128-134 | reinit is relocate from the buffer to itself with the recorded size: the same status, ctx and memory, which is the reinit image |
| Context.ReinitValidUnchanged | firmware/2lib/2context.c:128-134 | on a valid header at an aligned address, reinit is accepted without migration and leaves memory exactly as it was |
| Context.ReinitAccepted | firmware/2lib/2context.c:128-134 | after an accepted reinit the buffer is valid and still satisfies the bounds reinit needs |
| Context.ReinitIdempotent | firmware/2lib/2context.c:128-134 | a second reinit accepts without migration whatever the first accepted, rejects with the same error whatever the first rejected, and changes nothing |
| Context.InitThenReinit | firmware/2lib/2context.c:26-134 | a buffer fresh from init is accepted by reinit without migration, and reinit leaves it unchanged |
| Context.PutHeaderField | firmware/2lib/2context.c:42-46 | storing one header field changes that field of the decoded header to the stored value and no other field |
| Abi.RoundUpBounds | firmware/2lib/2context.c:23 | the rounded value is aligned, at least the argument, and less than the argument plus the alignment |
| Abi.RoundUpLeast | firmware/2lib/2context.c:23 | the rounded value is at most every aligned value at or above the argument |
| Memory.Store | firmware/2lib/2context.c:42-46 | a little-endian store of a field of the given width equals the `Put` image |
| Memory.Memset0 | firmware/2lib/2context.c:39 | the memset equals the `Clear` image |
| Memory.Memmove | firmware/2lib/2context.c:109-110 | the memmove equals the `Move` image, with the source read as it was before the call, so overlap is handled |
| Memory.MoveBytes | firmware/2lib/2context.c:109-110 | the destination range holds the old source bytes, and everything else is unchanged |
| Memory.FieldOfPut | firmware/2lib/2context.c:42-46 | a stored field reads back as the stored value |
| Memory.PutSame | firmware/2lib/2context.c:114 | storing the value a field already holds changes nothing |
| HwCrypto.DigestInit | firmware/2lib/2stub_hwcrypto.c:12-16 | every hash algorithm and data size gives VB2_ERROR_EX_HWCRYPTO_UNSUPPORTED, which routes to software |
| HwCrypto.DigestExtend | firmware/2lib/2stub_hwcrypto.c:19-22 | gives VB2_ERROR_SHA_EXTEND_ALGORITHM, a hard error that is neither success nor unsupported |
| HwCrypto.DigestFinalize | firmware/2lib/2stub_hwcrypto.c:25-29 | gives VB2_ERROR_SHA_FINALIZE_ALGORITHM, a hard error, and leaves the digest buffer as it was |
| HwCrypto.RsaVerifyDigest | firmware/2lib/2stub_hwcrypto.c:33-37 | every key, signature and digest gives unsupported: never success and never a verification failure |
| HwCrypto.Modexp | firmware/2lib/2stub_hwcrypto.c:41-46 | gives unsupported and leaves `inout` and the scratch buffer as they were |
| HwCrypto.Route | firmware/2lib/2stub_hwcrypto.c:10-46 | not a model of these lines but the caller convention the stubs' statuses are judged by (the callers are not part of this model): success stays on the hardware path, unsupported exactly falls back to software, and every other status fails |
| HwCrypto.NoStubSucceeds | firmware/2lib/2stub_hwcrypto.c:10-46 | no default hook returns success: init, RSA verify and modexp route to software, and extend and finalize fail |

## Left out

- The concrete values of `VB2_WORKBUF_ALIGN`, `sizeof(struct vb2_shared_data)`, the field offsets, the magic, the major version, the context flag masks and the boot-mode codes are abstract constants. Every property holds for any such values, given a layout whose fields fit inside the header without overlapping.
- Context.SetWorkbufUsed: the definition of `vb2_wb_round_up` is not part of this model; 2context.c only calls it. The model rounds arithmetically to the next multiple of the alignment, and the reduction modulo 2^32 comes from storing the result into the `uint32_t` field `workbuf_used` (the 4-byte `Encode` of `Store`), whatever width the macro is evaluated in.
- Multi-byte header fields are little-endian. The byte order of the target is not a parameter.
- The reads and writes of header fields go through the header layout. `vb2_get_sd` (the context-to-header step) and `vb2_workbuf_init` are not shown, so the context address is taken as a fixed offset into the header, and the scratch view is the address and length `vb2_workbuf_init` would receive.
- The methods require memory that the C code assumes without checking. `Context.Init` requires the `size` bytes the caller claims, even on its error paths. `Context.Relocate` requires the current header and, whenever that header's bookkeeping is consistent, the used range at both addresses, even when an earlier check fails. `Context.Reinit` requires the same with the recorded size. `Context.SetWorkbufUsed` requires the header.
- Build-time selection (`__attribute__((weak))`, `X86_SHA_EXT`, `ARMV8_CRYPTO_EXT`, `VB2_X86_RSA_ACCELERATION`) and real hardware hook implementations: only the default stubs are modelled.
- The RSA verifier declared in `2rsa.h` (`vb2_rsa_verify_digest`, `vb2_rsa_sig_size`, `vb2_packed_key_size`) and `VB2_VERIFY_RSA_DIGEST_WORKBUF_BYTES`: their definitions are not part of this model.
- `scripts/image_signing/sign_uefi.py` runs external signing tools. `tests/verify_kernel.c` is a host test program over file I/O. Neither is part of this model.
