/**
 * The vboot work buffer and context (firmware/2lib/2context.c).
 *
 * Memory is one byte array indexed by address; a work buffer is an address
 * into it. The buffer starts with struct vb2_shared_data, whose fields are
 * read from and written to the bytes at the offsets LAYOUT gives; the rest of
 * the buffer is scratch space handed out from `workbuf_used` upwards.
 */
module Context {
  import opened Bytes
  import opened Status
  import opened Abi
  import opened Memory

  /** The header fields the code reads, as stored in the buffer. */
  datatype SharedData = SharedData(
    magic: nat, versionMajor: nat, versionMinor: nat,
    workbufSize: nat, workbufUsed: nat, flags: nat, bootMode: nat)

  function Get(sd: SharedData, f: FieldId): nat {
    match f
    case Magic => sd.magic
    case VersionMajor => sd.versionMajor
    case VersionMinor => sd.versionMinor
    case WorkbufSize => sd.workbufSize
    case WorkbufUsed => sd.workbufUsed
    case Flags => sd.flags
    case BootMode => sd.bootMode
  }

  function With(sd: SharedData, f: FieldId, v: nat): SharedData {
    match f
    case Magic => sd.(magic := v)
    case VersionMajor => sd.(versionMajor := v)
    case VersionMinor => sd.(versionMinor := v)
    case WorkbufSize => sd.(workbufSize := v)
    case WorkbufUsed => sd.(workbufUsed := v)
    case Flags => sd.(flags := v)
    case BootMode => sd.(bootMode := v)
  }

  /** A whole header lies in memory at address sd. */
  predicate HeaderFits(m: seq<byte>, sd: nat) {
    sd + SHARED_DATA_SIZE <= |m|
  }

  /** Address of field f of the header at sd. */
  function At(sd: nat, f: FieldId): nat {
    sd + Offset(LAYOUT, f)
  }

  function FieldAt(m: seq<byte>, sd: nat, f: FieldId): (v: nat)
    requires HeaderFits(m, sd)
    ensures v < Pow256(Width(f))
  {
    Field(m, At(sd, f), Width(f))
  }

  /** The header at address sd, decoded from memory. */
  function HeaderAt(m: seq<byte>, sd: nat): (h: SharedData)
    requires HeaderFits(m, sd)
    ensures h.flags < 0x1_0000_0000_0000_0000
    ensures h.workbufSize < 0x1_0000_0000 && h.workbufUsed < 0x1_0000_0000
  {
    Pow256Widths();
    SharedData(
      FieldAt(m, sd, Magic), FieldAt(m, sd, VersionMajor), FieldAt(m, sd, VersionMinor),
      FieldAt(m, sd, WorkbufSize), FieldAt(m, sd, WorkbufUsed),
      FieldAt(m, sd, Flags), FieldAt(m, sd, BootMode))
  }

  /** Offset o of the header lies inside field f. */
  predicate InField(o: nat, f: FieldId) {
    Offset(LAYOUT, f) <= o < Offset(LAYOUT, f) + Width(f)
  }

  // ---------------------------------------------------------------------
  // Reasoning about header fields in memory

  /** A header is determined by its own bytes, wherever it lies. */
  lemma HeaderFrame(m1: seq<byte>, a1: nat, m2: seq<byte>, a2: nat)
    requires HeaderFits(m1, a1) && HeaderFits(m2, a2)
    requires forall i :: a1 <= i < a1 + SHARED_DATA_SIZE ==> m1[i] == m2[i - a1 + a2]
    ensures HeaderAt(m1, a1) == HeaderAt(m2, a2)
  {
    forall f ensures FieldAt(m1, a1, f) == FieldAt(m2, a2, f) {
      FieldFits(f);
      FieldFrame(m1, At(a1, f), m2, At(a2, f), Width(f));
    }
  }

  /** Storing one field changes that field of the decoded header and no other. */
  lemma PutHeaderField(m: seq<byte>, sd: nat, f: FieldId, v: nat)
    requires HeaderFits(m, sd) && v < Pow256(Width(f))
    ensures HeaderAt(Put(m, At(sd, f), Width(f), v), sd) == With(HeaderAt(m, sd), f, v)
  {
    FieldFits(f);
    var m' := Put(m, At(sd, f), Width(f), v);
    var h := With(HeaderAt(m, sd), f, v);
    forall g ensures FieldAt(m', sd, g) == Get(h, g) {
      GetWith(HeaderAt(m, sd), f, v, g);
      if g == f {
        FieldOfPut(m, At(sd, f), Width(f), v);
      } else {
        PutOtherField(m, sd, f, g, v);
      }
    }
    HeaderFromFields(m', sd, h);
  }

  lemma GetWith(h: SharedData, f: FieldId, v: nat, g: FieldId)
    ensures Get(With(h, f, v), g) == if g == f then v else Get(h, g)
  {
  }

  /** A header whose every field reads as that of h is h. */
  lemma HeaderFromFields(m: seq<byte>, sd: nat, h: SharedData)
    requires HeaderFits(m, sd)
    requires forall g :: FieldAt(m, sd, g) == Get(h, g)
    ensures HeaderAt(m, sd) == h
  {
    assert FieldAt(m, sd, Magic) == h.magic;
    assert FieldAt(m, sd, VersionMajor) == h.versionMajor;
    assert FieldAt(m, sd, VersionMinor) == h.versionMinor;
    assert FieldAt(m, sd, WorkbufSize) == h.workbufSize;
    assert FieldAt(m, sd, WorkbufUsed) == h.workbufUsed;
    assert FieldAt(m, sd, Flags) == h.flags;
    assert FieldAt(m, sd, BootMode) == h.bootMode;
  }

  /** Storing field f leaves every other field g as it reads. */
  lemma PutOtherField(m: seq<byte>, sd: nat, f: FieldId, g: FieldId, v: nat)
    requires HeaderFits(m, sd) && f != g
    ensures FieldAt(Put(m, At(sd, f), Width(f), v), sd, g) == FieldAt(m, sd, g)
  {
    FieldFits(f);
    FieldFits(g);
    FieldsApart(f, g);
    var m' := Put(m, At(sd, f), Width(f), v);
    PutBytes(m, At(sd, f), Width(f), v);
    FieldFrame(m', At(sd, g), m, At(sd, g), Width(g));
  }

  // ---------------------------------------------------------------------
  // get_boot_mode

  /** `flags & mask` is non-zero. */
  predicate FlagSet(flags: u64, mask: bv64) {
    (flags as bv64) & mask != 0
  }

  /** get_boot_mode: the recovery flag takes precedence over the developer flag. */
  function GetBootMode(flags: u64): (mode: BootModeValue)
    ensures mode == ManualRecovery <==> FlagSet(flags, CONTEXT_RECOVERY_MODE)
    ensures mode == Developer <==>
      !FlagSet(flags, CONTEXT_RECOVERY_MODE) && FlagSet(flags, CONTEXT_DEVELOPER_MODE)
    ensures mode == Normal <==>
      !FlagSet(flags, CONTEXT_RECOVERY_MODE) && !FlagSet(flags, CONTEXT_DEVELOPER_MODE)
  {
    if FlagSet(flags, CONTEXT_RECOVERY_MODE) then ManualRecovery
    else if FlagSet(flags, CONTEXT_DEVELOPER_MODE) then Developer
    else Normal
  }

  // ---------------------------------------------------------------------
  // vb2_workbuf_from_ctx

  /** struct vb2_workbuf: a scratch region given by its address and length. */
  datatype Workbuf = Workbuf(buf: nat, size: nat)

  /**
   * vb2_workbuf_from_ctx for the header at sd: the scratch region is the
   * unused tail of the buffer. The length is a 32-bit difference, so it
   * wraps when the header records more bytes used than the buffer holds.
   */
  function WorkbufFromCtx(m: seq<byte>, sd: nat): (wb: Workbuf)
    requires HeaderFits(m, sd)
    ensures var h := HeaderAt(m, sd);
      wb.buf == sd + h.workbufUsed &&
      (h.workbufUsed <= h.workbufSize ==> wb.buf + wb.size == sd + h.workbufSize) &&
      (h.workbufSize < h.workbufUsed ==> wb.size == 0x1_0000_0000 + h.workbufSize - h.workbufUsed)
  {
    var h := HeaderAt(m, sd);
    Workbuf(sd + h.workbufUsed, (h.workbufSize - h.workbufUsed) % 0x1_0000_0000)
  }

  // ---------------------------------------------------------------------
  // vb2_set_workbuf_used

  /** The value vb2_set_workbuf_used stores: the rounded amount, as a uint32_t. */
  function StoredUsed(used: u32): u32 {
    RoundUp(used) % 0x1_0000_0000
  }

  /** vb2_set_workbuf_used for the header at sd. */
  method SetWorkbufUsed(mem: array<byte>, sd: nat, used: u32)
    requires HeaderFits(mem[..], sd)
    modifies mem
    ensures mem[..] == Put(old(mem[..]), At(sd, WorkbufUsed), 4, StoredUsed(used))
  {
    Store(mem, At(sd, WorkbufUsed), 4, StoredUsed(used));
  }

  /**
   * Setting the used amount changes workbuf_used and no other header field;
   * unless rounding leaves 32 bits, the new amount is the least aligned value
   * at or above the request, and the scratch view starts there.
   */
  lemma SetWorkbufUsedEffect(m: seq<byte>, sd: nat, used: u32)
    requires HeaderFits(m, sd)
    ensures var m' := Put(m, At(sd, WorkbufUsed), 4, StoredUsed(used));
      HeaderFits(m', sd) &&
      HeaderAt(m', sd) == HeaderAt(m, sd).(workbufUsed := StoredUsed(used)) &&
      (RoundUp(used) < 0x1_0000_0000 ==>
        var u := HeaderAt(m', sd).workbufUsed;
        used <= u && Aligned(u) && (forall y :: used <= y && Aligned(y) ==> u <= y) &&
        WorkbufFromCtx(m', sd).buf == sd + RoundUp(used))
  {
    Pow256Widths();
    PutHeaderField(m, sd, WorkbufUsed, StoredUsed(used));
    StoredUsedLeast(used);
  }

  /** Without 32-bit overflow the stored amount is the least aligned value at or above the request. */
  lemma StoredUsedLeast(used: u32)
    ensures RoundUp(used) < 0x1_0000_0000 ==>
      var u := StoredUsed(used);
      u == RoundUp(used) && used <= u && Aligned(u) && (forall y :: used <= y && Aligned(y) ==> u <= y)
  {
    if RoundUp(used) < 0x1_0000_0000 {
      RoundUpBounds(used);
      forall y | used <= y && Aligned(y) ensures RoundUp(used) <= y {
        RoundUpLeast(used, y);
      }
    }
  }

  // ---------------------------------------------------------------------
  // vb2api_init

  /** The memory vb2api_init leaves behind on success: the header zeroed, then stamped. */
  ghost function InitImage(m: seq<byte>, sd: nat, size: u32, minor: u16): (r: seq<byte>)
    requires HeaderFits(m, sd)
  {
    StampFields(Clear(m, sd, SHARED_DATA_SIZE), sd, size, minor)
  }

  /** The five field stores of vb2api_init. */
  ghost function StampFields(m0: seq<byte>, sd: nat, size: u32, minor: u16): (r: seq<byte>)
    requires HeaderFits(m0, sd)
    ensures |r| == |m0|
  {
    var m1 := Put(m0, At(sd, Magic), 4, SHARED_DATA_MAGIC);
    var m2 := Put(m1, At(sd, VersionMajor), 2, SHARED_DATA_VERSION_MAJOR);
    var m3 := Put(m2, At(sd, VersionMinor), 2, minor);
    var m4 := Put(m3, At(sd, WorkbufSize), 4, size);
    Put(m4, At(sd, WorkbufUsed), 4, RoundUp(SHARED_DATA_SIZE))
  }

  /**
   * vb2api_init(workbuf, size, &ctx) with workbuf at address sd and
   * VB2_SHARED_DATA_VERSION_MINOR given as expectedMinor. ctx is the value
   * left in *ctxptr: None is NULL.
   */
  method Init(mem: array<byte>, sd: nat, size: u32, expectedMinor: u16)
    returns (status: Status, ctx: Option<nat>)
    requires sd + size <= mem.Length
    modifies mem
    ensures !Aligned(sd) ==> status == ErrorWorkbufAlign
    ensures Aligned(sd) && size < RoundUp(SHARED_DATA_SIZE) ==> status == ErrorWorkbufSmall
    ensures Aligned(sd) && RoundUp(SHARED_DATA_SIZE) <= size ==> status == Success
    ensures status != Success ==> ctx == None && mem[..] == old(mem[..])
    ensures status == Success ==>
      ctx == Some(sd + LAYOUT.ctx) && mem[..] == InitImage(old(mem[..]), sd, size, expectedMinor)
  {
    ctx := None;
    if !Aligned(sd) {
      return ErrorWorkbufAlign, ctx;
    }
    if size < RoundUp(SHARED_DATA_SIZE) {
      return ErrorWorkbufSmall, ctx;
    }
    StampHeader(mem, sd, size, expectedMinor);
    ctx := Some(sd + LAYOUT.ctx);
    status := Success;
  }

  /** The writes of a successful vb2api_init: zero the header, then stamp it. */
  method StampHeader(mem: array<byte>, sd: nat, size: u32, minor: u16)
    requires HeaderFits(mem[..], sd)
    modifies mem
    ensures mem[..] == InitImage(old(mem[..]), sd, size, minor)
  {
    Memset0(mem, sd, SHARED_DATA_SIZE);
    Store(mem, At(sd, Magic), 4, SHARED_DATA_MAGIC);
    Store(mem, At(sd, VersionMajor), 2, SHARED_DATA_VERSION_MAJOR);
    Store(mem, At(sd, VersionMinor), 2, minor);
    Store(mem, At(sd, WorkbufSize), 4, size);
    Store(mem, At(sd, WorkbufUsed), 4, RoundUp(SHARED_DATA_SIZE));
  }

  /** A freshly cleared header decodes as all zeros. */
  lemma ClearedHeader(m: seq<byte>, sd: nat)
    requires HeaderFits(m, sd)
    ensures HeaderAt(Clear(m, sd, SHARED_DATA_SIZE), sd) == SharedData(0, 0, 0, 0, 0, 0, 0)
  {
    var m0 := Clear(m, sd, SHARED_DATA_SIZE);
    forall f ensures FieldAt(m0, sd, f) == 0 {
      FieldFits(f);
      FieldOfZeros(m0, At(sd, f), Width(f));
    }
  }

  /**
   * After a successful vb2api_init the header holds the magic, the version,
   * the given size and the rounded header size as the amount used; the
   * context flags and boot mode are zero.
   */
  lemma InitHeader(m: seq<byte>, sd: nat, size: u32, minor: u16)
    requires sd + size <= |m| && RoundUp(SHARED_DATA_SIZE) <= size
    ensures HeaderFits(m, sd)
    ensures HeaderAt(InitImage(m, sd, size, minor), sd) ==
      SharedData(SHARED_DATA_MAGIC, SHARED_DATA_VERSION_MAJOR, minor, size, RoundUp(SHARED_DATA_SIZE), 0, 0)
  {
    Pow256Widths();
    var m0 := Clear(m, sd, SHARED_DATA_SIZE);
    ClearedHeader(m, sd);
    var m1 := Put(m0, At(sd, Magic), 4, SHARED_DATA_MAGIC);
    PutHeaderField(m0, sd, Magic, SHARED_DATA_MAGIC);
    var m2 := Put(m1, At(sd, VersionMajor), 2, SHARED_DATA_VERSION_MAJOR);
    PutHeaderField(m1, sd, VersionMajor, SHARED_DATA_VERSION_MAJOR);
    var m3 := Put(m2, At(sd, VersionMinor), 2, minor);
    PutHeaderField(m2, sd, VersionMinor, minor);
    var m4 := Put(m3, At(sd, WorkbufSize), 4, size);
    PutHeaderField(m3, sd, WorkbufSize, size);
    PutHeaderField(m4, sd, WorkbufUsed, RoundUp(SHARED_DATA_SIZE));
  }

  /** Offset o of the header lies in one of the fields vb2api_init stamps after zeroing. */
  predicate Stamped(o: nat) {
    InField(o, Magic) || InField(o, VersionMajor) || InField(o, VersionMinor) ||
    InField(o, WorkbufSize) || InField(o, WorkbufUsed)
  }

  /**
   * vb2api_init writes only the header: every header byte outside the five
   * stamped fields is zero, and every byte outside the header is as before.
   */
  lemma InitBytes(m: seq<byte>, sd: nat, size: u32, minor: u16)
    requires HeaderFits(m, sd)
    ensures var r := InitImage(m, sd, size, minor);
      |r| == |m| &&
      (forall i :: 0 <= i < |m| && !(sd <= i < sd + SHARED_DATA_SIZE) ==> r[i] == m[i]) &&
      (forall i :: sd <= i < sd + SHARED_DATA_SIZE && !Stamped(i - sd) ==> r[i] == 0)
  {
    var m0 := Clear(m, sd, SHARED_DATA_SIZE);
    ClearBytes(m, sd, SHARED_DATA_SIZE);
    StampFieldsBytes(m0, sd, size, minor);
  }

  /** The five stores change only the stamped fields. */
  lemma StampFieldsBytes(m0: seq<byte>, sd: nat, size: u32, minor: u16)
    requires HeaderFits(m0, sd)
    ensures var r := StampFields(m0, sd, size, minor);
      forall i :: 0 <= i < |m0| && !(sd <= i < sd + SHARED_DATA_SIZE && Stamped(i - sd)) ==> r[i] == m0[i]
  {
    var m1 := Put(m0, At(sd, Magic), 4, SHARED_DATA_MAGIC);
    var m2 := Put(m1, At(sd, VersionMajor), 2, SHARED_DATA_VERSION_MAJOR);
    var m3 := Put(m2, At(sd, VersionMinor), 2, minor);
    var m4 := Put(m3, At(sd, WorkbufSize), 4, size);
    FieldFits(Magic); FieldFits(VersionMajor); FieldFits(VersionMinor);
    FieldFits(WorkbufSize); FieldFits(WorkbufUsed);
    forall i | 0 <= i < |m0| && !(sd <= i < sd + SHARED_DATA_SIZE && Stamped(i - sd))
      ensures StampFields(m0, sd, size, minor)[i] == m0[i]
    {
      PutKeeps(m0, At(sd, Magic), 4, SHARED_DATA_MAGIC, i);
      PutKeeps(m1, At(sd, VersionMajor), 2, SHARED_DATA_VERSION_MAJOR, i);
      PutKeeps(m2, At(sd, VersionMinor), 2, minor, i);
      PutKeeps(m3, At(sd, WorkbufSize), 4, size, i);
      PutKeeps(m4, At(sd, WorkbufUsed), 4, RoundUp(SHARED_DATA_SIZE), i);
    }
  }

  /** After vb2api_init the scratch view is the whole buffer past the rounded header. */
  lemma InitScratch(m: seq<byte>, sd: nat, size: u32, minor: u16)
    requires sd + size <= |m| && RoundUp(SHARED_DATA_SIZE) <= size
    ensures HeaderFits(m, sd)
    ensures WorkbufFromCtx(InitImage(m, sd, size, minor), sd) ==
      Workbuf(sd + RoundUp(SHARED_DATA_SIZE), size - RoundUp(SHARED_DATA_SIZE))
  {
    InitHeader(m, sd, size, minor);
  }

  // ---------------------------------------------------------------------
  // vb2api_relocate

  /** The verdict of the checks vb2api_relocate makes before it writes anything. */
  datatype Check = Accept(migrate: bool) | Reject(error: Status)

  /**
   * The version rule: the major version must match; an older minor version is
   * accepted only as the one defined upgrade, from 0 to an expected 1, which
   * then has to be migrated.
   */
  function VersionCheck(major: nat, minor: nat, expectedMinor: nat): (c: Check)
    ensures c.Accept? <==>
      major == SHARED_DATA_VERSION_MAJOR && (expectedMinor <= minor || (minor == 0 && expectedMinor == 1))
    ensures c.Accept? ==> (c.migrate <==> minor < expectedMinor)
    ensures c.Reject? ==> c.error == ErrorSharedDataVersion
  {
    if major != SHARED_DATA_VERSION_MAJOR || minor < expectedMinor then
      if major == SHARED_DATA_VERSION_MAJOR && minor == 0 && expectedMinor == 1 then Accept(true)
      else Reject(ErrorSharedDataVersion)
    else Accept(false)
  }

  /** The bookkeeping a header must satisfy to be moved into a buffer of `size` bytes. */
  predicate Bookkept(sd: SharedData, size: nat) {
    RoundUp(SHARED_DATA_SIZE) <= sd.workbufUsed <= sd.workbufSize && sd.workbufUsed <= size
  }

  /**
   * The checks of vb2api_relocate, in the order the code makes them: a
   * header is accepted exactly when the new buffer is aligned, the magic and
   * version are right and the bookkeeping is consistent, and otherwise the
   * error is that of the first check that fails.
   */
  function RelocateCheck(sd: SharedData, newBuf: nat, size: nat, expectedMinor: nat): (c: Check)
    ensures c.Accept? <==>
      Aligned(newBuf) && sd.magic == SHARED_DATA_MAGIC &&
      VersionCheck(sd.versionMajor, sd.versionMinor, expectedMinor).Accept? && Bookkept(sd, size)
    ensures c.Accept? ==> c.migrate == VersionCheck(sd.versionMajor, sd.versionMinor, expectedMinor).migrate
    ensures !Aligned(newBuf) ==> c == Reject(ErrorWorkbufAlign)
    ensures Aligned(newBuf) && sd.magic != SHARED_DATA_MAGIC ==> c == Reject(ErrorSharedDataMagic)
    ensures Aligned(newBuf) && sd.magic == SHARED_DATA_MAGIC &&
            VersionCheck(sd.versionMajor, sd.versionMinor, expectedMinor).Reject?
            ==> c == Reject(ErrorSharedDataVersion)
    ensures c.Reject? && c.error == ErrorWorkbufInvalid <==>
      Aligned(newBuf) && sd.magic == SHARED_DATA_MAGIC &&
      VersionCheck(sd.versionMajor, sd.versionMinor, expectedMinor).Accept? &&
      !(RoundUp(SHARED_DATA_SIZE) <= sd.workbufUsed <= sd.workbufSize)
    ensures c.Reject? && c.error == ErrorWorkbufSmall <==>
      Aligned(newBuf) && sd.magic == SHARED_DATA_MAGIC &&
      VersionCheck(sd.versionMajor, sd.versionMinor, expectedMinor).Accept? &&
      RoundUp(SHARED_DATA_SIZE) <= sd.workbufUsed <= sd.workbufSize && size < sd.workbufUsed
  {
    if !Aligned(newBuf) then Reject(ErrorWorkbufAlign)
    else if sd.magic != SHARED_DATA_MAGIC then Reject(ErrorSharedDataMagic)
    else
      match VersionCheck(sd.versionMajor, sd.versionMinor, expectedMinor)
      case Reject(e) => Reject(e)
      case Accept(migrate) =>
        if sd.workbufUsed < RoundUp(SHARED_DATA_SIZE) then Reject(ErrorWorkbufInvalid)
        else if sd.workbufSize < sd.workbufUsed then Reject(ErrorWorkbufInvalid)
        else if sd.workbufUsed > size then Reject(ErrorWorkbufSmall)
        else Accept(migrate)
  }

  /**
   * What the caller of vb2api_relocate guarantees about memory: the current
   * header can be read, and once its bookkeeping is consistent the bytes it
   * records as used exist at both the current and the new address.
   */
  ghost predicate MoveInBounds(m: seq<byte>, newBuf: nat, curBuf: nat, size: nat) {
    HeaderFits(m, curBuf) &&
    (Bookkept(HeaderAt(m, curBuf), size) ==>
      curBuf + HeaderAt(m, curBuf).workbufUsed <= |m| && newBuf + HeaderAt(m, curBuf).workbufUsed <= |m|)
  }

  /** The memory after the used bytes are moved to the new buffer, if it is another one. */
  ghost function MoveImage(m: seq<byte>, newBuf: nat, curBuf: nat, used: nat): (r: seq<byte>)
    requires curBuf + used <= |m| && newBuf + used <= |m|
    ensures |r| == |m|
  {
    if curBuf != newBuf then Move(m, newBuf, curBuf, used) else m
  }

  /** The memory after the new header is updated: its size, and the migration if due. */
  ghost function StampImage(m: seq<byte>, newBuf: nat, size: u32, migrate: bool): (r: seq<byte>)
    requires HeaderFits(m, newBuf)
    ensures |r| == |m|
  {
    var m2 := Put(m, At(newBuf, WorkbufSize), 4, size);
    if migrate then
      var m3 := Put(m2, At(newBuf, VersionMinor), 2, 1);
      Put(m3, At(newBuf, BootMode), 4, BootModeCode(GetBootMode(HeaderAt(m3, newBuf).flags)))
    else
      m2
  }

  /** The memory a successful vb2api_relocate leaves behind. */
  ghost function RelocateImage(m: seq<byte>, newBuf: nat, curBuf: nat, size: u32, migrate: bool): (r: seq<byte>)
    requires MoveInBounds(m, newBuf, curBuf, size) && Bookkept(HeaderAt(m, curBuf), size)
    ensures |r| == |m|
  {
    var used := HeaderAt(m, curBuf).workbufUsed;
    StampImage(MoveImage(m, newBuf, curBuf, used), newBuf, size, migrate)
  }

  /** The outcome of vb2api_relocate: m and m' are memory before and after. */
  ghost predicate RelocateResult(
    m: seq<byte>, m': seq<byte>, newBuf: nat, curBuf: nat, size: u32, expectedMinor: u16,
    ctxIn: Option<nat>, status: Status, ctx: Option<nat>)
    requires MoveInBounds(m, newBuf, curBuf, size)
  {
    match RelocateCheck(HeaderAt(m, curBuf), newBuf, size, expectedMinor)
    case Reject(e) => status == e && ctx == ctxIn && m' == m
    case Accept(migrate) =>
      status == Success && ctx == Some(newBuf + LAYOUT.ctx) &&
      m' == RelocateImage(m, newBuf, curBuf, size, migrate)
  }

  /**
   * vb2api_relocate(new_workbuf, cur_workbuf, size, &ctx) with the buffers at
   * addresses newBuf and curBuf and VB2_SHARED_DATA_VERSION_MINOR given as
   * expectedMinor. ctxIn is what *ctxptr held before: on an error it is left
   * as it was.
   */
  method Relocate(
    mem: array<byte>, newBuf: nat, curBuf: nat, size: u32, expectedMinor: u16, ctxIn: Option<nat>)
    returns (status: Status, ctx: Option<nat>)
    requires MoveInBounds(mem[..], newBuf, curBuf, size)
    modifies mem
    ensures RelocateResult(old(mem[..]), mem[..], newBuf, curBuf, size, expectedMinor, ctxIn, status, ctx)
  {
    ctx := ctxIn;
    if !Aligned(newBuf) {
      return ErrorWorkbufAlign, ctx;
    }
    if FieldAt(mem[..], curBuf, Magic) != SHARED_DATA_MAGIC {
      return ErrorSharedDataMagic, ctx;
    }
    var major := FieldAt(mem[..], curBuf, VersionMajor);
    var minor := FieldAt(mem[..], curBuf, VersionMinor);
    var updateBootMode := false;
    if major != SHARED_DATA_VERSION_MAJOR || minor < expectedMinor {
      if major == SHARED_DATA_VERSION_MAJOR && minor == 0 && expectedMinor == 1 {
        updateBootMode := true;
      } else {
        return ErrorSharedDataVersion, ctx;
      }
    }
    var used := FieldAt(mem[..], curBuf, WorkbufUsed);
    if used < RoundUp(SHARED_DATA_SIZE) {
      return ErrorWorkbufInvalid, ctx;
    }
    if FieldAt(mem[..], curBuf, WorkbufSize) < used {
      return ErrorWorkbufInvalid, ctx;
    }
    if used > size {
      return ErrorWorkbufSmall, ctx;
    }
    assert Bookkept(HeaderAt(mem[..], curBuf), size);
    MoveAndStamp(mem, newBuf, curBuf, size, updateBootMode);
    ctx := Some(newBuf + LAYOUT.ctx);
    status := Success;
  }

  /** The writes of a successful vb2api_relocate. */
  method MoveAndStamp(mem: array<byte>, newBuf: nat, curBuf: nat, size: u32, migrate: bool)
    requires MoveInBounds(mem[..], newBuf, curBuf, size) && Bookkept(HeaderAt(mem[..], curBuf), size)
    modifies mem
    ensures mem[..] == RelocateImage(old(mem[..]), newBuf, curBuf, size, migrate)
  {
    var used := FieldAt(mem[..], curBuf, WorkbufUsed);
    if curBuf != newBuf {
      Memmove(mem, newBuf, curBuf, used);
    }
    Stamp(mem, newBuf, size, migrate);
  }

  /** The header writes of a successful vb2api_relocate. */
  method Stamp(mem: array<byte>, newBuf: nat, size: u32, migrate: bool)
    requires HeaderFits(mem[..], newBuf)
    modifies mem
    ensures mem[..] == StampImage(old(mem[..]), newBuf, size, migrate)
  {
    Store(mem, At(newBuf, WorkbufSize), 4, size);
    if migrate {
      Store(mem, At(newBuf, VersionMinor), 2, 1);
      Pow256Widths();
      var flags := FieldAt(mem[..], newBuf, Flags);
      Store(mem, At(newBuf, BootMode), 4, BootModeCode(GetBootMode(flags)));
    }
  }

  // ---------------------------------------------------------------------
  // What vb2api_relocate does to memory

  /**
   * The header at the new address after the move is the current header:
   * memmove carries at least the whole header, because the checks demand
   * that the used amount covers the rounded header size.
   */
  lemma MoveImageHeader(m: seq<byte>, newBuf: nat, curBuf: nat, size: u32)
    requires MoveInBounds(m, newBuf, curBuf, size) && Bookkept(HeaderAt(m, curBuf), size)
    ensures var m1 := MoveImage(m, newBuf, curBuf, HeaderAt(m, curBuf).workbufUsed);
      HeaderFits(m1, newBuf) && HeaderAt(m1, newBuf) == HeaderAt(m, curBuf)
  {
    var used := HeaderAt(m, curBuf).workbufUsed;
    if curBuf != newBuf {
      var m1 := Move(m, newBuf, curBuf, used);
      MoveBytes(m, newBuf, curBuf, used);
      HeaderFrame(m1, newBuf, m, curBuf);
    }
  }

  /** The header updates: the new size, and with a migration minor version 1 and the boot mode. */
  lemma StampImageHeader(m: seq<byte>, newBuf: nat, size: u32, migrate: bool)
    requires HeaderFits(m, newBuf)
    ensures var sd := HeaderAt(m, newBuf);
      HeaderAt(StampImage(m, newBuf, size, migrate), newBuf) ==
        if migrate then
          sd.(workbufSize := size, versionMinor := 1, bootMode := BootModeCode(GetBootMode(sd.flags)))
        else
          sd.(workbufSize := size)
  {
    Pow256Widths();
    var m2 := Put(m, At(newBuf, WorkbufSize), 4, size);
    PutHeaderField(m, newBuf, WorkbufSize, size);
    if migrate {
      var m3 := Put(m2, At(newBuf, VersionMinor), 2, 1);
      PutHeaderField(m2, newBuf, VersionMinor, 1);
      PutHeaderField(m3, newBuf, BootMode, BootModeCode(GetBootMode(HeaderAt(m3, newBuf).flags)));
    }
  }

  /**
   * After a successful vb2api_relocate the header at the new address is the
   * old header with the new size; a migration also sets minor version 1 and
   * the boot mode get_boot_mode derives from the flags. A move to a buffer of
   * the same size without migration reproduces the header exactly.
   */
  lemma RelocateHeader(m: seq<byte>, newBuf: nat, curBuf: nat, size: u32, migrate: bool)
    requires MoveInBounds(m, newBuf, curBuf, size) && Bookkept(HeaderAt(m, curBuf), size)
    ensures var r := RelocateImage(m, newBuf, curBuf, size, migrate);
      var sd := HeaderAt(m, curBuf);
      HeaderFits(r, newBuf) &&
      HeaderAt(r, newBuf) ==
        (if migrate then
          sd.(workbufSize := size, versionMinor := 1, bootMode := BootModeCode(GetBootMode(sd.flags)))
        else
          sd.(workbufSize := size)) &&
      (!migrate && size == sd.workbufSize ==> HeaderAt(r, newBuf) == sd)
  {
    var used := HeaderAt(m, curBuf).workbufUsed;
    MoveImageHeader(m, newBuf, curBuf, size);
    StampImageHeader(MoveImage(m, newBuf, curBuf, used), newBuf, size, migrate);
  }

  /** Offset o of the new header is rewritten by vb2api_relocate after the move. */
  predicate Rewritten(o: nat, migrate: bool) {
    InField(o, WorkbufSize) || (migrate && (InField(o, VersionMinor) || InField(o, BootMode)))
  }

  /** The header updates touch only the rewritten fields. */
  lemma StampImageKeeps(m: seq<byte>, newBuf: nat, size: u32, migrate: bool, i: nat)
    requires HeaderFits(m, newBuf) && i < |m|
    requires !(newBuf <= i < newBuf + SHARED_DATA_SIZE && Rewritten(i - newBuf, migrate))
    ensures StampImage(m, newBuf, size, migrate)[i] == m[i]
  {
    FieldFits(WorkbufSize); FieldFits(VersionMinor); FieldFits(BootMode);
    var m2 := Put(m, At(newBuf, WorkbufSize), 4, size);
    PutKeeps(m, At(newBuf, WorkbufSize), 4, size, i);
    if migrate {
      var m3 := Put(m2, At(newBuf, VersionMinor), 2, 1);
      PutKeeps(m2, At(newBuf, VersionMinor), 2, 1, i);
      PutKeeps(m3, At(newBuf, BootMode), 4, BootModeCode(GetBootMode(HeaderAt(m3, newBuf).flags)), i);
    }
  }

  /** Where the byte at address i of MoveImage comes from. */
  lemma MoveImageAt(m: seq<byte>, newBuf: nat, curBuf: nat, used: nat, i: nat)
    requires curBuf + used <= |m| && newBuf + used <= |m| && i < |m|
    ensures newBuf <= i < newBuf + used ==> MoveImage(m, newBuf, curBuf, used)[i] == m[i - newBuf + curBuf]
    ensures !(newBuf <= i < newBuf + used) ==> MoveImage(m, newBuf, curBuf, used)[i] == m[i]
  {
    if curBuf != newBuf {
      MoveBytes(m, newBuf, curBuf, used);
    }
  }

  /**
   * After a successful vb2api_relocate the first `used` bytes of the new
   * buffer are the first `used` bytes of the current buffer as they were
   * before the call (whether or not the two overlap), except for the
   * rewritten header fields; no byte outside them changes.
   */
  lemma RelocateBytes(m: seq<byte>, newBuf: nat, curBuf: nat, size: u32, migrate: bool)
    requires MoveInBounds(m, newBuf, curBuf, size) && Bookkept(HeaderAt(m, curBuf), size)
    ensures var r := RelocateImage(m, newBuf, curBuf, size, migrate);
      var used := HeaderAt(m, curBuf).workbufUsed;
      |r| == |m| &&
      (forall i :: newBuf <= i < newBuf + used && !Rewritten(i - newBuf, migrate) ==>
        r[i] == m[i - newBuf + curBuf]) &&
      (forall i :: 0 <= i < |m| && !(newBuf <= i < newBuf + used) ==> r[i] == m[i])
  {
    var used := HeaderAt(m, curBuf).workbufUsed;
    var m1 := MoveImage(m, newBuf, curBuf, used);
    var r := RelocateImage(m, newBuf, curBuf, size, migrate);
    assert r == StampImage(m1, newBuf, size, migrate);
    forall i | newBuf <= i < newBuf + used && !Rewritten(i - newBuf, migrate)
      ensures r[i] == m[i - newBuf + curBuf]
    {
      StampImageKeeps(m1, newBuf, size, migrate, i);
      MoveImageAt(m, newBuf, curBuf, used, i);
    }
    forall i | 0 <= i < |m| && !(newBuf <= i < newBuf + used) ensures r[i] == m[i] {
      StampImageKeeps(m1, newBuf, size, migrate, i);
      MoveImageAt(m, newBuf, curBuf, used, i);
    }
  }

  /**
   * Relocating a buffer onto itself moves no byte: only the rewritten fields
   * can change, and without a migration and with the recorded size nothing
   * changes at all.
   */
  lemma RelocateInPlace(m: seq<byte>, buf: nat, size: u32, migrate: bool)
    requires MoveInBounds(m, buf, buf, size) && Bookkept(HeaderAt(m, buf), size)
    ensures var r := RelocateImage(m, buf, buf, size, migrate);
      |r| == |m| &&
      (forall i :: 0 <= i < |m| && !(buf <= i < buf + SHARED_DATA_SIZE && Rewritten(i - buf, migrate)) ==>
        r[i] == m[i]) &&
      (!migrate && size == HeaderAt(m, buf).workbufSize ==> r == m)
  {
    var r := RelocateImage(m, buf, buf, size, migrate);
    assert r == StampImage(m, buf, size, migrate);
    forall i | 0 <= i < |m| && !(buf <= i < buf + SHARED_DATA_SIZE && Rewritten(i - buf, migrate))
      ensures r[i] == m[i]
    {
      StampImageKeeps(m, buf, size, migrate, i);
    }
    if !migrate && size == HeaderAt(m, buf).workbufSize {
      assert r == Put(m, At(buf, WorkbufSize), 4, FieldAt(m, buf, WorkbufSize));
      PutSame(m, At(buf, WorkbufSize), 4);
    }
  }

  /** A header that needs no migration and can be relocated: the invariant of a live buffer. */
  predicate Valid(sd: SharedData, expectedMinor: nat) {
    sd.magic == SHARED_DATA_MAGIC &&
    sd.versionMajor == SHARED_DATA_VERSION_MAJOR && expectedMinor <= sd.versionMinor &&
    RoundUp(SHARED_DATA_SIZE) <= sd.workbufUsed <= sd.workbufSize
  }

  /** A valid header is accepted, without migration, into any aligned buffer that holds what it uses. */
  lemma ValidAccepted(sd: SharedData, newBuf: nat, size: nat, expectedMinor: nat)
    requires Valid(sd, expectedMinor) && Aligned(newBuf) && sd.workbufUsed <= size
    ensures RelocateCheck(sd, newBuf, size, expectedMinor) == Accept(false)
  {
  }

  /**
   * Whatever vb2api_relocate accepts it leaves valid: the new header records
   * the new size and needs no further migration.
   */
  lemma RelocateValid(m: seq<byte>, newBuf: nat, curBuf: nat, size: u32, expectedMinor: u16)
    requires MoveInBounds(m, newBuf, curBuf, size)
    requires RelocateCheck(HeaderAt(m, curBuf), newBuf, size, expectedMinor).Accept?
    ensures var migrate := RelocateCheck(HeaderAt(m, curBuf), newBuf, size, expectedMinor).migrate;
      var r := RelocateImage(m, newBuf, curBuf, size, migrate);
      HeaderFits(r, newBuf) && Valid(HeaderAt(r, newBuf), expectedMinor) &&
      HeaderAt(r, newBuf).workbufSize == size
  {
    var migrate := RelocateCheck(HeaderAt(m, curBuf), newBuf, size, expectedMinor).migrate;
    RelocateHeader(m, newBuf, curBuf, size, migrate);
  }

  /** vb2api_init leaves a valid header recording the given size. */
  lemma InitValid(m: seq<byte>, sd: nat, size: u32, minor: u16)
    requires sd + size <= |m| && RoundUp(SHARED_DATA_SIZE) <= size
    ensures HeaderFits(m, sd)
    ensures var h := HeaderAt(InitImage(m, sd, size, minor), sd);
      Valid(h, minor) && h.workbufSize == size
  {
    InitHeader(m, sd, size, minor);
  }

  // ---------------------------------------------------------------------
  // vb2api_reinit

  /** The caller's guarantee for vb2api_reinit: vb2api_relocate's, with the recorded size. */
  ghost predicate ReinitInBounds(m: seq<byte>, buf: nat) {
    HeaderFits(m, buf) && MoveInBounds(m, buf, buf, HeaderAt(m, buf).workbufSize)
  }

  /** The memory vb2api_reinit leaves behind, on success or failure. */
  ghost function ReinitImage(m: seq<byte>, buf: nat, expectedMinor: u16): (r: seq<byte>)
    requires ReinitInBounds(m, buf)
  {
    var size := HeaderAt(m, buf).workbufSize;
    match RelocateCheck(HeaderAt(m, buf), buf, size, expectedMinor)
    case Reject(_) => m
    case Accept(migrate) => RelocateImage(m, buf, buf, size, migrate)
  }

  /** vb2api_reinit(workbuf, &ctx): vb2api_relocate(workbuf, workbuf, recorded size, &ctx). */
  method Reinit(mem: array<byte>, buf: nat, expectedMinor: u16, ctxIn: Option<nat>)
    returns (status: Status, ctx: Option<nat>)
    requires ReinitInBounds(mem[..], buf)
    modifies mem
    ensures RelocateResult(old(mem[..]), mem[..], buf, buf, HeaderAt(old(mem[..]), buf).workbufSize,
                           expectedMinor, ctxIn, status, ctx)
    ensures mem[..] == ReinitImage(old(mem[..]), buf, expectedMinor)
  {
    var size := FieldAt(mem[..], buf, WorkbufSize);
    Pow256Widths();
    status, ctx := Relocate(mem, buf, buf, size, expectedMinor, ctxIn);
  }

  /**
   * vb2api_reinit on a valid current-version buffer at an aligned
   * address succeeds and changes no byte.
   */
  lemma ReinitValidUnchanged(m: seq<byte>, buf: nat, expectedMinor: u16)
    requires ReinitInBounds(m, buf) && Aligned(buf) && Valid(HeaderAt(m, buf), expectedMinor)
    ensures RelocateCheck(HeaderAt(m, buf), buf, HeaderAt(m, buf).workbufSize, expectedMinor) == Accept(false)
    ensures ReinitImage(m, buf, expectedMinor) == m
  {
    var size := HeaderAt(m, buf).workbufSize;
    ValidAccepted(HeaderAt(m, buf), buf, size, expectedMinor);
    RelocateInPlace(m, buf, size, false);
  }

  /**
   * vb2api_reinit is idempotent: a second call accepts whatever the first
   * accepted, with no migration left to do and with the same result, and
   * rejects with the same error whatever the first rejected.
   */
  lemma ReinitIdempotent(m: seq<byte>, buf: nat, expectedMinor: u16)
    requires ReinitInBounds(m, buf)
    ensures ReinitInBounds(ReinitImage(m, buf, expectedMinor), buf)
    ensures var r := ReinitImage(m, buf, expectedMinor);
      var first := RelocateCheck(HeaderAt(m, buf), buf, HeaderAt(m, buf).workbufSize, expectedMinor);
      var second := RelocateCheck(HeaderAt(r, buf), buf, HeaderAt(r, buf).workbufSize, expectedMinor);
      (if first.Accept? then second == Accept(false) else second == first) &&
      ReinitImage(r, buf, expectedMinor) == r
  {
    var size := HeaderAt(m, buf).workbufSize;
    var first := RelocateCheck(HeaderAt(m, buf), buf, size, expectedMinor);
    if first.Accept? {
      ReinitAccepted(m, buf, expectedMinor);
      ReinitValidUnchanged(ReinitImage(m, buf, expectedMinor), buf, expectedMinor);
    }
  }

  /** After an accepted vb2api_reinit the buffer is valid and still in bounds. */
  lemma ReinitAccepted(m: seq<byte>, buf: nat, expectedMinor: u16)
    requires ReinitInBounds(m, buf)
    requires RelocateCheck(HeaderAt(m, buf), buf, HeaderAt(m, buf).workbufSize, expectedMinor).Accept?
    ensures var r := ReinitImage(m, buf, expectedMinor);
      ReinitInBounds(r, buf) && Aligned(buf) && Valid(HeaderAt(r, buf), expectedMinor)
  {
    var size := HeaderAt(m, buf).workbufSize;
    var migrate := RelocateCheck(HeaderAt(m, buf), buf, size, expectedMinor).migrate;
    var r := RelocateImage(m, buf, buf, size, migrate);
    RelocateValid(m, buf, buf, size, expectedMinor);
    RelocateBytes(m, buf, buf, size, migrate);
    assert HeaderAt(r, buf).workbufUsed == HeaderAt(m, buf).workbufUsed by {
      RelocateHeader(m, buf, buf, size, migrate);
    }
  }

  /** A buffer fresh from vb2api_init is accepted by vb2api_reinit, without migration, and left unchanged. */
  lemma InitThenReinit(m: seq<byte>, sd: nat, size: u32, minor: u16)
    requires sd + size <= |m| && Aligned(sd) && RoundUp(SHARED_DATA_SIZE) <= size
    ensures HeaderFits(m, sd) && ReinitInBounds(InitImage(m, sd, size, minor), sd)
    ensures RelocateCheck(HeaderAt(InitImage(m, sd, size, minor), sd), sd, size, minor) == Accept(false)
    ensures ReinitImage(InitImage(m, sd, size, minor), sd, minor) == InitImage(m, sd, size, minor)
  {
    InitValid(m, sd, size, minor);
    InitBytes(m, sd, size, minor);
    ReinitValidUnchanged(InitImage(m, sd, size, minor), sd, minor);
  }
}
