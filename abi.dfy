/**
 * Build-time constants of the work buffer: its alignment, the size and field
 * layout of struct vb2_shared_data, the magic and version stamps, the context
 * flag bits and the boot-mode enumeration. Their concrete values belong to the
 * build and the C ABI, so they are left abstract: every constant below is
 * declared without a value, and what is proved holds for all of them.
 */
module Abi {
  import opened Bytes

  type Alignment = a: nat | a > 0 witness 1

  /** VB2_WORKBUF_ALIGN. */
  const WORKBUF_ALIGN: Alignment

  /** vb2_aligned(p, VB2_WORKBUF_ALIGN) for an address p. */
  predicate Aligned(addr: nat) {
    addr % WORKBUF_ALIGN == 0
  }

  /** vb2_wb_round_up: x rounded up to a multiple of VB2_WORKBUF_ALIGN. */
  function RoundUp(x: nat): (r: nat)
    ensures x <= r
  {
    if x % WORKBUF_ALIGN == 0 then x else x - x % WORKBUF_ALIGN + WORKBUF_ALIGN
  }

  lemma MultipleAligned(k: nat)
    ensures Aligned(k * WORKBUF_ALIGN)
  {
  }

  /** The rounded value is aligned, not smaller, and less than one alignment unit above. */
  lemma RoundUpBounds(x: nat)
    ensures x <= RoundUp(x) < x + WORKBUF_ALIGN
    ensures Aligned(RoundUp(x))
  {
    if x % WORKBUF_ALIGN != 0 {
      assert RoundUp(x) == (x / WORKBUF_ALIGN + 1) * WORKBUF_ALIGN;
      MultipleAligned(x / WORKBUF_ALIGN + 1);
    }
  }

  /** No aligned value at or above x lies below RoundUp(x): it is the least one. */
  lemma RoundUpLeast(x: nat, y: nat)
    requires x <= y && Aligned(y)
    ensures RoundUp(x) <= y
  {
    if x % WORKBUF_ALIGN != 0 {
      var qx := x / WORKBUF_ALIGN;
      var qy := y / WORKBUF_ALIGN;
      assert x == qx * WORKBUF_ALIGN + x % WORKBUF_ALIGN;
      assert y == qy * WORKBUF_ALIGN;
      assert qx < qy;
      assert RoundUp(x) == (qx + 1) * WORKBUF_ALIGN;
    }
  }

  /** The fields of vb2_shared_data (and of its embedded vb2_context) that the code names. */
  datatype FieldId =
    | Magic          // magic
    | VersionMajor   // struct_version_major
    | VersionMinor   // struct_version_minor
    | WorkbufSize    // workbuf_size
    | WorkbufUsed    // workbuf_used
    | Flags          // ctx.flags
    | BootMode       // ctx.boot_mode

  /** Width in bytes of each field's C type. */
  function Width(f: FieldId): nat {
    match f
    case Magic => 4
    case VersionMajor => 2
    case VersionMinor => 2
    case WorkbufSize => 4
    case WorkbufUsed => 4
    case Flags => 8
    case BootMode => 4
  }

  /**
   * Where the fields lie: byte offsets from the start of the header.
   * `size` is sizeof(struct vb2_shared_data); `ctx` is the offset of the
   * embedded vb2_context.
   */
  datatype HeaderLayout = HeaderLayout(
    size: nat, ctx: nat,
    magic: nat, versionMajor: nat, versionMinor: nat,
    workbufSize: nat, workbufUsed: nat, flags: nat, bootMode: nat)

  function Offset(l: HeaderLayout, f: FieldId): nat {
    match f
    case Magic => l.magic
    case VersionMajor => l.versionMajor
    case VersionMinor => l.versionMinor
    case WorkbufSize => l.workbufSize
    case WorkbufUsed => l.workbufUsed
    case Flags => l.flags
    case BootMode => l.bootMode
  }

  predicate Fits(l: HeaderLayout, f: FieldId) {
    Offset(l, f) + Width(f) <= l.size
  }

  predicate Apart(l: HeaderLayout, f: FieldId, g: FieldId) {
    Offset(l, f) + Width(f) <= Offset(l, g) || Offset(l, g) + Width(g) <= Offset(l, f)
  }

  /** A C struct layout: every field inside the struct, no two fields overlapping. */
  predicate WellFormed(l: HeaderLayout) {
    l.ctx <= l.size &&
    Fits(l, Magic) && Fits(l, VersionMajor) && Fits(l, VersionMinor) && Fits(l, WorkbufSize) &&
    Fits(l, WorkbufUsed) && Fits(l, Flags) && Fits(l, BootMode) &&
    Apart(l, Magic, VersionMajor) && Apart(l, Magic, VersionMinor) && Apart(l, Magic, WorkbufSize) &&
    Apart(l, Magic, WorkbufUsed) && Apart(l, Magic, Flags) && Apart(l, Magic, BootMode) &&
    Apart(l, VersionMajor, VersionMinor) && Apart(l, VersionMajor, WorkbufSize) &&
    Apart(l, VersionMajor, WorkbufUsed) && Apart(l, VersionMajor, Flags) && Apart(l, VersionMajor, BootMode) &&
    Apart(l, VersionMinor, WorkbufSize) && Apart(l, VersionMinor, WorkbufUsed) &&
    Apart(l, VersionMinor, Flags) && Apart(l, VersionMinor, BootMode) &&
    Apart(l, WorkbufSize, WorkbufUsed) && Apart(l, WorkbufSize, Flags) && Apart(l, WorkbufSize, BootMode) &&
    Apart(l, WorkbufUsed, Flags) && Apart(l, WorkbufUsed, BootMode) &&
    Apart(l, Flags, BootMode)
  }

  type Layout = l: HeaderLayout | WellFormed(l)
    witness HeaderLayout(32, 8, 0, 4, 6, 20, 24, 8, 16)

  /** The layout of struct vb2_shared_data in this build. */
  const LAYOUT: Layout

  /** sizeof(struct vb2_shared_data). */
  const SHARED_DATA_SIZE: nat := LAYOUT.size

  /** VB2_SHARED_DATA_MAGIC and VB2_SHARED_DATA_VERSION_MAJOR. */
  const SHARED_DATA_MAGIC: u32
  const SHARED_DATA_VERSION_MAJOR: u16

  /** The context flag bits VB2_CONTEXT_RECOVERY_MODE and VB2_CONTEXT_DEVELOPER_MODE. */
  const CONTEXT_RECOVERY_MODE: bv64
  const CONTEXT_DEVELOPER_MODE: bv64

  /** The members of enum vb2_boot_mode that get_boot_mode can return. */
  datatype BootModeValue = ManualRecovery | Developer | Normal

  /** Their numeric values as stored in ctx.boot_mode. */
  const BOOT_MODE_MANUAL_RECOVERY: u32
  const BOOT_MODE_DEVELOPER: u32
  const BOOT_MODE_NORMAL: u32

  function BootModeCode(m: BootModeValue): u32 {
    match m
    case ManualRecovery => BOOT_MODE_MANUAL_RECOVERY
    case Developer => BOOT_MODE_DEVELOPER
    case Normal => BOOT_MODE_NORMAL
  }

  lemma FieldsApart(f: FieldId, g: FieldId)
    requires f != g
    ensures Apart(LAYOUT, f, g)
  {
  }

  lemma FieldFits(f: FieldId)
    ensures Offset(LAYOUT, f) + Width(f) <= SHARED_DATA_SIZE
  {
  }
}
