/**
 * relocate_coff: the base-relocation walk (section 6.6 of the PE/COFF
 * specification). The walk is specified by the functions RelocateImage,
 * WalkBlocks and WalkEntries over the loaded buffer's contents; the method
 * RelocateCoff patches an array in place and is proved to leave exactly what
 * they describe.
 */
module Relocation {
  import opened Bytes
  import opened Efi
  import opened PeImage

  // Base relocation types (section 6.6.2)
  const REL_BASED_ABSOLUTE: nat := 0
  const REL_BASED_HIGH: nat := 1
  const REL_BASED_LOW: nat := 2
  const REL_BASED_HIGHLOW: nat := 3
  const REL_BASED_DIR64: nat := 10

  const BASE_RELOCATION_SIZE: nat := 8   // sizeof(EFI_IMAGE_BASE_RELOCATION)
  const ENTRY_SIZE: nat := 2             // one UINT16 relocation entry

  /** Adjust = (UINT64)data - ImageAddress: wrapping 64-bit subtraction. */
  function Adjustment(loadAddr: u64, imageAddress: u64): (adjust: u64)
    ensures (imageAddress + adjust) % TWO_64 == loadAddr
  {
    (loadAddr - imageAddress) % TWO_64
  }

  predicate KnownType(ty: nat) {
    ty == REL_BASED_ABSOLUTE || ty == REL_BASED_HIGH || ty == REL_BASED_LOW
    || ty == REL_BASED_HIGHLOW || ty == REL_BASED_DIR64
  }

  /** Width in bytes of the field a relocation of this type patches. */
  function FixupWidth(ty: nat): nat {
    if ty == REL_BASED_HIGH || ty == REL_BASED_LOW then 2
    else if ty == REL_BASED_HIGHLOW then 4
    else if ty == REL_BASED_DIR64 then 8
    else 0
  }

  /** What a relocation of this type adds to its field (before truncation to the field width). */
  function Addend(ty: nat, adjust: u64): nat {
    if ty == REL_BASED_HIGH then (adjust % TWO_32) / TWO_16
    else if ty == REL_BASED_LOW then adjust % TWO_16
    else if ty == REL_BASED_HIGHLOW then adjust % TWO_32
    else if ty == REL_BASED_DIR64 then adjust
    else 0
  }

  /** The buffer after one fixup: the field at `at` plus the addend, stored back at its own width. */
  function Patched(buf: seq<byte>, at: nat, ty: nat, adjust: u64): (r: seq<byte>)
    requires at + FixupWidth(ty) <= |buf|
    ensures |r| == |buf|
  {
    var w := FixupWidth(ty);
    Splice(buf, at, ToLE(ReadLE(buf, at, w) + Addend(ty, adjust), w))
  }

  /**
   * The fixups of one block: entries from offset reloc up to relocEnd, read
   * from the buffer as it is when each entry is reached, patched in stored
   * order. An unknown type stops the walk with Unsupported and keeps the
   * fixups already made. MemoryFault marks an entry read or a field write
   * the C code makes outside the buffer.
   */
  function WalkEntries(buf: seq<byte>, reloc: nat, relocEnd: nat, fixupBase: nat, adjust: u64)
    : (r: (seq<byte>, Status))
    ensures |r.0| == |buf|
    ensures r.1 == Success || r.1 == Unsupported || r.1 == MemoryFault
    decreases relocEnd - reloc
  {
    if reloc >= relocEnd then (buf, Success)
    else if reloc + ENTRY_SIZE > |buf| then (buf, MemoryFault)
    else
      var entry := ReadLE(buf, reloc, ENTRY_SIZE);
      var at := fixupBase + entry % 0x1000;
      var ty := entry / 0x1000;
      if ty == REL_BASED_ABSOLUTE then WalkEntries(buf, reloc + ENTRY_SIZE, relocEnd, fixupBase, adjust)
      else if !KnownType(ty) then (buf, Unsupported)
      else if at + FixupWidth(ty) > |buf| then (buf, MemoryFault)
      else WalkEntries(Patched(buf, at, ty, adjust), reloc + ENTRY_SIZE, relocEnd, fixupBase, adjust)
  }

  /**
   * The checks on one block header at offset base: the block's end (base plus
   * SizeOfBlock) must not pass ImageEnd and its page address must translate.
   * A SizeOfBlock of 0 passes both checks but never advances the C loop: the
   * model reports Hang. On success: where the block's entries end and the
   * offset their fixups are relative to.
   */
  function BlockHeader(buf: seq<byte>, base: nat, size: u32): (r: Result<(nat, nat)>)
    requires base + BASE_RELOCATION_SIZE <= |buf|
    ensures r.Ok? ==> base < r.value.0 && r.value.0 <= size && r.value.1 <= size
    ensures r.Err? ==> r.status == Unsupported || r.status == Hang
  {
    var sizeOfBlock := U32At(buf, base + 4);
    var relocEnd := base + sizeOfBlock;
    // ImageEnd is data + size with `int size`: below data once size reaches 2^31
    if relocEnd > Int32(size) then Err(Unsupported)
    else
      var fixupBase := ImageAddress(size, U32At(buf, base));
      if fixupBase.None? then Err(Unsupported)
      else if sizeOfBlock == 0 then Err(Hang)
      else Ok((relocEnd, fixupBase.value))
  }

  /** The block walk from the block at offset base while base < baseEnd. */
  function WalkBlocks(buf: seq<byte>, base: nat, baseEnd: nat, size: u32, adjust: u64)
    : (r: (seq<byte>, Status))
    ensures |r.0| == |buf|
    ensures r.1 == Success || r.1 == Unsupported || r.1 == MemoryFault || r.1 == Hang
    decreases baseEnd - base
  {
    if base >= baseEnd then (buf, Success)
    else if base + BASE_RELOCATION_SIZE > |buf| then (buf, MemoryFault)
    else match BlockHeader(buf, base, size)
      case Err(e) => (buf, e)
      case Ok((relocEnd, fixupBase)) =>
        var entries := WalkEntries(buf, base + BASE_RELOCATION_SIZE, relocEnd, fixupBase, adjust);
        if entries.1 != Success then entries
        else WalkBlocks(entries.0, relocEnd, baseEnd, size, adjust)
  }

  /** The parts of the source header relocate_coff reads lie within the source buffer. */
  predicate HeaderInBounds(hdr: seq<byte>, ctx: ImageContext) {
    ctx.peHdr + HEADER_UNION_SIZE <= |hdr| && ctx.relocDir == ctx.peHdr + BASERELOC_DIR_AT
  }

  /** The source header after relocate_coff stores the load address as ImageBase. */
  function WithImageBase(hdr: seq<byte>, ctx: ImageContext, loadAddr: u64): (r: seq<byte>)
    requires HeaderInBounds(hdr, ctx)
    ensures HeaderInBounds(r, ctx)
  {
    Splice(hdr, ctx.peHdr + IMAGE_BASE_AT, ToLE(loadAddr, 8))
  }

  /**
   * relocate_coff on the loaded buffer, with hdr the source header (already
   * carrying the new ImageBase): nothing to do for an empty relocation directory
   * or stripped relocations; otherwise the directory must be present and lie in
   * the image, and the blocks are walked.
   */
  function RelocateImage(hdr: seq<byte>, ctx: ImageContext, buf: seq<byte>, loadAddr: u64)
    : (r: (seq<byte>, Status))
    requires HeaderInBounds(hdr, ctx)
    ensures |r.0| == |buf|
  {
    var relocVA := U32At(hdr, ctx.relocDir);
    var relocSize := U32At(hdr, ctx.relocDir + 4);
    if (relocVA == 0 && relocSize == 0) || U16At(hdr, ctx.peHdr + CHARACTERISTICS_AT) % 2 == RELOCS_STRIPPED then
      (buf, Success)
    else if ctx.numberOfRvaAndSizes <= DIRECTORY_ENTRY_BASERELOC then (buf, Unsupported)
    else
      var base := ImageAddress(ctx.imageSize, relocVA);
      var baseEnd := ImageAddress(ctx.imageSize, (relocVA + relocSize - 1) % TWO_32);
      if base.None? || baseEnd.None? then (buf, Unsupported)
      else WalkBlocks(buf, base.value, baseEnd.value, ctx.imageSize, Adjustment(loadAddr, ctx.imageAddress))
  }

  /**
   * The inner loop of relocate_coff: applies the entries of one block to the
   * buffer in place.
   */
  method ApplyEntries(buffer: array<byte>, reloc0: nat, relocEnd: nat, fixupBase: nat, adjust: u64)
    returns (status: Status)
    modifies buffer
    ensures (buffer[..], status) == WalkEntries(old(buffer[..]), reloc0, relocEnd, fixupBase, adjust)
  {
    var reloc := reloc0;
    while reloc < relocEnd
      invariant WalkEntries(buffer[..], reloc, relocEnd, fixupBase, adjust)
                == WalkEntries(old(buffer[..]), reloc0, relocEnd, fixupBase, adjust)
      decreases relocEnd - reloc
    {
      if reloc + ENTRY_SIZE > buffer.Length {
        return MemoryFault;
      }
      var entry := ReadLE(buffer[..], reloc, ENTRY_SIZE);
      var at := fixupBase + entry % 0x1000;
      var ty := entry / 0x1000;
      if ty != REL_BASED_ABSOLUTE {
        if !KnownType(ty) {
          return Unsupported;
        }
        var w := FixupWidth(ty);
        if at + w > buffer.Length {
          return MemoryFault;
        }
        Store(buffer, at, ToLE(ReadLE(buffer[..], at, w) + Addend(ty, adjust), w));
      }
      reloc := reloc + ENTRY_SIZE;
    }
    return Success;
  }

  /** The outer loop of relocate_coff: walks the blocks from base while base < baseEnd. */
  method ApplyBlocks(buffer: array<byte>, base0: nat, baseEnd: nat, size: u32, adjust: u64)
    returns (status: Status)
    modifies buffer
    ensures (buffer[..], status) == WalkBlocks(old(buffer[..]), base0, baseEnd, size, adjust)
  {
    var base := base0;
    while base < baseEnd
      invariant WalkBlocks(buffer[..], base, baseEnd, size, adjust)
                == WalkBlocks(old(buffer[..]), base0, baseEnd, size, adjust)
      decreases baseEnd - base
    {
      if base + BASE_RELOCATION_SIZE > buffer.Length {
        return MemoryFault;
      }
      var header := BlockHeader(buffer[..], base, size);
      if header.Err? {
        return header.status;
      }
      var (relocEnd, fixupBase) := header.value;
      status := ApplyEntries(buffer, base + BASE_RELOCATION_SIZE, relocEnd, fixupBase, adjust);
      if status != Success {
        return;
      }
      base := relocEnd;
    }
    return Success;
  }

  /**
   * relocate_coff: stores the load address as ImageBase in the source header,
   * then patches the loaded buffer in place as RelocateImage describes.
   */
  method RelocateCoff(ctx: ImageContext, data: array<byte>, buffer: array<byte>, loadAddr: u64)
    returns (status: Status)
    requires HeaderInBounds(data[..], ctx)
    requires buffer.Length == ctx.imageSize
    requires data != buffer
    modifies data, buffer
    ensures data[..] == WithImageBase(old(data[..]), ctx, loadAddr)
    ensures (buffer[..], status) == RelocateImage(data[..], ctx, old(buffer[..]), loadAddr)
  {
    Store(data, ctx.peHdr + IMAGE_BASE_AT, ToLE(loadAddr, 8));
    status := ApplyRelocations(data[..], ctx, buffer, loadAddr);
  }

  /** relocate_coff after the ImageBase store, with hdr the (updated) source header. */
  method ApplyRelocations(hdr: seq<byte>, ctx: ImageContext, buffer: array<byte>, loadAddr: u64)
    returns (status: Status)
    requires HeaderInBounds(hdr, ctx)
    requires buffer.Length == ctx.imageSize
    modifies buffer
    ensures (buffer[..], status) == RelocateImage(hdr, ctx, old(buffer[..]), loadAddr)
  {
    var relocVA := U32At(hdr, ctx.relocDir);
    var relocSize := U32At(hdr, ctx.relocDir + 4);
    if (relocVA == 0 && relocSize == 0) || U16At(hdr, ctx.peHdr + CHARACTERISTICS_AT) % 2 == RELOCS_STRIPPED {
      return Success;
    }
    if ctx.numberOfRvaAndSizes <= DIRECTORY_ENTRY_BASERELOC {
      return Unsupported;
    }
    var relocBase := ImageAddress(ctx.imageSize, relocVA);
    var relocBaseEnd := ImageAddress(ctx.imageSize, (relocVA + relocSize - 1) % TWO_32);
    if relocBase.None? || relocBaseEnd.None? {
      return Unsupported;
    }
    status := ApplyBlocks(buffer, relocBase.value, relocBaseEnd.value, ctx.imageSize,
                          Adjustment(loadAddr, ctx.imageAddress));
  }

  /**
   * One fixup adds the type's share of the adjustment to its field, wrapping
   * at the field's width.
   */
  lemma PatchedField(buf: seq<byte>, at: nat, ty: nat, adjust: u64)
    requires KnownType(ty) && ty != REL_BASED_ABSOLUTE
    requires at + FixupWidth(ty) <= |buf|
    ensures ty == REL_BASED_HIGH ==>
      U16At(Patched(buf, at, ty, adjust), at) == (U16At(buf, at) + (adjust % TWO_32) / TWO_16) % TWO_16
    ensures ty == REL_BASED_LOW ==>
      U16At(Patched(buf, at, ty, adjust), at) == (U16At(buf, at) + adjust % TWO_16) % TWO_16
    ensures ty == REL_BASED_HIGHLOW ==>
      U32At(Patched(buf, at, ty, adjust), at) == (U32At(buf, at) + adjust % TWO_32) % TWO_32
    ensures ty == REL_BASED_DIR64 ==>
      U64At(Patched(buf, at, ty, adjust), at) == (U64At(buf, at) + adjust) % TWO_64
  {
    var w := FixupWidth(ty);
    ReadSplicedField(buf, at, ReadLE(buf, at, w) + Addend(ty, adjust), w);
    Pow256Values();
  }

  /** One fixup changes no byte outside its field. */
  lemma PatchedFrame(buf: seq<byte>, at: nat, ty: nat, adjust: u64)
    requires at + FixupWidth(ty) <= |buf|
    ensures forall i :: 0 <= i < |buf| && !(at <= i < at + FixupWidth(ty)) ==> Patched(buf, at, ty, adjust)[i] == buf[i]
  {
    var w := FixupWidth(ty);
    SpliceContents(buf, at, ToLE(ReadLE(buf, at, w) + Addend(ty, adjust), w));
  }

  /**
   * What relocation is for: a 64-bit field holding the address of the byte at
   * offset k from the preferred base holds, after a DIR64 fixup, the address of
   * that byte at the actual load address.
   */
  lemma Dir64Rebases(imageAddress: u64, loadAddr: u64, k: nat)
    ensures ((imageAddress + k) % TWO_64 + Adjustment(loadAddr, imageAddress)) % TWO_64
            == (loadAddr + k) % TWO_64
  {
    var adjust := Adjustment(loadAddr, imageAddress);
    ModAddLeft(imageAddress + k, adjust, TWO_64);
    assert imageAddress + k + adjust == (imageAddress + adjust) + k;
    ModAddLeft(imageAddress + adjust, k, TWO_64);
  }

  /** The same for a HIGHLOW fixup on the low 32 bits of an address. */
  lemma HighLowRebases(imageAddress: u64, loadAddr: u64, k: nat)
    ensures ((imageAddress + k) % TWO_32 + Adjustment(loadAddr, imageAddress) % TWO_32) % TWO_32
            == (loadAddr + k) % TWO_32
  {
    var adjust := Adjustment(loadAddr, imageAddress);
    ModAddLeft(imageAddress + k, adjust % TWO_32, TWO_32);
    ModAddLeft(adjust, imageAddress + k, TWO_32);
    var wraps := if loadAddr >= imageAddress then 0 else TWO_32;
    assert adjust + imageAddress + k == loadAddr + k + TWO_32 * wraps;
    ModAddMultiple(loadAddr + k, wraps, TWO_32);
  }

  lemma ModAddLeft(a: nat, b: nat, m: nat)
    requires m > 0
    ensures (a % m + b) % m == (a + b) % m
  {
    DivModUnique(a + b, m, a / m + (a % m + b) / m, (a % m + b) % m);
  }

  lemma ModAddMultiple(a: nat, j: nat, m: nat)
    requires m > 0
    ensures (a + m * j) % m == a % m
  {
    DivModUnique(a + m * j, m, a / m + j, a % m);
  }

  /** A fixup by a zero adjustment stores back the value it read. */
  lemma PatchedZero(buf: seq<byte>, at: nat, ty: nat)
    requires at + FixupWidth(ty) <= |buf|
    ensures Patched(buf, at, ty, 0) == buf
  {
    SpliceSameField(buf, at, FixupWidth(ty));
  }

  lemma {:induction false} WalkEntriesZero(buf: seq<byte>, reloc: nat, relocEnd: nat, fixupBase: nat)
    ensures WalkEntries(buf, reloc, relocEnd, fixupBase, 0).0 == buf
    decreases relocEnd - reloc
  {
    if reloc < relocEnd && reloc + ENTRY_SIZE <= |buf| {
      var entry := ReadLE(buf, reloc, ENTRY_SIZE);
      var at := fixupBase + entry % 0x1000;
      var ty := entry / 0x1000;
      if KnownType(ty) && at + FixupWidth(ty) <= |buf| {
        PatchedZero(buf, at, ty);
      }
      WalkEntriesZero(buf, reloc + ENTRY_SIZE, relocEnd, fixupBase);
    }
  }

  lemma {:induction false} WalkBlocksZero(buf: seq<byte>, base: nat, baseEnd: nat, size: u32)
    ensures WalkBlocks(buf, base, baseEnd, size, 0).0 == buf
    decreases baseEnd - base
  {
    if base < baseEnd && base + BASE_RELOCATION_SIZE <= |buf| {
      var header := BlockHeader(buf, base, size);
      if header.Ok? {
        var (relocEnd, fixupBase) := header.value;
        WalkEntriesZero(buf, base + BASE_RELOCATION_SIZE, relocEnd, fixupBase);
        WalkBlocksZero(buf, relocEnd, baseEnd, size);
      }
    }
  }

  /**
   * An image loaded at its preferred base address is left exactly as it was
   * copied, whatever the relocation table holds and whatever the status.
   */
  lemma RelocateAtPreferredBase(hdr: seq<byte>, ctx: ImageContext, buf: seq<byte>)
    requires HeaderInBounds(hdr, ctx)
    ensures RelocateImage(hdr, ctx, buf, ctx.imageAddress).0 == buf
  {
    var relocVA := U32At(hdr, ctx.relocDir);
    var relocSize := U32At(hdr, ctx.relocDir + 4);
    var base := ImageAddress(ctx.imageSize, relocVA);
    var baseEnd := ImageAddress(ctx.imageSize, (relocVA + relocSize - 1) % TWO_32);
    if base.Some? && baseEnd.Some? {
      WalkBlocksZero(buf, base.value, baseEnd.value, ctx.imageSize);
    }
  }

  /**
   * A block's 12-bit entry offsets confine its fixups to the 4 KiB page at
   * fixupBase, plus the width of a field starting on the page's last byte:
   * no byte outside that window changes.
   */
  lemma {:induction false} WalkEntriesStaysOnPage(buf: seq<byte>, reloc: nat, relocEnd: nat, fixupBase: nat, adjust: u64, i: nat)
    requires i < |buf| && !(fixupBase <= i < fixupBase + 0x1000 + 7)
    ensures WalkEntries(buf, reloc, relocEnd, fixupBase, adjust).0[i] == buf[i]
    decreases relocEnd - reloc
  {
    if reloc < relocEnd && reloc + ENTRY_SIZE <= |buf| {
      var entry := ReadLE(buf, reloc, ENTRY_SIZE);
      var at := fixupBase + entry % 0x1000;
      var ty := entry / 0x1000;
      if ty == REL_BASED_ABSOLUTE {
        WalkEntriesStaysOnPage(buf, reloc + ENTRY_SIZE, relocEnd, fixupBase, adjust, i);
      } else if KnownType(ty) && at + FixupWidth(ty) <= |buf| {
        var next := Patched(buf, at, ty, adjust);
        assert next[i] == buf[i];
        WalkEntriesStaysOnPage(next, reloc + ENTRY_SIZE, relocEnd, fixupBase, adjust, i);
      }
    }
  }
}
