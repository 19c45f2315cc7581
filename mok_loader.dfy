/**
 * The Secure Boot chain loader: handle_image checks an untrusted PE32+ image,
 * asks the shim verifier about it, lays its headers and sections out in a fresh
 * buffer and relocates it; start_image runs it with the firmware's
 * loaded-image record temporarily rewritten.
 *
 * Firmware services are parameters: the shim protocol lookup and its verify
 * callback (ShimLookup), AllocatePool (Allocation), HandleProtocol's status,
 * and the child image's run (ChildRun).
 */
module MokLoader {
  import opened Bytes
  import opened Efi
  import opened PeImage
  import opened Relocation

  /** What GetVariable returned for a one-byte variable: its status and, on success, the byte. */
  datatype VarRead = VarRead(status: Status, value: byte)

  /**
   * secure_mode: Secure Boot is on (SecureBoot reads as 1) and the platform
   * is not in setup mode. A SetupMode that cannot be read counts as user mode.
   */
  function SecureMode(secureBoot: VarRead, setupMode: VarRead): (on: bool)
    ensures on <==> secureBoot == VarRead(Success, 1) && setupMode != VarRead(Success, 1)
  {
    if secureBoot.status != Success || secureBoot.value != 1 then false
    else !(setupMode.status == Success && setupMode.value == 1)
  }

  /** The two fail cases: an unreadable SecureBoot means off, while an unreadable SetupMode does not turn secure mode off. */
  lemma SecureModeFailsOpenOnSetupMode(secureBoot: VarRead, setupMode: VarRead)
    ensures secureBoot == VarRead(Success, 1) && setupMode.status != Success ==> SecureMode(secureBoot, setupMode)
    ensures secureBoot.status != Success ==> !SecureMode(secureBoot, setupMode)
  {
  }

  /**
   * The outcome of locating the shim-lock protocol: not located, located
   * with a NULL interface, or located, with `verdict` the status its
   * shim_verify callback returns for the image's datasize bytes.
   */
  datatype ShimLookup = NotLocated | LocatedNull | Located(verdict: Status)

  /** ShimValidate: the image is trusted only if the protocol is there and shim_verify accepts it. */
  function ShimValidate(shim: ShimLookup): (trusted: bool)
    ensures trusted <==> shim.Located? && shim.verdict == Success
  {
    match shim
    case NotLocated => false
    case LocatedNull => false
    case Located(verdict) => verdict == Success
  }

  /** The result of AllocatePool: a failure, or the address of a block whose contents are arbitrary. */
  datatype Allocation = AllocFails | Allocated(address: u64, junk: nat -> byte)

  function FreshContents(junk: nat -> byte, n: nat): (s: seq<byte>)
    ensures |s| == n
  {
    seq(n, i requires 0 <= i < n => junk(i))
  }

  // ----- Section table -----

  /**
   * EFI_IMAGE_SECTION_HEADER, the fields the loader reads. PointerToRawData
   * is read only for a section with raw data whose range was accepted, so it
   * is None when those four bytes lie beyond the file.
   */
  datatype SectionHeader = SectionHeader(virtualSize: u32, virtualAddress: u32, sizeOfRawData: u32,
                                         pointerToRawData: Option<u32>)

  function SectionAt(ctx: ImageContext, i: nat): nat {
    ctx.firstSection + SECTION_HEADER_SIZE * i
  }

  /** The section header at offset at, whose first three fields lie within the file. */
  function ReadSection(data: seq<byte>, at: nat): (sec: SectionHeader)
    requires at + SIZE_OF_RAW_DATA_AT + 4 <= |data|
    ensures sec.pointerToRawData.None? <==> at + POINTER_TO_RAW_DATA_AT + 4 > |data|
  {
    SectionHeader(
      U32At(data, at + VIRTUAL_SIZE_AT),
      U32At(data, at + VIRTUAL_ADDRESS_AT),
      U32At(data, at + SIZE_OF_RAW_DATA_AT),
      if at + POINTER_TO_RAW_DATA_AT + 4 <= |data| then Some(U32At(data, at + POINTER_TO_RAW_DATA_AT)) else None)
  }

  /** The number of bytes copied from the file: the smaller of VirtualSize and SizeOfRawData. */
  function CopySize(sec: SectionHeader): (size: u32)
    ensures size <= sec.virtualSize && size <= sec.sizeOfRawData
    ensures size == sec.virtualSize || size == sec.sizeOfRawData
  {
    if sec.virtualSize > sec.sizeOfRawData then sec.sizeOfRawData else sec.virtualSize
  }

  /**
   * Whether ImageAddress accepts the section's range: its VirtualAddress and
   * its last byte, VirtualAddress + size - 1 computed in 32-bit unsigned
   * arithmetic (so a zero-sized section at address 0 is rejected unless
   * ImageSize is 0xFFFFFFFF).
   */
  predicate SectionRangeAccepted(imageSize: u32, sec: SectionHeader) {
    ImageAddress(imageSize, sec.virtualAddress).Some?
    && ImageAddress(imageSize, (sec.virtualAddress + CopySize(sec) - 1) % TWO_32).Some?
  }

  /**
   * One iteration of the section loop: copy CopySize bytes from
   * PointerToRawData to VirtualAddress (only if SizeOfRawData > 0), then zero
   * the rest of VirtualSize. Neither the copy nor the zero-fill is checked
   * against the image or the file; MemoryFault marks the cases where the C
   * code would access memory outside them: reading a PointerToRawData beyond
   * the file, or copying (a copy length of 2^31 or more is a negative
   * `int size` passed as an unsigned length) or zeroing outside the buffers.
   */
  function LoadSection(data: seq<byte>, buf: seq<byte>, imageSize: u32, sec: SectionHeader): (r: (seq<byte>, Status))
    ensures |r.0| == |buf|
    ensures r.1 == Success || r.1 == Unsupported || r.1 == MemoryFault
  {
    var size := CopySize(sec);
    var va := sec.virtualAddress;
    if !SectionRangeAccepted(imageSize, sec) then (buf, Unsupported)
    else if CopyFaults(data, buf, sec) then (buf, MemoryFault)
    else
      var copied := Copied(data, buf, sec);
      if size < sec.virtualSize then
        if va + sec.virtualSize > |buf| then (copied, MemoryFault)
        else (Splice(copied, va + size, Zeros(sec.virtualSize - size)), Success)
      else (copied, Success)
  }

  /**
   * Whether the copy step faults: a section with raw data has its
   * PointerToRawData read, and a nonempty CopyMem must lie within both
   * buffers with a length that is nonnegative as an `int`. A zero-length
   * CopyMem touches no memory.
   */
  predicate CopyFaults(data: seq<byte>, buf: seq<byte>, sec: SectionHeader) {
    var size := CopySize(sec);
    && sec.sizeOfRawData > 0
    && (|| sec.pointerToRawData.None?
        || (size > 0 && (Int32(size) < 0 || sec.virtualAddress + size > |buf|
                         || sec.pointerToRawData.value + size > |data|)))
  }

  /** The buffer after CopyMem of the section's raw data (nothing changes when CopySize is zero). */
  function Copied(data: seq<byte>, buf: seq<byte>, sec: SectionHeader): (r: seq<byte>)
    requires CopySize(sec) > 0 ==>
      && sec.pointerToRawData.Some?
      && sec.virtualAddress + CopySize(sec) <= |buf|
      && sec.pointerToRawData.value + CopySize(sec) <= |data|
    ensures |r| == |buf|
    ensures forall k :: 0 <= k < |buf| && !(sec.virtualAddress <= k < sec.virtualAddress + CopySize(sec)) ==> r[k] == buf[k]
  {
    var size := CopySize(sec);
    if size > 0 then
      var ptr := sec.pointerToRawData.value;
      SpliceContents(buf, sec.virtualAddress, data[ptr..ptr + size]);
      Splice(buf, sec.virtualAddress, data[ptr..ptr + size])
    else buf
  }

  /** The section loop from section i on, in table order, stopping at the first failure. */
  function LoadSections(data: seq<byte>, buf: seq<byte>, ctx: ImageContext, i: nat): (r: (seq<byte>, Status))
    ensures |r.0| == |buf|
    ensures r.1 == Success || r.1 == Unsupported || r.1 == MemoryFault
    decreases ctx.numberOfSections - i
  {
    if i >= ctx.numberOfSections then (buf, Success)
    else if SectionAt(ctx, i) + SIZE_OF_RAW_DATA_AT + 4 > |data| then (buf, MemoryFault)
    else
      var r := LoadSection(data, buf, ctx.imageSize, ReadSection(data, SectionAt(ctx, i)));
      if r.1 != Success then r else LoadSections(data, r.0, ctx, i + 1)
  }

  /** The initial buffer after the headers copy (SizeOfHeaders bytes of the file) and the section loop. */
  function LoadImageContents(data: seq<byte>, ctx: ImageContext, initial: seq<byte>): (r: (seq<byte>, Status))
    requires ctx.sizeOfHeaders <= |initial|
    ensures |r.0| == |initial|
    ensures r.1 == Success || r.1 == Unsupported || r.1 == MemoryFault
  {
    if ctx.sizeOfHeaders > |data| then (initial, MemoryFault)
    else LoadSections(data, Splice(initial, 0, data[..ctx.sizeOfHeaders]), ctx, 0)
  }

  /**
   * A section that loads holds, at VirtualAddress, the first CopySize bytes of
   * its raw data when SizeOfRawData is nonzero; with SizeOfRawData zero
   * nothing is copied.
   */
  lemma LoadSectionCopies(data: seq<byte>, buf: seq<byte>, imageSize: u32, sec: SectionHeader)
    requires |buf| == imageSize
    requires LoadSection(data, buf, imageSize, sec).1 == Success
    ensures sec.virtualAddress + CopySize(sec) <= |buf|
    ensures sec.sizeOfRawData == 0 ==> CopySize(sec) == 0
    ensures sec.sizeOfRawData > 0 ==> sec.pointerToRawData.Some?
    ensures CopySize(sec) > 0 ==>
      var va, size, ptr := sec.virtualAddress, CopySize(sec), sec.pointerToRawData.value;
      ptr + size <= |data| && LoadSection(data, buf, imageSize, sec).0[va..va + size] == data[ptr..ptr + size]
  {
    var va, size := sec.virtualAddress, CopySize(sec);
    if size > 0 {
      var ptr := sec.pointerToRawData.value;
      var copied := Splice(buf, va, data[ptr..ptr + size]);
      SpliceContents(buf, va, data[ptr..ptr + size]);
      if size < sec.virtualSize {
        SpliceContents(copied, va + size, Zeros(sec.virtualSize - size));
        assert LoadSection(data, buf, imageSize, sec).0[va..va + size] == copied[va..va + size];
      }
    }
  }

  /**
   * A section that loads is zero from the end of the copied bytes to
   * VirtualAddress + VirtualSize, and no byte outside
   * [VirtualAddress, VirtualAddress + VirtualSize) changes.
   */
  lemma LoadSectionZeroFill(data: seq<byte>, buf: seq<byte>, imageSize: u32, sec: SectionHeader)
    requires LoadSection(data, buf, imageSize, sec).1 == Success
    ensures forall k :: sec.virtualAddress + CopySize(sec) <= k < sec.virtualAddress + sec.virtualSize ==>
      k < |buf| && LoadSection(data, buf, imageSize, sec).0[k] == 0
    ensures forall k :: 0 <= k < |buf| && !(sec.virtualAddress <= k < sec.virtualAddress + sec.virtualSize) ==>
      LoadSection(data, buf, imageSize, sec).0[k] == buf[k]
  {
    var va, size := sec.virtualAddress, CopySize(sec);
    var copied := Copied(data, buf, sec);
    if size < sec.virtualSize {
      assert LoadSection(data, buf, imageSize, sec).0 == Splice(copied, va + size, Zeros(sec.virtualSize - size));
      SpliceContents(copied, va + size, Zeros(sec.virtualSize - size));
    } else {
      assert LoadSection(data, buf, imageSize, sec).0 == copied;
    }
  }

  /**
   * A section whose copy is empty touches no raw data: wherever its
   * PointerToRawData points, it faults only when its zero-fill leaves the
   * buffer, and with VirtualSize zero it loads and changes nothing.
   */
  lemma EmptyCopyTouchesNothing(data: seq<byte>, buf: seq<byte>, imageSize: u32, sec: SectionHeader)
    requires |buf| == imageSize && SectionRangeAccepted(imageSize, sec)
    requires CopySize(sec) == 0 && sec.pointerToRawData.Some?
    ensures LoadSection(data, buf, imageSize, sec).1 == MemoryFault <==> sec.virtualAddress + sec.virtualSize > |buf|
    ensures sec.virtualSize == 0 ==> LoadSection(data, buf, imageSize, sec) == (buf, Success)
  {
    assert !CopyFaults(data, buf, sec);
    assert Copied(data, buf, sec) == buf;
  }

  /** A section whose range ImageAddress rejects fails the load with Unsupported and leaves the buffer untouched. */
  lemma LoadSectionRejectsRange(data: seq<byte>, buf: seq<byte>, imageSize: u32, sec: SectionHeader)
    requires sec.virtualAddress > imageSize || (sec.virtualAddress + CopySize(sec) - 1) % TWO_32 > imageSize
    ensures LoadSection(data, buf, imageSize, sec) == (buf, Unsupported)
  {
  }

  /**
   * PointerToRawData is needed only by a section with raw data whose range
   * was accepted: when it lies beyond the file, only such a section faults,
   * and any other section loads or is rejected as if it had been read.
   */
  lemma PointerReadOnlyForRawData(data: seq<byte>, buf: seq<byte>, imageSize: u32, sec: SectionHeader)
    requires |buf| == imageSize && sec.pointerToRawData.None?
    ensures !SectionRangeAccepted(imageSize, sec) ==> LoadSection(data, buf, imageSize, sec) == (buf, Unsupported)
    ensures LoadSection(data, buf, imageSize, sec).1 == MemoryFault <==>
      SectionRangeAccepted(imageSize, sec)
      && (sec.sizeOfRawData > 0 || sec.virtualAddress + sec.virtualSize > |buf|)
  {
    if SectionRangeAccepted(imageSize, sec) && sec.sizeOfRawData == 0 {
      assert CopySize(sec) == 0;
      assert sec.virtualAddress <= |buf|;
    }
  }

  /**
   * A file that ends after the SizeOfRawData field of its only section
   * header: the loop reads the first three fields and faults only where
   * the section itself would need PointerToRawData or memory beyond the buffer.
   */
  lemma SectionTableCutAfterSizeOfRawData(data: seq<byte>, buf: seq<byte>, ctx: ImageContext)
    requires ctx.numberOfSections == 1 && |data| == SectionAt(ctx, 0) + POINTER_TO_RAW_DATA_AT
    requires |buf| == ctx.imageSize
    ensures var sec := ReadSection(data, SectionAt(ctx, 0));
      && sec.pointerToRawData.None?
      && (!SectionRangeAccepted(ctx.imageSize, sec) ==> LoadSections(data, buf, ctx, 0).1 == Unsupported)
      && (LoadSections(data, buf, ctx, 0).1 == MemoryFault <==>
          SectionRangeAccepted(ctx.imageSize, sec)
          && (sec.sizeOfRawData > 0 || sec.virtualAddress + sec.virtualSize > |buf|))
  {
    var sec := ReadSection(data, SectionAt(ctx, 0));
    var r := LoadSection(data, buf, ctx.imageSize, sec);
    PointerReadOnlyForRawData(data, buf, ctx.imageSize, sec);
    if r.1 == Success {
      assert LoadSections(data, r.0, ctx, 1) == (r.0, Success);
    }
  }

  // ----- The loaded-image record -----

  /** EFI_LOADED_IMAGE as a value: what start_image backs up and restores. Handles and pointers are opaque numbers. */
  datatype LoadedImageRecord = LoadedImageRecord(
    revision: u32,
    parentHandle: nat,
    systemTable: nat,
    deviceHandle: nat,
    filePath: nat,
    loadOptionsSize: u32,
    loadOptions: seq<char>,
    imageBase: u64,
    imageSize: u64,
    imageCodeType: nat,
    imageDataType: nat,
    unload: nat)

  /** LoadOptionsSize = ((UINT32)StrLen(Options) + 1) * sizeof(CHAR16), stored in a UINT32. */
  function LoadOptionsSize(options: seq<char>): (n: u32)
    ensures |options| < 0x7FFF_FFFF ==> n == 2 * (|options| + 1)
  {
    ((|options| % TWO_32 + 1) % TWO_32) * 2 % TWO_32
  }

  /** The record after handle_image describes the new image to it: its device, path, options, buffer and size. */
  function Describing(rec: LoadedImageRecord, deviceHandle: nat, devicePath: nat, options: seq<char>,
                      address: u64, imageSize: u32): LoadedImageRecord
  {
    rec.(deviceHandle := deviceHandle, filePath := devicePath, loadOptionsSize := LoadOptionsSize(options),
         loadOptions := options, imageBase := address, imageSize := imageSize)
  }

  /** The firmware's EFI_LOADED_IMAGE protocol instance of the running loader. */
  class LoadedImage {
    var revision: u32
    var parentHandle: nat
    var systemTable: nat
    var deviceHandle: nat
    var filePath: nat
    var loadOptionsSize: u32
    var loadOptions: seq<char>
    var imageBase: u64
    var imageSize: u64
    var imageCodeType: nat
    var imageDataType: nat
    var unload: nat

    constructor (r: LoadedImageRecord)
      ensures Record() == r
    {
      revision, parentHandle, systemTable := r.revision, r.parentHandle, r.systemTable;
      deviceHandle, filePath := r.deviceHandle, r.filePath;
      loadOptionsSize, loadOptions := r.loadOptionsSize, r.loadOptions;
      imageBase, imageSize := r.imageBase, r.imageSize;
      imageCodeType, imageDataType, unload := r.imageCodeType, r.imageDataType, r.unload;
    }

    function Record(): LoadedImageRecord
      reads this
    {
      LoadedImageRecord(revision, parentHandle, systemTable, deviceHandle, filePath, loadOptionsSize,
                        loadOptions, imageBase, imageSize, imageCodeType, imageDataType, unload)
    }

    /** CopyMem of a whole record into the instance. */
    method Assign(r: LoadedImageRecord)
      modifies this
      ensures Record() == r
    {
      revision, parentHandle, systemTable := r.revision, r.parentHandle, r.systemTable;
      deviceHandle, filePath := r.deviceHandle, r.filePath;
      loadOptionsSize, loadOptions := r.loadOptionsSize, r.loadOptions;
      imageBase, imageSize := r.imageBase, r.imageSize;
      imageCodeType, imageDataType, unload := r.imageCodeType, r.imageDataType, r.unload;
    }
  }

  // ----- handle_image -----

  /**
   * What became of the image buffer: never allocated, freed, leaked, kept for
   * the child, or Stuck: handle_image never got to the return that decides
   * its fate, because it loops forever or has already accessed memory outside
   * its buffers (see Unfinished).
   */
  datatype BufferUse = NoBuffer | Freed | Leaked | Kept | Stuck

  /**
   * The model-only statuses: the C code never returns Hang (it loops
   * forever) and its behaviour after a MemoryFault is undefined, so nothing
   * it would do after either is part of the model.
   */
  predicate Unfinished(status: Status) {
    status == Hang || status == MemoryFault
  }

  /**
   * Whether handle_image assigned the entry_point global and rewrote the
   * loaded-image record, and with what: the entry point, the buffer's
   * address and the image size.
   */
  datatype EntryWrite = NotWritten | Written(entry: Option<nat>, address: u64, imageSize: u32)

  /**
   * Everything handle_image leaves behind: its status, the source buffer
   * (whose header gets the new ImageBase once relocation starts), what became
   * of the image buffer and its contents, and the entry-point write.
   */
  datatype Handled = Handled(status: Status, source: seq<byte>, use: BufferUse, image: seq<byte>, entry: EntryWrite)

  /** How far the work on an allocated buffer got: the section loop failed, relocation failed, or both succeeded. */
  datatype Staged =
    | SectionsFailed(status: Status, image: seq<byte>)
    | RelocationFailed(status: Status, source: seq<byte>, image: seq<byte>)
    | Relocated(source: seq<byte>, image: seq<byte>)

  /** Headers and sections into the fresh buffer, then relocate_coff on it. */
  function Stage(data: seq<byte>, ctx: ImageContext, address: u64, initial: seq<byte>): (st: Staged)
    requires HeaderInBounds(data, ctx) && ctx.sizeOfHeaders <= |initial|
    ensures |st.image| == |initial|
    ensures !st.Relocated? ==> st.status == Unsupported || st.status == MemoryFault || st.status == Hang
  {
    var loaded := LoadImageContents(data, ctx, initial);
    if loaded.1 != Success then SectionsFailed(loaded.1, loaded.0)
    else
      var source := WithImageBase(data, ctx, address);
      var relocated := RelocateImage(source, ctx, loaded.0, address);
      if relocated.1 != Success then RelocationFailed(relocated.1, source, relocated.0)
      else Relocated(source, relocated.0)
  }

  /** The part of handle_image after AllocatePool succeeded, on a buffer holding initial. */
  function LoadAllocated(data: seq<byte>, ctx: ImageContext, address: u64, initial: seq<byte>): (h: Handled)
    requires HeaderInBounds(data, ctx) && ctx.sizeOfHeaders <= |initial|
    ensures h.use != NoBuffer
    ensures h.status == Success || h.status == Unsupported || h.status == MemoryFault || h.status == Hang
    ensures h.use == Stuck <==> Unfinished(h.status)
    ensures h.use == Stuck ==> h.entry == NotWritten
  {
    match Stage(data, ctx, address, initial)
    case SectionsFailed(status, image) =>
      Handled(status, data, if Unfinished(status) then Stuck else Leaked, image, NotWritten)
    case RelocationFailed(status, source, image) =>
      Handled(status, source, if Unfinished(status) then Stuck else Freed, image, NotWritten)
    case Relocated(source, image) =>
      var entry := ImageAddress(ctx.imageSize, ctx.entryPoint);
      var written := Written(entry, address, ctx.imageSize);
      if entry.None? then Handled(Unsupported, source, Freed, image, written)
      else Handled(Success, source, Kept, image, written)
  }

  /** handle_image, stage by stage. */
  function HandleImageSpec(data: seq<byte>, datasize: u32, shim: ShimLookup, alloc: Allocation): (h: Handled)
    requires datasize <= |data|
    ensures h.use == Stuck <==> Unfinished(h.status)
    ensures h.use == Stuck ==> h.entry == NotWritten
  {
    match ReadHeader(data, datasize)
    case Err(e) => Handled(e, data, NoBuffer, [], NotWritten)
    case Ok(ctx) => HandleValidHeader(data, ctx, shim, alloc)
  }

  /** handle_image once read_header has accepted the image: the shim gate, the allocation, the load. */
  function HandleValidHeader(data: seq<byte>, ctx: ImageContext, shim: ShimLookup, alloc: Allocation): (h: Handled)
    requires HeaderInBounds(data, ctx) && ctx.sizeOfHeaders <= ctx.imageSize
    ensures h.use == Stuck <==> Unfinished(h.status)
    ensures h.use == Stuck ==> h.entry == NotWritten
  {
    if !ShimValidate(shim) then Handled(AccessDenied, data, NoBuffer, [], NotWritten)
    else match alloc
      case AllocFails => Handled(OutOfResources, data, NoBuffer, [], NotWritten)
      case Allocated(address, junk) => LoadAllocated(data, ctx, address, FreshContents(junk, ctx.imageSize))
  }

  /**
   * After read_header: AccessDenied exactly when the shim refuses,
   * OutOfResources exactly when it accepts and the allocation fails, and in
   * both cases nothing is allocated, copied or written.
   */
  lemma HandleValidHeaderGates(data: seq<byte>, ctx: ImageContext, shim: ShimLookup, alloc: Allocation)
    requires HeaderInBounds(data, ctx) && ctx.sizeOfHeaders <= ctx.imageSize
    ensures var h := HandleValidHeader(data, ctx, shim, alloc);
      && (h.status == AccessDenied <==> !ShimValidate(shim))
      && (h.status == OutOfResources <==> ShimValidate(shim) && alloc.AllocFails?)
      && (h.use == NoBuffer <==> h.status == AccessDenied || h.status == OutOfResources)
      && (h.use == NoBuffer ==> h.source == data && h.entry == NotWritten)
  {
  }

  /**
   * The verifier gate: an image with a valid header is denied exactly when
   * the shim does not accept it, and then nothing is allocated, copied or
   * written.
   */
  lemma AccessDeniedExactlyWhenUntrusted(data: seq<byte>, datasize: u32, shim: ShimLookup, alloc: Allocation)
    requires datasize <= |data|
    ensures var h := HandleImageSpec(data, datasize, shim, alloc);
      h.status == AccessDenied <==> ReadHeader(data, datasize).Ok? && !ShimValidate(shim)
    ensures var h := HandleImageSpec(data, datasize, shim, alloc);
      h.status == AccessDenied ==> h.use == NoBuffer && h.source == data && h.entry == NotWritten
  {
    var header := ReadHeader(data, datasize);
    if header.Ok? {
      HandleValidHeaderGates(data, header.value, shim, alloc);
    }
  }

  /** Allocation happens only after the gate, and its failure is the only source of OutOfResources. */
  lemma OutOfResourcesExactlyWhenAllocationFails(data: seq<byte>, datasize: u32, shim: ShimLookup, alloc: Allocation)
    requires datasize <= |data|
    ensures var h := HandleImageSpec(data, datasize, shim, alloc);
      h.status == OutOfResources <==>
        ReadHeader(data, datasize).Ok? && ShimValidate(shim) && alloc.AllocFails?
  {
    var header := ReadHeader(data, datasize);
    if header.Ok? {
      HandleValidHeaderGates(data, header.value, shim, alloc);
    }
  }

  /**
   * A load into an allocated buffer that succeeds relocated the image, keeps
   * the buffer and wrote an entry point that lies within the image.
   */
  lemma LoadAllocatedSuccess(data: seq<byte>, ctx: ImageContext, address: u64, initial: seq<byte>)
    requires HeaderInBounds(data, ctx) && ctx.sizeOfHeaders <= |initial|
    requires LoadAllocated(data, ctx, address, initial).status == Success
    ensures var h := LoadAllocated(data, ctx, address, initial);
      var st := Stage(data, ctx, address, initial);
      && h.use == Kept
      && h.entry == Written(Some(ctx.entryPoint), address, ctx.imageSize)
      && ctx.entryPoint <= ctx.imageSize
      && st.Relocated?
      && h.source == st.source == WithImageBase(data, ctx, address)
      && h.image == st.image
  {
  }

  /**
   * A successful handle_image had a valid header, the shim's approval and a
   * buffer; the buffer is kept, holds the loaded and relocated image, and the
   * entry point lies within the image.
   */
  lemma HandleImageSuccess(data: seq<byte>, datasize: u32, shim: ShimLookup, alloc: Allocation)
    requires datasize <= |data|
    requires HandleImageSpec(data, datasize, shim, alloc).status == Success
    ensures ReadHeader(data, datasize).Ok? && ShimValidate(shim) && alloc.Allocated?
    ensures var h := HandleImageSpec(data, datasize, shim, alloc);
      var ctx := ReadHeader(data, datasize).value;
      && h == LoadAllocated(data, ctx, alloc.address, FreshContents(alloc.junk, ctx.imageSize))
      && h.use == Kept
      && h.entry == Written(Some(ctx.entryPoint), alloc.address, ctx.imageSize)
      && ctx.entryPoint <= ctx.imageSize
      && h.source == WithImageBase(data, ctx, alloc.address)
  {
    var ctx := ReadHeader(data, datasize).value;
    HandleValidHeaderGates(data, ctx, shim, alloc);
    LoadAllocatedSuccess(data, ctx, alloc.address, FreshContents(alloc.junk, ctx.imageSize));
  }

  /**
   * After allocation, the buffer is leaked exactly when the section loop
   * fails, kept exactly when handle_image succeeds, and an invalid entry point
   * is found only after the entry point and the record were written.
   */
  lemma LoadAllocatedBufferFate(data: seq<byte>, ctx: ImageContext, address: u64, initial: seq<byte>)
    requires HeaderInBounds(data, ctx) && ctx.sizeOfHeaders <= |initial|
    ensures var h := LoadAllocated(data, ctx, address, initial);
      h.use == Leaked <==> Stage(data, ctx, address, initial).SectionsFailed? && h.status == Unsupported
    ensures var h := LoadAllocated(data, ctx, address, initial);
      h.use == Leaked ==> h.entry == NotWritten && h.source == data
    ensures var h := LoadAllocated(data, ctx, address, initial);
      h.entry.Written? && h.entry.entry.None? ==> h.status == Unsupported && h.use == Freed
    ensures var h := LoadAllocated(data, ctx, address, initial);
      h.use == Kept <==> h.status == Success
  {
  }

  // ----- Loader state and the imperative operations -----

  /**
   * The loader's own state: the static entry_point global, modelled as the
   * offset of the entry point within the loaded image buffer (None for NULL).
   */
  class Loader {
    var entryPoint: Option<nat>

    constructor ()
      ensures entryPoint == None
    {
      entryPoint := None;
    }

    /** One iteration of the section loop, in place. */
    static method CopySection(data: array<byte>, buffer: array<byte>, imageSize: u32, sec: SectionHeader)
      returns (status: Status)
      requires data != buffer
      modifies buffer
      ensures (buffer[..], status) == LoadSection(data[..], old(buffer[..]), imageSize, sec)
    {
      var size := CopySize(sec);
      var va := sec.virtualAddress;
      var base := ImageAddress(imageSize, va);
      var end := ImageAddress(imageSize, (va + size - 1) % TWO_32);
      if base.None? || end.None? {
        return Unsupported;
      }
      if sec.sizeOfRawData > 0 {
        if sec.pointerToRawData.None? {
          return MemoryFault;   // PointerToRawData lies beyond the file
        }
        var ptr := sec.pointerToRawData.value;
        if size > 0 {   // a zero-length CopyMem touches nothing
          if Int32(size) < 0 || va + size > buffer.Length || ptr + size > data.Length {
            return MemoryFault;
          }
          Store(buffer, va, data[ptr..ptr + size]);
        }
      }
      assert buffer[..] == Copied(data[..], old(buffer[..]), sec);
      if size < sec.virtualSize {
        if va + sec.virtualSize > buffer.Length {
          return MemoryFault;
        }
        Store(buffer, va + size, Zeros(sec.virtualSize - size));
      }
      return Success;
    }

    /** The section loop of handle_image. */
    static method CopySections(data: array<byte>, buffer: array<byte>, ctx: ImageContext) returns (status: Status)
      requires data != buffer
      modifies buffer
      ensures (buffer[..], status) == LoadSections(data[..], old(buffer[..]), ctx, 0)
    {
      var i := 0;
      while i < ctx.numberOfSections
        invariant LoadSections(data[..], buffer[..], ctx, i) == LoadSections(data[..], old(buffer[..]), ctx, 0)
        decreases ctx.numberOfSections - i
      {
        var at := SectionAt(ctx, i);
        if at + SIZE_OF_RAW_DATA_AT + 4 > data.Length {
          return MemoryFault;
        }
        status := CopySection(data, buffer, ctx.imageSize, ReadSection(data[..], at));
        if status != Success {
          return;
        }
        i := i + 1;
      }
      return Success;
    }

    /** The work on the allocated buffer: headers, sections, relocation. */
    static method PrepareImage(data: array<byte>, ctx: ImageContext, address: u64, image: array<byte>)
      returns (status: Status, sectionsLoaded: bool)
      requires HeaderInBounds(data[..], ctx)
      requires image.Length == ctx.imageSize && ctx.sizeOfHeaders <= ctx.imageSize
      requires data != image
      modifies data, image
      ensures var st := Stage(old(data[..]), ctx, address, old(image[..]));
        && status == (if st.Relocated? then Success else st.status)
        && sectionsLoaded == !st.SectionsFailed?
        && image[..] == st.image
        && data[..] == (if st.SectionsFailed? then old(data[..]) else st.source)
    {
      if ctx.sizeOfHeaders > data.Length {
        return MemoryFault, false;
      }
      Store(image, 0, data[..ctx.sizeOfHeaders]);
      status := CopySections(data, image, ctx);
      if status != Success {
        return status, false;
      }
      status := RelocateCoff(ctx, data, image, address);
      sectionsLoaded := true;
    }

    /**
     * The part of handle_image after the allocation: prepare the buffer, then
     * set entry_point and rewrite the record before checking the entry point.
     */
    method LoadIntoBuffer(data: array<byte>, ctx: ImageContext, address: u64, buffer: array<byte>, li: LoadedImage,
                          options: seq<char>, deviceHandle: nat, devicePath: nat)
      returns (status: Status, use: BufferUse)
      requires HeaderInBounds(data[..], ctx)
      requires buffer.Length == ctx.imageSize && ctx.sizeOfHeaders <= ctx.imageSize
      requires data != buffer
      modifies this, data, buffer, li
      ensures var h := LoadAllocated(old(data[..]), ctx, address, old(buffer[..]));
        && status == h.status
        && use == h.use
        && data[..] == h.source
        && buffer[..] == h.image
        && (status == Success ==> entryPoint.Some?)
        && entryPoint == (if h.entry.Written? then h.entry.entry else old(entryPoint))
        && li.Record() == (if h.entry.Written? then
             Describing(old(li.Record()), deviceHandle, devicePath, options, h.entry.address, h.entry.imageSize)
           else old(li.Record()))
    {
      var sectionsLoaded;
      status, sectionsLoaded := PrepareImage(data, ctx, address, buffer);
      if status != Success {
        // the buffer is freed after a relocation failure, leaked after a section failure
        return status, if Unfinished(status) then Stuck else if sectionsLoaded then Freed else Leaked;
      }
      entryPoint := ImageAddress(ctx.imageSize, ctx.entryPoint);
      li.Assign(Describing(li.Record(), deviceHandle, devicePath, options, address, ctx.imageSize));
      if entryPoint.None? {
        return Unsupported, Freed;
      }
      return Success, Kept;
    }

    /**
     * handle_image: read and check the header, ask the shim, allocate the
     * image buffer, then LoadIntoBuffer. The returned buffer is the one
     * allocated (null if none was); HandleImageSpec says whether it was
     * freed, leaked or kept.
     */
    method HandleImage(data: array<byte>, datasize: u32, li: LoadedImage, options: seq<char>,
                       deviceHandle: nat, devicePath: nat, shim: ShimLookup, alloc: Allocation)
      returns (status: Status, buffer: array?<byte>, use: BufferUse)
      requires datasize <= data.Length
      modifies this, data, li
      ensures var h := HandleImageSpec(old(data[..]), datasize, shim, alloc);
        && status == h.status
        && data[..] == h.source
        && use == h.use
        && (buffer == null <==> h.use == NoBuffer)
        && (buffer != null ==> fresh(buffer) && buffer[..] == h.image)
        && (status == Success ==> entryPoint.Some?)
        && entryPoint == (if h.entry.Written? then h.entry.entry else old(entryPoint))
        && li.Record() == (if h.entry.Written? then
             Describing(old(li.Record()), deviceHandle, devicePath, options, h.entry.address, h.entry.imageSize)
           else old(li.Record()))
    {
      var header := ReadHeader(data[..], datasize);
      if header.Err? {
        return header.status, null, NoBuffer;
      }
      status, buffer, use := HandleValidImage(data, header.value, li, options, deviceHandle, devicePath, shim, alloc);
    }

    /** handle_image after read_header accepted the image with context ctx. */
    method HandleValidImage(data: array<byte>, ctx: ImageContext, li: LoadedImage, options: seq<char>,
                            deviceHandle: nat, devicePath: nat, shim: ShimLookup, alloc: Allocation)
      returns (status: Status, buffer: array?<byte>, use: BufferUse)
      requires HeaderInBounds(data[..], ctx) && ctx.sizeOfHeaders <= ctx.imageSize
      modifies this, data, li
      ensures var h := HandleValidHeader(old(data[..]), ctx, shim, alloc);
        && status == h.status
        && data[..] == h.source
        && use == h.use
        && (buffer == null <==> h.use == NoBuffer)
        && (buffer != null ==> fresh(buffer) && buffer[..] == h.image)
        && (status == Success ==> entryPoint.Some?)
        && entryPoint == (if h.entry.Written? then h.entry.entry else old(entryPoint))
        && li.Record() == (if h.entry.Written? then
             Describing(old(li.Record()), deviceHandle, devicePath, options, h.entry.address, h.entry.imageSize)
           else old(li.Record()))
    {
      if !ShimValidate(shim) {
        return AccessDenied, null, NoBuffer;
      }
      if alloc.AllocFails? {
        return OutOfResources, null, NoBuffer;
      }
      var image := new byte[ctx.imageSize](i => alloc.junk(i));
      assert image[..] == FreshContents(alloc.junk, ctx.imageSize);
      status, use := LoadIntoBuffer(data, ctx, alloc.address, image, li, options, deviceHandle, devicePath);
      buffer := image;
    }

    /**
     * start_image: back up the loaded-image record, handle the image, run the
     * child through entry_point, restore the record, free the file data. The
     * child's run is the parameter `child`: the status it returns and the
     * record it leaves behind.
     */
    method StartImage(data: array?<byte>, datasize: u64, lookup: Status, li: LoadedImage, options: seq<char>,
                      deviceHandle: nat, devicePath: nat, shim: ShimLookup, alloc: Allocation, child: ChildRun)
      returns (status: Status, dataFreed: bool, childRan: bool, bufferUse: BufferUse)
      requires data != null ==> datasize <= data.Length
      modifies this, data, li
      ensures data == null ==>
        status == LoadError && !dataFreed && !childRan && bufferUse == NoBuffer && li.Record() == old(li.Record())
      ensures data != null && lookup != Success ==>
        status == lookup && !dataFreed && !childRan && bufferUse == NoBuffer && li.Record() == old(li.Record())
      ensures data != null && lookup == Success ==>
        var h := HandleImageSpec(old(data[..]), datasize % TWO_32, shim, alloc);
        && (dataFreed <==> !Unfinished(h.status))
        && (h.use == Stuck <==> Unfinished(h.status))
        && li.Record() == old(li.Record())
        && childRan == (h.status == Success)
        && bufferUse == h.use
        && status == (if h.status == Success then child.status else h.status)
        && data[..] == h.source
      ensures childRan ==> entryPoint.Some? && bufferUse == Kept
    {
      if data == null {
        return LoadError, false, false, NoBuffer;
      }
      if lookup != Success {
        return lookup, false, false, NoBuffer;
      }
      status, childRan, bufferUse := RunImage(data, (datasize % TWO_32) as u32, li, options, deviceHandle, devicePath,
                                              shim, alloc, child);
      dataFreed := bufferUse != Stuck;
    }

    /**
     * The part of start_image once the loaded-image protocol is found: the
     * record is backed up, the image handled and, on success, run; the
     * record is restored on both paths that return. An Unfinished
     * handle_image goes no further: nothing is restored or run.
     */
    method RunImage(data: array<byte>, datasize: u32, li: LoadedImage, options: seq<char>,
                    deviceHandle: nat, devicePath: nat, shim: ShimLookup, alloc: Allocation, child: ChildRun)
      returns (status: Status, childRan: bool, bufferUse: BufferUse)
      requires datasize <= data.Length
      modifies this, data, li
      ensures var h := HandleImageSpec(old(data[..]), datasize, shim, alloc);
        && li.Record() == old(li.Record())
        && childRan == (h.status == Success)
        && bufferUse == h.use
        && status == (if h.status == Success then child.status else h.status)
        && data[..] == h.source
      ensures childRan ==> entryPoint.Some? && bufferUse == Kept
    {
      var backup := li.Record();
      var buffer;
      status, buffer, bufferUse := HandleImage(data, datasize, li, options, deviceHandle, devicePath, shim, alloc);
      if bufferUse == Stuck {
        return status, false, bufferUse;
      }
      if status != Success {
        li.Assign(backup);
        return status, false, bufferUse;
      }
      HandleImageSuccess(old(data[..]), datasize, shim, alloc);
      li.Assign(child.leaves);   // the child may change the record
      status := child.status;
      li.Assign(backup);
      childRan := true;
    }
  }

  /** The child image's run: the status its entry point returns and the loaded-image record it leaves. */
  datatype ChildRun = ChildRun(status: Status, leaves: LoadedImageRecord)
}
