/**
 * The PE32+ header view of the loader: the structure layout it overlays on the
 * image (Microsoft PE/COFF Specification, Revision 8.0), the bounds-checked
 * offset translation `ImageAddress`, and `ReadHeader`, which validates the
 * headers of an untrusted buffer and extracts the image context.
 */
module PeImage {
  import opened Bytes
  import opened Efi

  // MS-DOS stub (section 3.1 of the PE/COFF specification)
  const DOS_HEADER_SIZE: nat := 64          // sizeof(EFI_IMAGE_DOS_HEADER)
  const E_LFANEW_AT: nat := 0x3C            // offset of e_lfanew
  const DOS_SIGNATURE: nat := 0x5A4D        // "MZ"

  // The union of the PE32, PE32+ and TE header views
  const HEADER_UNION_SIZE: nat := 264       // sizeof(EFI_IMAGE_OPTIONAL_HEADER_UNION)
  const NT_SIGNATURE: nat := 0x0000_4550    // "PE\0\0"

  // Field offsets from the start of the PE header: signature (4 bytes), COFF
  // file header (20 bytes, section 3.3), PE32+ optional header (section 3.4)
  const NUMBER_OF_SECTIONS_AT: nat := 6
  const SIZE_OF_OPTIONAL_HEADER_AT: nat := 20
  const CHARACTERISTICS_AT: nat := 22
  const OPTIONAL_HEADER_AT: nat := 24       // sizeof(UINT32) + sizeof(EFI_IMAGE_FILE_HEADER)
  const MAGIC_AT: nat := 24
  const ENTRY_POINT_AT: nat := 40
  const IMAGE_BASE_AT: nat := 48
  const SIZE_OF_IMAGE_AT: nat := 80
  const SIZE_OF_HEADERS_AT: nat := 84
  const NUMBER_OF_RVA_AND_SIZES_AT: nat := 132
  const DATA_DIRECTORY_AT: nat := 136

  const RELOCS_STRIPPED: nat := 0x0001      // COFF characteristics flag (section 3.3.2)
  const PE32PLUS_MAGIC: nat := 0x20B        // optional-header magic of PE32+

  // Data directories (section 3.4.3): 8 bytes each, VirtualAddress then Size
  const DATA_DIRECTORY_SIZE: nat := 8
  const DIRECTORY_ENTRY_SECURITY: nat := 4
  const DIRECTORY_ENTRY_BASERELOC: nat := 5
  const SECURITY_DIR_AT: nat := DATA_DIRECTORY_AT + DATA_DIRECTORY_SIZE * DIRECTORY_ENTRY_SECURITY
  const BASERELOC_DIR_AT: nat := DATA_DIRECTORY_AT + DATA_DIRECTORY_SIZE * DIRECTORY_ENTRY_BASERELOC

  // Section table (section 4)
  const SECTION_HEADER_SIZE: nat := 40
  const VIRTUAL_SIZE_AT: nat := 8
  const VIRTUAL_ADDRESS_AT: nat := 12
  const SIZE_OF_RAW_DATA_AT: nat := 16
  const POINTER_TO_RAW_DATA_AT: nat := 20

  /**
   * GNUEFI_PE_COFF_LOADER_IMAGE_CONTEXT. The pointer members (PEHdr,
   * FirstSection, RelocDir, SecDir) are offsets into the SOURCE buffer: the
   * loader reads the directories through them when it uses them.
   */
  datatype ImageContext = ImageContext(
    peHdr: nat,
    imageAddress: u64,
    imageSize: u32,
    sizeOfHeaders: u32,
    entryPoint: u32,
    relocDir: nat,
    numberOfRvaAndSizes: u32,
    numberOfSections: u16,
    firstSection: nat,
    secDir: nat)

  /**
   * The one checked offset translation: an address up to and INCLUDING size is
   * accepted. (The C parameter `int size` is compared as unsigned against the
   * unsigned address; every caller passes a 32-bit image size, so this is a
   * plain comparison of the two values.)
   */
  function ImageAddress(size: nat, address: nat): (r: Option<nat>)
    ensures r.None? <==> address > size
    ensures r.Some? ==> r.value == address
  {
    if address > size then None else Some(address)
  }

  /** Where the PE header starts: at e_lfanew behind an MZ stub, else at offset 0. */
  function PeHeaderOffset(data: seq<byte>): nat
    requires DOS_HEADER_SIZE <= |data|
  {
    if U16At(data, 0) == DOS_SIGNATURE then U32At(data, E_LFANEW_AT) else 0
  }

  /**
   * What a successful ReadHeader guarantees about the buffer and the context:
   * the whole header union lies within datasize, its signature, characteristics
   * and magic passed, the image is at least as large as its headers, and the
   * security directory entry and the address it holds lie within datasize.
   */
  ghost predicate Describes(data: seq<byte>, datasize: nat, ctx: ImageContext)
    requires datasize <= |data|
  {
    && DOS_HEADER_SIZE <= datasize
    && ctx.peHdr == PeHeaderOffset(data)
    && ctx.peHdr + HEADER_UNION_SIZE <= datasize
    && U16At(data, ctx.peHdr) == NT_SIGNATURE
    && U16At(data, ctx.peHdr + CHARACTERISTICS_AT) % 2 == 0
    && U16At(data, ctx.peHdr + MAGIC_AT) == PE32PLUS_MAGIC
    && ctx.sizeOfHeaders <= ctx.imageSize
    && ctx.relocDir == ctx.peHdr + BASERELOC_DIR_AT
    && ctx.secDir == ctx.peHdr + SECURITY_DIR_AT
    && ctx.secDir + DATA_DIRECTORY_SIZE <= datasize
    && U32At(data, ctx.secDir) < datasize
    && ctx.imageSize == U32At(data, ctx.peHdr + SIZE_OF_IMAGE_AT)
    && ctx.sizeOfHeaders == U32At(data, ctx.peHdr + SIZE_OF_HEADERS_AT)
    && ctx.entryPoint == U32At(data, ctx.peHdr + ENTRY_POINT_AT)
    && ctx.imageAddress == U64At(data, ctx.peHdr + IMAGE_BASE_AT)
    && ctx.numberOfSections == U16At(data, ctx.peHdr + NUMBER_OF_SECTIONS_AT)
    && ctx.numberOfRvaAndSizes == U32At(data, ctx.peHdr + NUMBER_OF_RVA_AND_SIZES_AT)
    && ctx.firstSection == ctx.peHdr + OPTIONAL_HEADER_AT + U16At(data, ctx.peHdr + SIZE_OF_OPTIONAL_HEADER_AT)
  }

  /**
   * The layout facts about a context that its users rely on: the header union
   * and the directory entries it points to lie within the first datasize bytes,
   * and the image is at least as large as its headers.
   */
  predicate Consistent(ctx: ImageContext, datasize: nat) {
    && ctx.peHdr + HEADER_UNION_SIZE <= datasize
    && ctx.relocDir == ctx.peHdr + BASERELOC_DIR_AT
    && ctx.secDir == ctx.peHdr + SECURITY_DIR_AT
    && ctx.sizeOfHeaders <= ctx.imageSize
  }

  /**
   * read_header: validates the DOS and PE headers of the first datasize bytes
   * of data and extracts the image context. Checks run in the source's order;
   * all but the last fail with Unsupported, the last (security directory
   * address) with InvalidParameter.
   */
  function ReadHeader(data: seq<byte>, datasize: nat): (r: Result<ImageContext>)
    requires datasize <= |data|
    ensures r.Ok? ==> Consistent(r.value, datasize)
    ensures r.Err? ==> r.status == Unsupported || r.status == InvalidParameter
  {
    if datasize < DOS_HEADER_SIZE then Err(Unsupported)
    else
      var pe := PeHeaderOffset(data);
      if pe + HEADER_UNION_SIZE > datasize then Err(Unsupported)
      // The signature is read through the TE view's 16-bit Signature field,
      // so only the bytes 'P' and 'E' are compared.
      else if U16At(data, pe) != NT_SIGNATURE then Err(Unsupported)
      else if U16At(data, pe + CHARACTERISTICS_AT) % 2 == RELOCS_STRIPPED then Err(Unsupported)
      else if U16At(data, pe + MAGIC_AT) != PE32PLUS_MAGIC then Err(Unsupported)
      else
        var ctx := ImageContext(
          pe,
          U64At(data, pe + IMAGE_BASE_AT),
          U32At(data, pe + SIZE_OF_IMAGE_AT),
          U32At(data, pe + SIZE_OF_HEADERS_AT),
          U32At(data, pe + ENTRY_POINT_AT),
          pe + BASERELOC_DIR_AT,
          U32At(data, pe + NUMBER_OF_RVA_AND_SIZES_AT),
          U16At(data, pe + NUMBER_OF_SECTIONS_AT),
          pe + OPTIONAL_HEADER_AT + U16At(data, pe + SIZE_OF_OPTIONAL_HEADER_AT),
          pe + SECURITY_DIR_AT);
        if ctx.imageSize < ctx.sizeOfHeaders then Err(Unsupported)
        else if ctx.secDir > datasize - DATA_DIRECTORY_SIZE then Err(Unsupported)
        else if U32At(data, ctx.secDir) >= datasize then Err(InvalidParameter)
        else Ok(ctx)
  }

  /** A context ReadHeader returns describes the buffer it was read from. */
  lemma ReadHeaderDescribes(data: seq<byte>, datasize: nat)
    requires datasize <= |data|
    ensures ReadHeader(data, datasize).Ok? ==> Describes(data, datasize, ReadHeader(data, datasize).value)
  {
  }

  /**
   * The failures of ReadHeader, one per check, each under the assumption that
   * the checks before it passed.
   */
  lemma ReadHeaderRejects(data: seq<byte>, datasize: nat)
    requires datasize <= |data|
    ensures datasize < DOS_HEADER_SIZE ==> ReadHeader(data, datasize) == Err(Unsupported)
    ensures DOS_HEADER_SIZE <= datasize && PeHeaderOffset(data) + HEADER_UNION_SIZE > datasize
            ==> ReadHeader(data, datasize) == Err(Unsupported)
    ensures DOS_HEADER_SIZE <= datasize && PeHeaderOffset(data) + HEADER_UNION_SIZE <= datasize
            && U16At(data, PeHeaderOffset(data)) != NT_SIGNATURE
            ==> ReadHeader(data, datasize) == Err(Unsupported)
    ensures DOS_HEADER_SIZE <= datasize && PeHeaderOffset(data) + HEADER_UNION_SIZE <= datasize
            && U16At(data, PeHeaderOffset(data) + CHARACTERISTICS_AT) % 2 == 1
            ==> ReadHeader(data, datasize) == Err(Unsupported)
    ensures DOS_HEADER_SIZE <= datasize && PeHeaderOffset(data) + HEADER_UNION_SIZE <= datasize
            && U16At(data, PeHeaderOffset(data) + MAGIC_AT) != PE32PLUS_MAGIC
            ==> ReadHeader(data, datasize) == Err(Unsupported)
  {
  }

  /**
   * Only the security-directory address fails with InvalidParameter, and the
   * bound check on the security-directory entry itself can never fail once the
   * header union lies within datasize: the entry sits inside the union.
   */
  lemma ReadHeaderInvalidParameter(data: seq<byte>, datasize: nat)
    requires datasize <= |data|
    ensures ReadHeader(data, datasize) == Err(InvalidParameter) <==>
      && DOS_HEADER_SIZE <= datasize
      && PeHeaderOffset(data) + HEADER_UNION_SIZE <= datasize
      && U16At(data, PeHeaderOffset(data)) == NT_SIGNATURE
      && U16At(data, PeHeaderOffset(data) + CHARACTERISTICS_AT) % 2 == 0
      && U16At(data, PeHeaderOffset(data) + MAGIC_AT) == PE32PLUS_MAGIC
      && U32At(data, PeHeaderOffset(data) + SIZE_OF_HEADERS_AT)
         <= U32At(data, PeHeaderOffset(data) + SIZE_OF_IMAGE_AT)
      && U32At(data, PeHeaderOffset(data) + SECURITY_DIR_AT) >= datasize
  {
  }

  /**
   * The signature check reads two bytes only: a header whose signature is
   * "PE" followed by any two bytes passes it.
   */
  lemma SignatureIgnoresTrailingBytes(data: seq<byte>, pe: nat, b2: byte, b3: byte)
    requires pe + 4 <= |data|
    requires data[pe] == 'P' as int && data[pe + 1] == 'E' as int
    ensures U16At(data[pe + 2 := b2][pe + 3 := b3], pe) == NT_SIGNATURE
  {
    var d := data[pe + 2 := b2][pe + 3 := b3];
    assert d[pe..pe + 2] == [data[pe], data[pe + 1]];
    assert d[pe..pe + 2][1..] == [data[pe + 1]];
    assert [data[pe + 1]][1..] == [];
    assert FromLE([data[pe + 1]]) == data[pe + 1];
  }
}
