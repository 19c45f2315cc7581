# rEFInd: the shim/MOK image loader, the menu scroll state and the BBS helpers, in Dafny

This project models three pieces of the rEFInd boot manager and proves
properties of them.

- **The Secure Boot chain loader** (`refind/mok.c`):
  - `read_header` checks the DOS and PE32+ headers of an image held in
    memory.
  - `ShimValidate` asks the shim's `shim_verify` callback whether the image
    is trusted.
  - `handle_image` copies the headers and sections into a fresh buffer,
    applies the base relocations (`relocate_coff`), sets the `entry_point`
    global and rewrites the firmware's loaded-image record.
  - `start_image` backs that record up, runs the child image and restores
    the record.
  - `secure_mode` decides whether Secure Boot is on and the platform is in
    user mode.
- **The menu scroll state machine** (`refind/menu.c`):
  - `InitScroll`, `IdentifyRows`, `UpdateScroll` and `AdjustScrollState`
    update a `SCROLL_STATE` record.
  - `FindMenuShortcutEntry` picks the entry a typed shortcut selects.
- **The legacy-BIOS helpers** (`EfiLib/BdsHelper.c`):
  - `UpdateBbsTable` gives every device of one type boot priority 0.
  - `ArrayContains` is a linear membership search.

## Files

| file | module | contents |
|---|---|---|
| `bytes.dfy` | `Bytes` | Fixed-width integers. C's unsigned-to-signed casts (`Int32`, `Int64`). The little-endian field codec and its round trips. `Splice` (a store, `CopyMem` or `ZeroMem` on a byte sequence) and `Store`, the same on an array. |
| `efi.dfy` | `Efi` | `Status`, `Option`, `Result`. |
| `pe_image.dfy` | `PeImage` | Header layout constants, the image context, `ImageAddress`, `read_header`. |
| `relocation.dfy` | `Relocation` | `relocate_coff`. It has a specification on byte sequences (`RelocateImage`, `WalkBlocks`, `WalkEntries`) and a method that patches an array in place and is proved equal to it. |
| `mok_loader.dfy` | `MokLoader` | `secure_mode`, `ShimValidate`, the section loop, `handle_image` and `start_image`, plus the classes below. |
| `menu_scroll.dfy` | `MenuScroll` | The `SCROLL_STATE` record as a class. Each method is proved equal to a function on the record's value (`Initialized`, `Identified`, `Moved`, `Adjusted`, `Updated`). |
| `menu_shortcut.dfy` | `MenuShortcut` | `FindMenuShortcutEntry` on a nullable character array that it may change in place. |
| `bds_helper.dfy` | `BdsHelper` | `UpdateBbsTable` on an array of BBS entries, and `ArrayContains`. |

The classes in `mok_loader.dfy` are:

- `LoadedImage`: the firmware's `EFI_LOADED_IMAGE` instance, updated in place.
- `Loader`: holds the static `entry_point` as the field `entryPoint`.

### How the model treats the C code

- **Unchecked memory accesses.** The C code does not bounds-check several
  of its accesses:
  - reading the section table;
  - copying raw section data (a zero-length copy touches nothing) and
    zero-filling the rest of a section;
  - reading a relocation block header or entry;
  - patching a fixup target up to 7 bytes past the image end (the offset
    check accepts `address == size`).

  The model computes what such an access would touch. When that lies outside
  the buffer, it returns the model-only status `MemoryFault`.
- **Zero `SizeOfBlock`.** A relocation block with `SizeOfBlock == 0` makes
  `relocate_coff` loop forever. The model returns the model-only status
  `Hang` instead.
- **What follows a model-only status.** After `MemoryFault` or `Hang`,
  nothing the C code would do next is modelled. The image buffer's fate is
  `Stuck`. `start_image` neither restores the loaded-image record, runs the
  child nor frees the file data. The record was not yet rewritten at that
  point.
- **C integer conversions** are written out:
  - `ImageEnd` is computed from `int size`.
  - A section size of 2^31 or more becomes negative in an `int`, then a huge
    unsigned length.
  - `VirtualAddress + size - 1` wraps in 32 bits.
  - `start_image` passes its `UINTN datasize` to a 32-bit parameter.
  - `LoadOptionsSize` is computed in 32 bits.
  - In `InitScroll`, `UINTN` values are stored in `INTN` fields, and
    `VisibleSpace` is compared with `MaxVisible` as unsigned values.
- **Known quirks of the source** are modelled as written and stated as
  lemmas:
  - The signature check reads only the 16-bit TE `Signature` field, so
    only "PE" is compared (`PeImage.SignatureIgnoresTrailingBytes`).
  - `ImageAddress` accepts `address == size`.
  - The relocation directory and `ImageBase` are read from and written to
    the source buffer.
  - The image buffer is leaked when the section loop fails
    (`MokLoader.LoadAllocatedBufferFate`).
  - The loaded-image record is rewritten before the entry point is checked.
  - A negative screen capacity is replaced by `VisibleSpace`
    (`MenuScroll.NegativeCapacityTakesVisibleSpace`).
- **Firmware services and foreign code are parameters:**
  - `GetVariable` results are `VarRead` values.
  - The shim-lock protocol lookup and the verdict of its `shim_verify`
    callback are a `ShimLookup`.
  - `AllocatePool` is an `Allocation`: failure, or an address and arbitrary
    initial contents.
  - The `HandleProtocol` status is a parameter.
  - The child image's run is a `ChildRun`: its status and the record it
    leaves behind.
  - The legacy-BIOS protocol lookup and `GetBbsInfo`'s outputs are
    parameters.
  - `StriSubCmp` is a function parameter.

## Model

| member | source | states |
|---|---|---|
| Bytes.FromLEToLE | refind/mok.c:213-243 | Reading back a stored little-endian field gives the stored value modulo 2^(8n), which is how every fixup store truncates. |
| Bytes.ToLEFromLE | refind/mok.c:213-243 | Encoding a field's decoded value at its own width gives back the same bytes. |
| Bytes.ReadSplicedField | refind/mok.c:213-243 | After a field is stored into a buffer, reading the field returns the stored value modulo the field width. |
| Bytes.SpliceContents | refind/mok.c:383-407 | A store, `CopyMem` or `ZeroMem` of bytes at an offset leaves exactly those bytes there and every other byte unchanged. |
| Bytes.Store | refind/mok.c:383-407 | The in-place array store leaves the array equal to the splice of its old contents. |
| PeImage.ImageAddress | refind/mok.c:145-151 | Null exactly when the address exceeds the size, so an address equal to the size is accepted; otherwise the offset is the address. |
| PeImage.ReadHeader | refind/mok.c:266-326 | On success the header union and the relocation and security directory entries lie within `datasize`, and `SizeOfHeaders <= SizeOfImage`. Every failure is `EFI_UNSUPPORTED` or `EFI_INVALID_PARAMETER`. |
| PeImage.ReadHeaderDescribes | refind/mok.c:272-324 | A context that `read_header` returns passed every check: the size, signature, characteristics, magic, image size and security directory. Every context field is tied to the header: the PE offset, `ImageBase`, `SizeOfImage`, `SizeOfHeaders`, `AddressOfEntryPoint`, `NumberOfSections`, `NumberOfRvaAndSizes`, the first section header behind the optional header, and the two directory entries. |
| PeImage.ReadHeaderRejects | refind/mok.c:272-298 | Each of the first five checks fails with `EFI_UNSUPPORTED` once the checks before it have passed: short buffer, header beyond `datasize`, wrong signature, relocations stripped, not PE32+. |
| PeImage.ReadHeaderInvalidParameter | refind/mok.c:311-324 | `EFI_INVALID_PARAMETER` occurs exactly when all earlier checks pass and the security directory address is at least `datasize`. The bound check on the directory entry itself can never fail. |
| PeImage.SignatureIgnoresTrailingBytes | refind/mok.c:285-288 | Any header starting with "PE" passes the signature check, whatever its next two bytes are. |
| Relocation.Adjustment | refind/mok.c:190 | The 64-bit wrapped adjustment carries the preferred base to the load address: `(ImageAddress + Adjust) mod 2^64 == data`. |
| Relocation.WalkEntries | refind/mok.c:207-256 | One block's entries patch the buffer, which keeps its length. The walk ends with success, `EFI_UNSUPPORTED` for an unknown type, or a modelled memory fault. |
| Relocation.BlockHeader | refind/mok.c:193-205 | An accepted block ends after its header start and within `(int)ImageSize`, and its fixup base lies within the image. A rejected block gives `EFI_UNSUPPORTED`; a zero `SizeOfBlock` gives the modelled hang. |
| Relocation.WalkBlocks | refind/mok.c:192-258 | The block walk keeps the buffer length. It ends with success, `EFI_UNSUPPORTED`, a memory fault or the hang. |
| Relocation.WithImageBase | refind/mok.c:168 | The load address is stored into the `ImageBase` field of the source header, and the header stays in bounds. |
| Relocation.ApplyEntries | refind/mok.c:207-256 | The in-place entry loop leaves the buffer and status that `WalkEntries` specifies. |
| Relocation.ApplyBlocks | refind/mok.c:192-258 | The in-place block loop leaves the buffer and status that `WalkBlocks` specifies. |
| Relocation.RelocateCoff | refind/mok.c:156-261 | `relocate_coff` writes `ImageBase` into the source header. It leaves the loaded buffer and status that `RelocateImage` specifies, reading the directory from the updated header. |
| Relocation.ApplyRelocations | refind/mok.c:172-260 | After the `ImageBase` store: the early exits and then the block walk, equal to `RelocateImage`. |
| Relocation.PatchedField | refind/mok.c:213-243 | HIGH adds the upper 16 bits of the low 32 bits of `Adjust` to a 16-bit field. LOW adds the low 16 bits. HIGHLOW adds the low 32 bits to a 32-bit field. DIR64 adds `Adjust` to a 64-bit field. Each wraps at the field width. |
| Relocation.PatchedFrame | refind/mok.c:213-243 | A fixup changes no byte outside its own field. |
| Relocation.Dir64Rebases | refind/mok.c:241-243 | A DIR64 field holding the preferred-base address of an image byte holds that byte's address at the load address after the fixup. |
| Relocation.HighLowRebases | refind/mok.c:231-233 | The same for the low 32 bits with a HIGHLOW fixup. |
| Relocation.PatchedZero | refind/mok.c:213-243 | A fixup with zero adjustment stores back the value it read. |
| Relocation.WalkEntriesZero | refind/mok.c:207-256 | With zero adjustment, a block's entries leave the buffer unchanged. |
| Relocation.WalkBlocksZero | refind/mok.c:192-258 | With zero adjustment, the whole block walk leaves the buffer unchanged. |
| Relocation.RelocateAtPreferredBase | refind/mok.c:156-261 | An image loaded at its preferred base is left exactly as copied, whatever its relocation table holds and whatever the status. |
| Relocation.WalkEntriesStaysOnPage | refind/mok.c:201-208 | A block's 12-bit offsets confine its fixups to the 4 KiB page at `FixupBase`, plus up to 7 bytes past it. No other byte changes. |
| MokLoader.SecureMode | refind/mok.c:109-131 | Secure mode is on exactly when `SecureBoot` was read successfully as 1 and `SetupMode` was not read successfully as 1. |
| MokLoader.SecureModeFailsOpenOnSetupMode | refind/mok.c:117-130 | An unreadable `SecureBoot` means not secure. With `SecureBoot` read as 1, an unreadable `SetupMode` counts as user mode. |
| MokLoader.ShimValidate | refind/mok.c:331-345 | The image is trusted exactly when the protocol is located with a non-null interface and `shim_verify` returns success. |
| MokLoader.CopySize | refind/mok.c:390-393 | The copy length is the smaller of `VirtualSize` and `SizeOfRawData`. |
| MokLoader.LoadSection | refind/mok.c:390-407 | One section keeps the buffer length. It ends with success, `EFI_UNSUPPORTED` for a rejected range, or a modelled fault: an unreadable `PointerToRawData` of a section with raw data, or a nonempty copy or a zero-fill outside the buffers. |
| MokLoader.LoadSectionCopies | refind/mok.c:403-404 | A section that loads lies within the buffer from `VirtualAddress` for `CopySize` bytes, and a nonempty copy holds exactly the first `CopySize` bytes of its raw data there. Nothing is copied when `SizeOfRawData` is zero. |
| MokLoader.LoadSectionZeroFill | refind/mok.c:406-407 | A section that loads is zero from the end of the copied bytes up to `VirtualSize`, and no byte outside `[VirtualAddress, VirtualAddress + VirtualSize)` changes. |
| MokLoader.PointerReadOnlyForRawData | refind/mok.c:390-404 | When a section's `PointerToRawData` lies beyond the file, a rejected range still gives `EFI_UNSUPPORTED` with the buffer untouched. The section faults exactly when its range passes and it has raw data or its zero-fill leaves the buffer. |
| MokLoader.SectionTableCutAfterSizeOfRawData | refind/mok.c:388-404 | A file ending right after the `SizeOfRawData` field of its only section header loads, is rejected, or faults exactly as that section alone decides. |
| MokLoader.EmptyCopyTouchesNothing | refind/mok.c:403-407 | With `CopySize` zero, `PointerToRawData` may point anywhere: the section faults only if its zero-fill leaves the buffer, and with `VirtualSize` zero it loads and changes nothing. |
| MokLoader.LoadSectionRejectsRange | refind/mok.c:395-401 | A section whose start, or whose last byte computed with 32-bit wrap-around, lies beyond the image fails with `EFI_UNSUPPORTED`, and the buffer is untouched. |
| MokLoader.LoadSections | refind/mok.c:388-410 | The section loop, in table order, stops at the first failing section; the buffer keeps its length. A fault from reading the table needs the first three fields to lie beyond the file; `PointerToRawData` is read only by a section with raw data whose range passed. |
| MokLoader.LoadImageContents | refind/mok.c:383-410 | The headers copy followed by the section loop keeps the buffer length. Its statuses are those of the loop, or a memory fault when `SizeOfHeaders` exceeds the file. |
| MokLoader.LoadOptionsSize | refind/mok.c:430 | For option strings shorter than 2^31 - 1 characters, the record's `LoadOptionsSize` is the option length plus the NUL, in bytes. |
| MokLoader.Stage | refind/mok.c:383-421 | The headers, sections and relocation into a fresh buffer keep its length. A failed stage reports `EFI_UNSUPPORTED`, a memory fault or the hang. |
| MokLoader.LoadAllocated | refind/mok.c:383-441 | After allocation the buffer is always used: freed, leaked, kept, or stuck after a modelled fault or hang, which leaves the record unwritten. The status is success, `EFI_UNSUPPORTED`, a fault or the hang. |
| MokLoader.HandleValidHeaderGates | refind/mok.c:372-381 | After the header is read: `EFI_ACCESS_DENIED` exactly when the shim refuses, and `EFI_OUT_OF_RESOURCES` exactly when it accepts and the allocation fails. These two are exactly the cases with no buffer, and the source and the record are then untouched. |
| MokLoader.AccessDeniedExactlyWhenUntrusted | refind/mok.c:363-374 | `handle_image` returns `EFI_ACCESS_DENIED` exactly when the header is valid and the shim refuses; nothing is then allocated, changed or written. |
| MokLoader.OutOfResourcesExactlyWhenAllocationFails | refind/mok.c:363-381 | `EFI_OUT_OF_RESOURCES` occurs exactly when the header is valid, the shim accepts and `AllocatePool` fails. |
| MokLoader.LoadAllocatedSuccess | refind/mok.c:415-441 | A successful load relocated the image and keeps the buffer. It wrote an entry point within the image, and the source holds the new `ImageBase`. |
| MokLoader.HandleImageSuccess | refind/mok.c:350-442 | A successful `handle_image` had a valid header, the shim's approval and a buffer. The buffer is kept, the entry point lies within the image, and the source holds the new `ImageBase`. |
| MokLoader.LoadAllocatedBufferFate | refind/mok.c:398-441 | The buffer is leaked exactly when the section loop fails with `EFI_UNSUPPORTED`, and then nothing is written. An invalid entry point frees it after the record was rewritten. It is kept exactly on success. |
| MokLoader.LoadedImage.Assign | refind/mok.c:481-504 | Copying a whole record into the loaded-image instance makes its fields equal to the record. |
| MokLoader.Loader.CopySection | refind/mok.c:390-409 | The in-place section copy leaves the buffer and status that `LoadSection` specifies. |
| MokLoader.Loader.CopySections | refind/mok.c:388-410 | The in-place section loop, reading each header field where the C code does, leaves the buffer and status that `LoadSections` specifies. |
| MokLoader.Loader.PrepareImage | refind/mok.c:383-421 | Headers, sections and relocation in place give the status and buffer of `Stage`. The source header is unchanged if the sections fail and carries the new `ImageBase` otherwise. |
| MokLoader.Loader.LoadIntoBuffer | refind/mok.c:383-441 | After allocation, the status, source, buffer, `entry_point` and record are those `LoadAllocated` specifies. On success `entry_point` is set. |
| MokLoader.Loader.HandleImage | refind/mok.c:350-442 | `handle_image` gives the status, source, buffer, `entry_point` and record of `HandleImageSpec`. A buffer exists exactly when one was allocated, and its contents are the loaded image. |
| MokLoader.Loader.HandleValidImage | refind/mok.c:372-441 | The part of `handle_image` after `read_header` gives the outcome of `HandleValidHeader`. |
| MokLoader.Loader.RunImage | refind/mok.c:484-503 | After the record is backed up: the status, source and buffer fate are those of `handle_image`. The child runs exactly on success and its status is returned. The record ends as it began, restored on every path that returns and never rewritten on one that does not. |
| MokLoader.Loader.StartImage | refind/mok.c:454-514 | NULL data gives `EFI_LOAD_ERROR`, and a failed protocol lookup passes its status on; neither allocates. Otherwise the buffer's fate is the one `handle_image` gives it: kept, freed, leaked, never allocated, or stuck after a modelled fault or hang. The record ends as it began. The file data is freed exactly when `handle_image` returns. The child runs exactly when `handle_image` succeeds, and then its status is returned. The buffer is kept, never freed after the child returns. |
| MenuScroll.CDiv | refind/menu.c:212-231 | The quotient lies between 0 and the dividend; `CDivNonnegative` and `CDivNegative` pin it down as C's truncating division. |
| MenuScroll.CDivNegative | refind/menu.c:212-231 | For a negative dividend the quotient rounds toward zero: `q * b - b < a <= q * b`, not the floored quotient. |
| MenuScroll.CDivNonnegative | refind/menu.c:212-231 | For a nonnegative dividend, the truncated quotient is the floor quotient. |
| MenuScroll.InitialMaxVisibleLowers | refind/menu.c:163-168 | With a nonnegative capacity, `MaxVisible` is lowered to `VisibleSpace` exactly when `0 < VisibleSpace < capacity`; otherwise it stays the capacity. It never exceeds the capacity. |
| MenuScroll.NegativeCapacityTakesVisibleSpace | refind/menu.c:163-168 | A console under four lines, or a screen narrower than one tile plus its spacing (152 pixels), gives a negative capacity. The unsigned comparison then replaces it with any nonzero `VisibleSpace`. |
| MenuScroll.LastRow0 | refind/menu.c:340-345 | The row-0 mark after n entries is below n, or 0 when n is 0. |
| MenuScroll.LastRow0IsLast | refind/menu.c:340-345 | `FinalRow0` is the last index below `MaxIndex` in row 0, and 0 when there is none. |
| MenuScroll.FirstRow1 | refind/menu.c:340-347 | The row-1 mark is either its initial value or an index already scanned. |
| MenuScroll.FirstRow1IsFirst | refind/menu.c:340-347 | `InitialRow1` is the first index below `MaxIndex` in row 1, and `MaxIndex` when there is none. |
| MenuScroll.SetupGivesTextWindow | refind/menu.c:337-351 | A nonempty text menu set up by `InitScroll` and `IdentifyRows`, with room for at least one line, satisfies the window invariant. |
| MenuScroll.UpdateRecordsPrevious | refind/menu.c:191-291 | `UpdateScroll` always stores the old selection in `PreviousSelection` and ends with `LastVisible = FirstVisible + MaxVisible - 1`. It changes neither `MaxIndex`, `MaxVisible`, the mode nor the row marks. |
| MenuScroll.LineMovesByOne | refind/menu.c:196-239 | LINE_LEFT, LINE_RIGHT and text-mode LINE_UP and LINE_DOWN move the selection one step, clamped to `[0, MaxIndex]`. |
| MenuScroll.PageMovesClamp | refind/menu.c:242-272 | PAGE_UP never yields a negative selection; PAGE_DOWN never one above `MaxIndex`. |
| MenuScroll.FirstAndLast | refind/menu.c:253-279 | SCROLL_FIRST selects 0 and SCROLL_LAST selects `MaxIndex`. `PaintAll` is raised when the selection moves, and in icon mode only then. |
| MenuScroll.PaintSelectionOnlyOnMove | refind/menu.c:288-289 | `PaintSelection` is newly set exactly when no full repaint is due and the selection changed. |
| MenuScroll.MovedOnlySelects | refind/menu.c:195-283 | The movement switch changes only the selection, plus `PaintAll` for SCROLL_FIRST and SCROLL_LAST. |
| MenuScroll.AdjustedOnlyScrolls | refind/menu.c:176-189 | `AdjustScrollState` changes only the window bounds and `PaintAll`. |
| MenuScroll.TextMoveInRange | refind/menu.c:195-283 | In text mode, under the window invariant, every movement keeps the selection in `[0, MaxIndex]`. |
| MenuScroll.AdjustedHoldsSelection | refind/menu.c:176-189 | With `MaxVisible >= 1` and a window starting at or after 0, `AdjustScrollState` brings the selection into `[FirstVisible, FirstVisible + MaxVisible - 1]`. |
| MenuScroll.UpdatePreservesTextWindow | refind/menu.c:176-291 | In text mode every movement keeps `0 <= FirstVisible <= CurrentSelection <= LastVisible`, together with the rest of the window invariant. |
| MenuScroll.ScaledBelow | refind/menu.c:212-231 | The proportional jump `a * b / c` lies in `[0, a]` when `0 <= b <= c`. |
| MenuScroll.IconLineUpLandsInWindow | refind/menu.c:208-218 | In icon mode, LINE_UP from row 1 lands inside the visible part of row 0. |
| MenuScroll.IconLineDownLandsInRow1 | refind/menu.c:225-235 | In icon mode, LINE_DOWN from the visible part of row 0 lands in row 1. |
| MenuScroll.ScrollState.InitScroll | refind/menu.c:157-172 | `InitScroll` in place. The selections and `FirstVisible` become 0, `MaxIndex = (INTN)ItemCount - 1`, `MaxVisible` is the capacity possibly lowered to `VisibleSpace`, `PaintAll` is set, `PaintSelection` is cleared and `LastVisible = MaxVisible - 1`. |
| MenuScroll.ScrollState.AdjustScrollState | refind/menu.c:176-189 | The in-place window slide equals `Adjusted`. |
| MenuScroll.ScrollState.Move | refind/menu.c:195-283 | The in-place movement switch equals `Moved`. |
| MenuScroll.ScrollState.UpdateScroll | refind/menu.c:191-291 | The in-place update equals `Updated`, whose properties are the lemmas above. |
| MenuScroll.ScrollState.IdentifyRows | refind/menu.c:337-351 | The loop sets `FinalRow0` to `LastRow0` and `InitialRow1` to `FirstRow1` over the first `MaxIndex` entries. In icon mode it caps `MaxVisible` at `FinalRow0 + 1`. |
| MenuShortcut.StrLen | refind/menu.c:315-326 | The length is the index of the first NUL. |
| MenuShortcut.UpperAscii | refind/menu.c:316-317 | A lowercase ASCII letter becomes its uppercase letter; every other character is unchanged. |
| MenuShortcut.FindMenuShortcutEntry | refind/menu.c:308-332 | NULL or empty gives -1. A one-character shortcut is upper-cased in place and matched by digit or letter. A longer one is matched by `StriSubCmp` on titles. The result is the first matching index, or -1 when nothing matches. |
| BdsHelper.UpdatedTableEffect | EfiLib/BdsHelper.c:53-62 | Among the first `BbsCount` entries, every entry of the requested nonzero type gets `BootPriority` 0. Every other entry is unchanged, and no field but `BootPriority` changes. |
| BdsHelper.UpdatedTableIdempotent | EfiLib/BdsHelper.c:53-62 | Updating twice with the same type leaves the table as updating once. |
| BdsHelper.UpdateTypeZeroChangesNothing | EfiLib/BdsHelper.c:55-57 | Slots with `DeviceType` 0 are skipped, so asking for type 0 changes nothing. |
| BdsHelper.UpdateBbsTable | EfiLib/BdsHelper.c:28-85 | Without the legacy-BIOS protocol the table is unchanged. Otherwise the in-place loop leaves the table `UpdatedTable` specifies. |
| BdsHelper.ArrayContains | EfiLib/BdsHelper.c:88-98 | The result is TRUE exactly when one of the first `ArrLen` elements equals `Target`, and FALSE when `ArrLen` is 0. |

## Left out

- `get_variable` (refind/mok.c:93-104) is a firmware call. `secure_mode` takes its two results as `VarRead` parameters.
- `ShimValidate`: the protocol lookup and `shim_verify` are firmware and shim code. The model takes their outcome as a `ShimLookup`. It does not check that the callback is given the same `data` and `datasize`.
- `AllocatePool`, `FreePool`, `HandleProtocol` and the call through `entry_point` are firmware or foreign code. They become parameters: allocation success with arbitrary contents, the protocol status, and the child's returned status and record. Frees are reported as flags or `BufferUse` values, not as a heap.
- The `FixupData` branches of `relocate_coff` (refind/mok.c:216-248) are left out. `FixupData` is always NULL, so they never run.
- `PathName` in `start_image` is always NULL, so its free never happens; it is left out.
- `start_image`'s IA32 build, where everything but `return EFI_ACCESS_DENIED` is compiled out, is not modelled.
- `Print` diagnostics are not modelled.
- MemoryFault and Hang are added outcomes. The C code reads or writes out of bounds, or loops forever. The model records the outcome and models nothing the C code would do afterwards: memory beyond the buffers, a crash and a hung machine are not modelled.
- Addresses are offsets into the image buffer or the source. The pointer arithmetic that compares `RelocEnd` with `data` is modelled on offsets, so `RelocEnd < data` cannot arise.
- MokLoader.Loader.StartImage: `li` changes while the child runs are modelled only as the record it leaves. Anything else the child does is not modelled.
- MenuScroll: `SCROLL_STATE` fields are unbounded integers. INTN overflow (an `ItemCount` of 2^63 or more, or 64-bit wrap in the proportional jump) is not modelled. Unsigned-to-signed casts are modelled.
- MenuScroll.ScrollState.IdentifyRows requires `0 <= MaxIndex <= |rows|`. The C loop counter is unsigned, so an empty menu (`MaxIndex == -1`) would run it far past the entry array.
- `RunGenericMenu`, which sets the default selection and calls `UpdateScroll(SCROLL_NONE)`, is not modelled. Neither are the menu drawing and input code (`TextMenuStyle`, `GraphicsMenuStyle`, `MainMenuStyle`, the `Paint*`/`Draw*` functions, `InitSelection`, `AverageBrightness`, `ComputeSubScreenWindowSize`, `RunMainMenu`, `EditOptions`), which are user-interface I/O.
- `StriSubCmp` is a function parameter of `FindMenuShortcutEntry`; its case-insensitive comparison is not part of this model.
- `BdsLibDoLegacyBoot` and `GetBbsInfo` are thin wrappers over the legacy-BIOS protocol. `UpdateBbsTable` takes the lookup result, `BbsCount` and the table as parameters. `GetBbsInfo`'s own status is ignored by the source and so by the model. The model assumes `BbsCount` does not exceed the table the firmware returned.
- BdsHelper.BbsEntry keeps only some `BBS_TABLE` fields. The segment/offset pairs and reserved words are left out; they are never written.
- libeg/screen.c (framebuffer and console I/O) and filesystems/test/catfile.c (a command-line test tool) are not part of this model.
