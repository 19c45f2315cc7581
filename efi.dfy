/**
 * Firmware status codes and the Option/Result wrappers the model uses for
 * null pointers and error returns.
 */
module Efi {

  /**
   * EFI_STATUS values that the modelled code produces or passes on.
   * `Other` stands for any status produced by code outside the model (a
   * firmware service or the launched image).
   * `MemoryFault` and `Hang` are outcomes of the model only: the C code has no
   * check at that point; it reads or writes outside a buffer, or it loops
   * forever, and the model stops there and says so.
   */
  datatype Status =
    | Success
    | LoadError
    | InvalidParameter
    | Unsupported
    | OutOfResources
    | AccessDenied
    | Other(code: nat)
    | MemoryFault
    | Hang

  datatype Option<T> = None | Some(value: T)

  datatype Result<T> = Ok(value: T) | Err(status: Status)
}
