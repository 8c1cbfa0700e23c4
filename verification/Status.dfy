/** Operation outcomes shared by every module: the error codes of Status.h that the modelled code returns. */
module Status {

  datatype Status =
    | NoError
    | ErrorNoMemory
    | ErrorOverflow
    | ErrorInvalidArgument
    | ErrorNotSupportedProtocolVersion
    | ErrorNotSupportedInterfaceVersion
    | ErrorMismatchOfStructId
    | ErrorNoSuchHandler
    | ErrorInternal
    | ErrorNotSupportedSerializationSettingsForStruct
    | ErrorNotCompatibleCommonFlagsSettings
    | ErrorNotCompatibleDataFlagsSettings
    | ErrorMoreEntires
    | ErrorNotInited
    | ErrorNoSupportedInterfaces
    | ErrorValueOverflow
    | ErrorDataCorrupted
    | ErrorNotAvailible
    | ErrorAlreadyInited

  /** A value, or the first error met. */
  datatype Result<+T> = Ok(value: T) | Err(error: Status) {
    predicate IsFailure() {
      Err?
    }

    function PropagateFailure<U>(): Result<U>
      requires Err?
    {
      Err(error)
    }

    function Extract(): T
      requires Ok?
    {
      value
    }
  }
}
