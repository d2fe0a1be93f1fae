/** The error taxonomy of src/error.rs. Variants that wrap a library error
    (reqwest, serde_json, config, io, csv) carry no payload here: the
    library's message is not part of the model. */
module Errors {
  import opened Wrappers

  datatype VmCliError =
    | HttpError
    | JsonError
    | ConfigError
    | IoError
    | CsvError
    | ApiError(message: string, status: Option<nat>)
    | TimeParseError(reason: string)
    | InvalidQuery(reason: string)
    | FileNotFound(path: string)
    | PermissionDenied
    | Timeout
    | Unknown(reason: string)

  /** The crate-wide `Result<T>` alias. */
  type CliResult<T> = Result<T, VmCliError>
}
