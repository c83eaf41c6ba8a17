/** The exceptions the I/O helpers raise, as values. */
module Errors {
  import opened Formats

  datatype Error =
    /** FileNotFoundError: the path is not an existing regular file. */
    | FileNotFound(path: string)
    /** ValueError: unsupported config file format, naming the suffix. */
    | UnsupportedFormat(suffix: string, path: string)
    /** Whatever the decoder raised, re-raised after logging. */
    | DecodeFailed(path: string, format: Format, reason: string)
    /** TypeError: the TOML text parser was handed bytes. */
    | TomlGivenBytes(path: string)
    /** ValueError: a stripped path argument outside [1, MAX_PATH_LENGTH]. */
    | ArgumentLengthOutOfRange(argument: string, length: nat)
    /** ValueError: `chunk_size` below 10. */
    | ChunkSizeInvalid(chunkSize: int)
    /** ValueError from `WarnEnum(...)`: not one of the four mode names. */
    | UnknownWarnMode(normalised: string)

  datatype Result<+T> = Ok(value: T) | Err(error: Error)
}
