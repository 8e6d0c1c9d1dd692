/** The error-or-value and nullable shapes of the stream processor.
    `Result` stands for `ErrorOr<T>` (a value, or an error whose content is a
    message); `Option` stands for a nullable `String?` or `Error?`. */
module Wrappers {

  datatype Option<+T> = None | Some(value: T)

  datatype Result<+T> = Ok(value: T) | Err(error: string)
}
