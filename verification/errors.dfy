/** The application's error values: `AppError` and the configuration
    errors it wraps. Messages of foreign errors (`std::io::Error`,
    `std::env::VarError`, `serde_yaml::Error`) are kept as plain text. */
module Errors {
  /** The kind carried by Rust's `ParseIntError`. */
  datatype IntErrorKind = Empty | InvalidDigit | PosOverflow

  datatype ConfigError =
    | MissingEnv(name: string)
    | InvalidInteger(name: string, kind: IntErrorKind)
    | InvalidFloat(name: string)
    | EnvError(message: string)
    | IoError(message: string)
    | ConfigFileError(message: string)
    | ConfigFileNotFound

  datatype AppError =
    | Config(cause: ConfigError)
    | Env(message: string)
    | Io(message: string)
    | Parse(message: string)
    | Generic(message: string)
}
