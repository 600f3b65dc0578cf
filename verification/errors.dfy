/** The application's error taxonomy (error.rs): the closed set of error codes
    the frontend understands, the `AppError` record, its convenience
    constructors, and the conversions from I/O, database and JSON errors. */
module Errors {
  import opened Base

  datatype ErrorCode =
    // General
    | Unknown | NotFound | InvalidInput | PermissionDenied
    // Claude CLI
    | ClaudeCliNotFound | ClaudeCliError | ClaudeCliTimeout | ClaudeCliAuthRequired
    // Database
    | DatabaseError | DatabaseConstraint | DatabaseNotFound
    // File system
    | FileNotFound | FileAccessDenied | FileAlreadyExists | DirectoryNotFound
    // Network
    | NetworkError | Timeout

  /** The wire name of a code (serde `SCREAMING_SNAKE_CASE`). */
  function CodeName(c: ErrorCode): string {
    match c
    case Unknown => "UNKNOWN"
    case NotFound => "NOT_FOUND"
    case InvalidInput => "INVALID_INPUT"
    case PermissionDenied => "PERMISSION_DENIED"
    case ClaudeCliNotFound => "CLAUDE_CLI_NOT_FOUND"
    case ClaudeCliError => "CLAUDE_CLI_ERROR"
    case ClaudeCliTimeout => "CLAUDE_CLI_TIMEOUT"
    case ClaudeCliAuthRequired => "CLAUDE_CLI_AUTH_REQUIRED"
    case DatabaseError => "DATABASE_ERROR"
    case DatabaseConstraint => "DATABASE_CONSTRAINT"
    case DatabaseNotFound => "DATABASE_NOT_FOUND"
    case FileNotFound => "FILE_NOT_FOUND"
    case FileAccessDenied => "FILE_ACCESS_DENIED"
    case FileAlreadyExists => "FILE_ALREADY_EXISTS"
    case DirectoryNotFound => "DIRECTORY_NOT_FOUND"
    case NetworkError => "NETWORK_ERROR"
    case Timeout => "TIMEOUT"
  }

  /** How a frontend reads a wire name back; the partner of `CodeName`. */
  function CodeFromName(name: string): Option<ErrorCode> {
    match name
    case "UNKNOWN" => Some(Unknown)
    case "NOT_FOUND" => Some(NotFound)
    case "INVALID_INPUT" => Some(InvalidInput)
    case "PERMISSION_DENIED" => Some(PermissionDenied)
    case "CLAUDE_CLI_NOT_FOUND" => Some(ClaudeCliNotFound)
    case "CLAUDE_CLI_ERROR" => Some(ClaudeCliError)
    case "CLAUDE_CLI_TIMEOUT" => Some(ClaudeCliTimeout)
    case "CLAUDE_CLI_AUTH_REQUIRED" => Some(ClaudeCliAuthRequired)
    case "DATABASE_ERROR" => Some(DatabaseError)
    case "DATABASE_CONSTRAINT" => Some(DatabaseConstraint)
    case "DATABASE_NOT_FOUND" => Some(DatabaseNotFound)
    case "FILE_NOT_FOUND" => Some(FileNotFound)
    case "FILE_ACCESS_DENIED" => Some(FileAccessDenied)
    case "FILE_ALREADY_EXISTS" => Some(FileAlreadyExists)
    case "DIRECTORY_NOT_FOUND" => Some(DirectoryNotFound)
    case "NETWORK_ERROR" => Some(NetworkError)
    case "TIMEOUT" => Some(Timeout)
    case _ => None
  }

  /** Every code survives the trip through its wire name, so no two codes share one. */
  lemma CodeNameRoundTrip(c: ErrorCode)
    ensures CodeFromName(CodeName(c)) == Some(c)
  {
  }

  lemma CodeNameInjective(c: ErrorCode, d: ErrorCode)
    ensures CodeName(c) == CodeName(d) ==> c == d
  {
    CodeNameRoundTrip(c);
    CodeNameRoundTrip(d);
  }

  /** `AppError`; its `Display` is the message alone. */
  datatype AppError = AppError(code: ErrorCode, message: string, details: Option<string>)

  /** `AppError::new`. */
  function New(code: ErrorCode, message: string): (e: AppError)
    ensures e.code == code && e.message == message && e.details.None?
  {
    AppError(code, message, None)
  }

  /** `AppError::with_details`. */
  function WithDetails(code: ErrorCode, message: string, details: string): (e: AppError)
    ensures e.code == code && e.message == message && e.details == Some(details)
  {
    AppError(code, message, Some(details))
  }

  function NotFoundError(message: string): (e: AppError)
    ensures e.code == NotFound && e.message == message && e.details.None?
  {
    New(NotFound, message)
  }

  function InvalidInputError(message: string): (e: AppError)
    ensures e.code == InvalidInput && e.message == message && e.details.None?
  {
    New(InvalidInput, message)
  }

  function DatabaseErr(message: string): (e: AppError)
    ensures e.code == DatabaseError && e.message == message && e.details.None?
  {
    New(DatabaseError, message)
  }

  /** `AppError::database_not_found`: "<entity> with id '<id>' not found". */
  function DatabaseNotFoundError(entity: string, id: string): (e: AppError)
    ensures e.code == DatabaseNotFound && e.details.None?
    ensures e.message == entity + " with id '" + id + "' not found"
  {
    New(DatabaseNotFound, entity + " with id '" + id + "' not found")
  }

  const CliNotFoundMessage := "Claude CLI is not installed or not in PATH"

  function ClaudeCliNotFoundError(): (e: AppError)
    ensures e.code == ClaudeCliNotFound && e.message == CliNotFoundMessage && e.details.None?
  {
    New(ClaudeCliNotFound, CliNotFoundMessage)
  }

  function ClaudeCliErr(message: string): (e: AppError)
    ensures e.code == ClaudeCliError && e.message == message && e.details.None?
  {
    New(ClaudeCliError, message)
  }

  /** `AppError::file_not_found`: fixed message, the path in `details`. */
  function FileNotFoundError(path: string): (e: AppError)
    ensures e.code == FileNotFound && e.message == "File not found" && e.details == Some(path)
  {
    WithDetails(FileNotFound, "File not found", path)
  }

  /** `AppError::directory_not_found`: fixed message, the path in `details`. */
  function DirectoryNotFoundError(path: string): (e: AppError)
    ensures e.code == DirectoryNotFound && e.message == "Directory not found" && e.details == Some(path)
  {
    WithDetails(DirectoryNotFound, "Directory not found", path)
  }

  /** The `std::io::ErrorKind`s the conversion distinguishes; every other kind is `OtherKind`. */
  datatype IoErrorKind = IoNotFound | IoPermissionDenied | IoAlreadyExists | OtherKind(name: string)

  /** A `std::io::Error`: its kind and its `Display` text. */
  datatype IoError = IoError(kind: IoErrorKind, text: string)

  /** `impl From<std::io::Error> for AppError`. */
  function FromIo(err: IoError): (e: AppError)
    ensures e.code == FileNotFound <==> err.kind.IoNotFound?
    ensures e.code == FileAccessDenied <==> err.kind.IoPermissionDenied?
    ensures e.code == FileAlreadyExists <==> err.kind.IoAlreadyExists?
    ensures e.code == Unknown <==> err.kind.OtherKind?
    ensures e.details.Some? <==> err.kind.OtherKind?
    ensures err.kind.OtherKind? ==> e == WithDetails(Unknown, "IO error", err.text)
  {
    match err.kind
    case IoNotFound => New(FileNotFound, "File not found")
    case IoPermissionDenied => New(FileAccessDenied, "Permission denied")
    case IoAlreadyExists => New(FileAlreadyExists, "File already exists")
    case OtherKind(_) => WithDetails(Unknown, "IO error", err.text)
  }

  /** The database-side error inside `sqlx::Error::Database`: the two
      violation tests the conversion asks, and its `Display` text. */
  datatype DbError = DbError(isUniqueViolation: bool, isForeignKeyViolation: bool, text: string)

  /** A `sqlx::Error`, reduced to the variants the conversion tells apart. */
  datatype SqlxError =
    | RowNotFound
    | Database(db: DbError)
    | OtherSqlx(text: string)

  /** `impl From<sqlx::Error> for AppError`. */
  function FromSqlx(err: SqlxError): (e: AppError)
    ensures e.code == DatabaseNotFound <==> err.RowNotFound?
    ensures e.code == DatabaseConstraint <==>
      err.Database? && (err.db.isUniqueViolation || err.db.isForeignKeyViolation)
    ensures e.code == DatabaseError <==>
      (err.OtherSqlx? || (err.Database? && !err.db.isUniqueViolation && !err.db.isForeignKeyViolation))
    ensures err.RowNotFound? ==> e.details.None?
    ensures err.Database? ==> e.details == Some(err.db.text)
    ensures err.OtherSqlx? ==> e.details == Some(err.text)
  {
    match err
    case RowNotFound => New(DatabaseNotFound, "Record not found")
    case Database(db) =>
      if db.isUniqueViolation || db.isForeignKeyViolation then
        WithDetails(DatabaseConstraint, "Database constraint violation", db.text)
      else
        WithDetails(DatabaseError, "Database error", db.text)
    case OtherSqlx(text) => WithDetails(DatabaseError, "Database error", text)
  }

  /** What an insert with a primary key already in the table fails with. */
  function UniqueViolation(column: string): (e: AppError)
    ensures e.code == DatabaseConstraint && e.details.Some?
  {
    FromSqlx(Database(DbError(true, false, "UNIQUE constraint failed: " + column)))
  }

  /** A `serde_json::Error`, known by its `Display` text. */
  datatype JsonError = JsonError(text: string)

  /** `impl From<serde_json::Error> for AppError`: always invalid input. */
  function FromJson(err: JsonError): (e: AppError)
    ensures e.code == InvalidInput && e.message == "JSON parsing error"
    ensures e.details == Some(err.text)
  {
    WithDetails(InvalidInput, "JSON parsing error", err.text)
  }

  /** The three conversions never produce each other's codes: a caller can tell
      from the code alone which kind of failure occurred. */
  lemma ConversionCodesDisjoint(io: IoError, sql: SqlxError, json: JsonError)
    ensures FromIo(io).code != FromSqlx(sql).code
    ensures FromSqlx(sql).code != FromJson(json).code
    ensures FromIo(io).code != FromJson(json).code
  {
  }
}
