/** The exceptions that can end one generate-validate-execute attempt. */
module Errors {

  datatype Error =
    | NotReadOnly                       // NotReadOnlyException raised by execute_sql's guard
    | ExecutionError(message: string)   // the database driver rejected or failed the statement
    | CompletionError(message: string)  // the language-model completion call raised
    | ExtractionError(message: string)  // no SQL statement could be pulled out of the reply

  /** Message carried by NotReadOnlyException. */
  const NotReadOnlyMessage := "Only read-only queries are allowed."

  /** `str(e)`: the text of an error, as it is fed back into the conversation. */
  function Text(e: Error): string
  {
    match e
    case NotReadOnly => NotReadOnlyMessage
    case ExecutionError(m) => m
    case CompletionError(m) => m
    case ExtractionError(m) => m
  }
}
