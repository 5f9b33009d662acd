/** Shared vocabulary of the converter: optional values, results with the
    error kinds the scripts raise, and calendar days. */
module Basics {

  datatype Option<+T> = None | Some(value: T)

  datatype Result<+R> = Success(value: R) | Failure(error: Error)

  /** The exceptions the scripts raise, by kind. In the source ConfigError is a
      subclass of RuntimeError; here they are told apart. */
  datatype Error =
    | ConfigError     // malformed run date, missing column or account in a history file
    | NotFound        // missing input directory, or no dated folder in it
    | RuntimeError    // unsupported API source currency, or no balances generated
    | ValueError      // text that float() rejects, or a checking row without a rate
    | EmptyDateRange  // no row survived filtering, so the rate request has no date range

  /** A calendar day, by its ordinal number: only equality and order are used. */
  type Day = int

  /** Python truthiness of an optional string: `None` and `""` are both false. */
  predicate Present(s: Option<string>) {
    s.Some? && s.value != ""
  }
}
