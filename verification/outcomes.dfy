/**
 * Option and Result values shared by every model in this project, and the
 * errors the modelled services raise. Python's `None`, falsy strings and
 * raised exceptions are all expressed through these datatypes.
 */
module Outcomes {

  datatype Option<+T> = None | Some(value: T) {
    /** The Python idiom `x or default` / `d.get(k, default)` for an absent value. */
    function GetOr(default: T): T {
      match this
      case Some(v) => v
      case None => default
    }
  }

  /**
   * The exceptions raised by the modelled code. The comment on each
   * constructor names the Python exception class it stands for.
   */
  datatype Error =
    | InvalidFetchType(fetchType: string)          // ValueError: unknown fetch_type
    | NotAnInteger(text: string)                   // ValueError: int() of a non-numeral
    | IndexOutOfRange                              // IndexError: a list or record index past its end
    | MissingKey(key: string)                      // KeyError: descriptor without "query"
    | NotIterable                                  // TypeError: `*None` as call arguments
    | MissingUrl                                   // ValueError: no connection URL
    | ConnectFailed(reason: string)                // ConnectionError: the driver could not connect
    | Database(message: string)                    // any driver/database error, re-raised unchanged
    | NoConnection                                 // AttributeError: `None.transaction()`
    | ActiveTicketExists(number: string, category: string) // ValueError
    | NoActiveTicket(number: string)               // ValueError
    | DuplicateTicketNumber(number: string)        // ValueError (from UniqueViolationError)
    | NothingToUpdate                              // ValueError: no updatable field supplied
    | TicketNotFoundOrInactive(number: string)     // ValueError

  /** The Python exception class that carries `e`. */
  function ExceptionClass(e: Error): string {
    match e
    case IndexOutOfRange => "IndexError"
    case MissingKey(_) => "KeyError"
    case NotIterable => "TypeError"
    case ConnectFailed(_) => "ConnectionError"
    case Database(_) => "PostgresError"
    case NoConnection => "AttributeError"
    case _ => "ValueError"
  }

  datatype Result<+T> = Ok(value: T) | Err(error: Error)

  /** Python truthiness of an optional string: present and non-empty. */
  predicate Truthy(s: Option<string>) {
    s.Some? && s.value != ""
  }

  /** `x if x else current` (and `if x: SET column = x`): a missing or empty value keeps the current one. */
  function Merge(supplied: Option<string>, current: string): (r: string)
    ensures Truthy(supplied) ==> r == supplied.value
    ensures !Truthy(supplied) ==> r == current
  {
    if Truthy(supplied) then supplied.value else current
  }
}
