/** Failure-compatible wrappers: an exception raised by the driver becomes an `Err`. */
module Wrappers {

  datatype Option<+T> = None | Some(value: T) {
    predicate IsFailure() { None? }

    function PropagateFailure<U>(): Option<U>
      requires None?
    {
      None
    }

    function Extract(): T
      requires Some?
    {
      value
    }

    function OrError<E>(e: E): Result<T, E> {
      if Some? then Ok(value) else Err(e)
    }
  }

  datatype Result<+T, +E> = Ok(value: T) | Err(error: E) {
    predicate IsFailure() { Err? }

    function PropagateFailure<U>(): Result<U, E>
      requires Err?
    {
      Err(error)
    }

    function Extract(): T
      requires Ok?
    {
      value
    }
  }

  datatype Outcome<+E> = Pass | Fail(error: E) {
    predicate IsFailure() { Fail? }

    function PropagateFailure(): Outcome<E>
      requires Fail?
    {
      this
    }
  }
}

/**
 * The exceptions the driver can raise, one constructor per distinct cause.
 * USBtinException is raised for the driver's own checks; the other causes are
 * Python built-in exceptions the code lets escape.
 */
module Exceptions {
  datatype Error =
      // CANMessage construction and access
    | DlcMismatch          // IndexError from the message's format call: length differs from the signal table
    | DlcUnavailable       // USBtinException: neither data, dlc nor table entry
    | ByteRange            // ValueError from bytes(): an element outside 0..255
    | PayloadTooLong       // struct.error from unpack('<Q'): more than eight bytes
    | IndexRange           // USBtinException: byte index outside 0..7
    | NotASignal           // AttributeError: no such signal for this id
    | SignBitUndefined     // TypeError: signed signal of size 0 (2**-1 is a float)
      // line format
    | NoDlc                // TypeError: '{:01x}'.format(None)
    | PayloadOverflow      // struct.error from pack('<Q'): payload wider than 64 bits
    | MalformedHex         // ValueError from int(..., 16)
    | MalformedDlc         // ValueError from int(c)
    | LineTooShort         // IndexError reading the dlc character
    | UnknownType          // UnboundLocalError: first character not t, T, r or R
      // USBtin driver
    | ListenerMissing      // USBtinException: removing an unregistered listener
    | EmptyFifo            // IndexError from tx_fifo.pop(0)
    | RxThreadActive       // USBtinException: read_response while the rx thread runs
    | BellSignal           // USBtinException: the adapter answered with BEL
    | NoTerminator         // the input ended before CR or BEL
    | TooManyChains        // USBtinException: more than two filter chains
    | ChainTooLong         // USBtinException: filter chain longer than the hardware allows
    | ZeroBaudrate         // ZeroDivisionError: fosc / 0
    | CommandFormat        // AttributeError: str has no attribute 'foramt'
}
