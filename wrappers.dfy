/** Failure-compatible result types shared by the whole model.
    Every exception the Java code can raise becomes an `Err` carrying the
    kind of exception, so that callers can tell checked from unchecked ones. */
module Wrappers {

  /** The exception kinds the modelled code raises. */
  datatype Error =
    | SyntaxError       // org.xml.sax.SAXException
    | IOError           // java.io.IOException
    | IndexOutOfBounds  // StringIndexOutOfBoundsException from charAt/substring
    | IllegalArgument   // IllegalArgumentException
    | NullPointer       // NullPointerException
    | Nontermination    // the source recurses without bound or loops forever here
  {
    /** SAXException and IOException are checked exceptions; the rest are not. */
    predicate IsChecked() {
      SyntaxError? || IOError?
    }
  }

  datatype Option<+T> = None | Some(value: T) {
    function GetOr(default: T): T {
      match this
      case Some(v) => v
      case None => default
    }
  }

  datatype Result<+T> = Ok(value: T) | Err(error: Error) {
    predicate IsFailure() {
      Err?
    }

    function PropagateFailure<U>(): Result<U>
      requires Err?
    {
      Err(error)
    }

    function Extract(): T
      requires Ok?
    {
      value
    }
  }
}
