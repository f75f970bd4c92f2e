/** The exceptions the adapters let escape, one constructor per exception type. */
module Errors {

  datatype Error =
    | ArgumentException         // "Value of type ... is not supported."
    | ArgumentNullException     // a null value or default, or a null string handed to a parser
    | FormatException           // a string the invariant-culture parser does not accept
    | OverflowException         // a number outside the range of the requested type
    | InvalidCastException      // an unboxing cast to a type other than the stored one
    | ClassCastException        // a typed SharedPreferences getter on an entry of another type
    | ArgumentOutOfRangeException // a tick count outside the range of DateTime
    | NullPointerException      // a Java call made on a missing application context
    | NativeStoreFailure        // the platform store rejected the call
}
