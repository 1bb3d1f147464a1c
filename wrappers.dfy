/** Option and Result, the two failure-carrying datatypes the model uses. */
module Wrappers {

  /** `None` stands for a missing value; for a reference field it stands for C#'s `null`. */
  datatype Option<+T> = None | Some(value: T)

  /** The outcome of an operation that may throw: its value, or the exception it throws. */
  datatype Result<+T, +E> = Success(value: T) | Failure(error: E)
}

/** The exceptions the configuration parser can raise, by .NET type. */
module Exceptions {

  datatype Exception =
    /** `new System.Exception(message)`, thrown by the parser itself */
    | SystemException(message: string)
    /** thrown by `int.Parse` for text that is not an integer */
    | FormatException
    /** thrown by `int.Parse` for an integer outside the 32-bit range */
    | OverflowException
    /** thrown by `File.ReadAllLines` for a name that is not a file */
    | FileNotFoundException(fileName: string)

  const InvalidNumberOfArguments: Exception := SystemException("Invalid number of arguments")
  const InvalidConfigFile: Exception := SystemException("Invalid config file")
}
