/**
 * The failures of the CSV pipeline. Each `CsvException` the library throws
 * is one constructor of `Failure`; the few runtime exceptions that escape
 * the library without being wrapped into a `CsvException` are constructors
 * too, so that a caller can tell the two apart (`IsCsvException`).
 */
module CsvErrors {

  /** Outcome of an operation that either produces a value or throws. */
  datatype Result<+T, +E> = Success(value: T) | Failure(error: E)

  /** Outcome of an operation that produces nothing or throws. */
  datatype Outcome<+E> = Pass | Fail(error: E)

  /**
   * What can go wrong; `I` is the type of the column identifiers of the
   * records involved (header names or field positions).
   */
  datatype Failure<I> =
    // CsvException: the configured file does not exist
    | FileNotFound(path: string)
    // CsvException wrapping an IOException: the file could not be opened
    | ReadFailed(path: string, cause: string)
    // UncheckedIOException thrown from the line stream; never wrapped
    | UncheckedIo(cause: string)
    // CsvException: the reflective mapper was given a record without a header
    | Headless
    // IllegalStateException from Collectors.toMap: two columns normalise alike
    | DuplicateKey
    // CsvException: the target class has no no-argument constructor it can use
    | ConstructionFailed(className: string)
    // CsvException: no declared method matches the column
    | NoSetter(column: string, className: string)
    // CsvException: the matched method threw (or could not be accessed)
    | SetterFailed(className: string, methodName: string)
    // IllegalArgumentException from Method.invoke: the matched method does
    // not take exactly one String; never wrapped
    | IllegalArgument(methodName: string)
    // CsvException: a record lookup for a column it does not hold
    | ColumnNotFound(key: I)
  {
    /** True for the failures the library reports as a `CsvException`. */
    predicate IsCsvException() {
      !(UncheckedIo? || DuplicateKey? || IllegalArgument?)
    }
  }
}
