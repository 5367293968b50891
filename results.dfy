/** Failure values shared by the configuration layer of a power diagram.

    Each constructor of `Error` stands for one exception the Python code
    raises; the comment names the exception and where it comes from. */
module Results {

  datatype Error =
    | NoDimension            // RuntimeError: no way to guess ndim
    | NegativeDimension      // ValueError: identity matrix of negative size
    | OffsetTooShort         // IndexError: an offset vector has fewer than ndim entries
    | RaggedRows             // ValueError: a list of rows that is not a 2-D array
    | AmbiguousTruthValue    // ValueError: `array == None` used as a condition
    | LengthMismatch         // AssertionError: two shapes that must agree do not
    | NotSquare              // AssertionError: a matrix that is not square
    | WrongSize              // AssertionError: a matrix whose size is not ndim + 1
    | MalformedTuple         // AssertionError: a tuple whose length is not 2
    | TupleTooShort          // IndexError: a tuple with fewer than two items
    | NotIterable            // TypeError: None where a list is iterated
    | InvalidTransformation  // ValueError: an array that is neither 1-D nor 2-D
    | SingularMatrix         // LinAlgError: the inverse does not exist
    | MissingPositions       // AttributeError: positions are None where they are read
    | NoCompiledModule       // no compiled variant for a (dtype, ndim) pair
    | BoundaryRowTooShort    // IndexError: a boundary row without an entry at index ndim

  datatype Option<+T> = None | Some(value: T)

  datatype Result<+T> = Ok(value: T) | Err(error: Error)
}
