/** Shared result types and the error kinds a conversion can end with. */
module Common {

  datatype Option<+T> = None | Some(value: T)

  datatype Result<+T> = Ok(value: T) | Err(error: Error)

  /** The failures of the converter that the model covers (each one a Python exception raised in sqlgen.py). */
  datatype Error =
    | ColumnCountMismatch    // ValueError: the override list has the wrong length
    | MissingHeaderRow       // IndexError: `reader[0]` on a CSV file that parsed to no rows
    | UnsupportedSourceType  // ValueError: a path that does not end in ".csv"
    | InvalidSourceType      // TypeError: neither a path nor a data frame
    | ZeroRowsPerInsert      // ValueError: `range()` with a step of zero

  /** The concatenation of a sequence of sequences, in order. */
  function Flatten<T>(xss: seq<seq<T>>): seq<T> {
    if xss == [] then [] else xss[0] + Flatten(xss[1..])
  }

  lemma {:induction false} FlattenAppend<T>(xss: seq<seq<T>>, yss: seq<seq<T>>)
    ensures Flatten(xss + yss) == Flatten(xss) + Flatten(yss)
  {
    if xss != [] {
      assert (xss + yss)[1..] == xss[1..] + yss;
      FlattenAppend(xss[1..], yss);
    } else {
      assert xss + yss == yss;
    }
  }
}
