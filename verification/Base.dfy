/** Vocabulary shared by every module: results, bytes and 64-bit digests. */
module Base {

  datatype Option<+T> = None | Some(value: T)

  /** Why an operation was refused. Messages are not modelled. */
  datatype ErrorKind = Corrupt | Io | BudgetExceeded | Invalid | TooLarge

  datatype Result<+T> = Ok(value: T) | Err(kind: ErrorKind) {
    predicate IsFailure() { Err? }

    function PropagateFailure<U>(): Result<U>
      requires Err?
    {
      Err(kind)
    }

    function Extract(): T
      requires Ok?
    {
      value
    }
  }

  type Byte = b: int | 0 <= b < 256

  type Key = seq<Byte>

  const U64_MAX: int := 0xFFFF_FFFF_FFFF_FFFF

  type U64 = x: int | 0 <= x <= 0xFFFF_FFFF_FFFF_FFFF

  datatype Ordering = Less | Equal | Greater

  /** Three-way comparison of digests. */
  function CompareInts(a: int, b: int): Ordering {
    if a < b then Less else if a == b then Equal else Greater
  }
}
