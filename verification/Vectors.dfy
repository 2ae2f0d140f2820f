/** What the vectors of the execution engine hold. */
module Vectors {
  import opened VersionChain

  const STANDARD_VECTOR_SIZE: nat := 1024

  /** One value of a vector: what its data holds, also where the NULL mask is set. */
  datatype Datum = Datum(data: int, isNull: bool) {
    /** What the value means. */
    function Value(): Option<int> {
      if isNull then None else Some(data)
    }
  }
}
