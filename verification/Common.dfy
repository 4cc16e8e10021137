/** Declarations that several modules share. */
module Common {
  datatype Option<+T> = None | Some(value: T)

  const UINT32: nat := 0x1_0000_0000

  type Byte = x: int | 0 <= x < 256

  /** A string that C code ends with NUL. */
  type CString = s: seq<char> | '\0' !in s witness []

  ghost predicate Distinct<T>(q: seq<T>) {
    forall j, k :: 0 <= j < k < |q| ==> q[j] != q[k]
  }
}
