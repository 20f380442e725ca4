/** What several modules need of options and sequences. */
module Collections {
  datatype Option<T> = None | Some(value: T)

  /** `s` without the element at position `at`. */
  function Without<T>(s: seq<T>, at: nat): (r: seq<T>)
    requires at < |s|
    ensures |r| == |s| - 1
    ensures forall i: nat | i < |r| :: r[i] == s[if i < at then i else i + 1]
  {
    s[..at] + s[at + 1..]
  }
}
