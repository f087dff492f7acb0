/** Shared vocabulary: optional values, bytes, and the in-order concatenation
    that `new Blob(parts)` performs on a list of received buffers. */
module Base {

  datatype Option<+T> = None | Some(value: T)

  type Byte = bv8

  /** The bytes of `parts`, one after the other, in order. */
  function Concat(parts: seq<seq<Byte>>): seq<Byte>
  {
    if parts == [] then [] else Concat(parts[..|parts| - 1]) + parts[|parts| - 1]
  }

  /** The sum of the lengths of `parts` (the receiver's running byte counter). */
  function TotalLength(parts: seq<seq<Byte>>): nat
  {
    if parts == [] then 0 else TotalLength(parts[..|parts| - 1]) + |parts[|parts| - 1]|
  }

  /** The concatenation is exactly as long as the counted lengths. */
  lemma {:induction false} ConcatLength(parts: seq<seq<Byte>>)
    ensures |Concat(parts)| == TotalLength(parts)
  {
    if parts != [] {
      ConcatLength(parts[..|parts| - 1]);
    }
  }

  /** Appending one more buffer appends its bytes. */
  lemma ConcatPush(parts: seq<seq<Byte>>, x: seq<Byte>)
    ensures Concat(parts + [x]) == Concat(parts) + x
    ensures TotalLength(parts + [x]) == TotalLength(parts) + |x|
  {
    assert (parts + [x])[..|parts|] == parts;
  }
}
