/** Small shared vocabulary: an optional value and the source-origin span that the
    compiler attaches to instructions and diagnostics. */
module Common {

  /** A value that may be missing (a null pointer, an `npos`, an absent operand). */
  datatype Option<T> = None | Some(value: T)

  /** Where an instruction or a diagnostic came from: a range of the script
      source (start offset and length), or code the generator synthesised
      itself (`Span::Source::GENERATED`). */
  datatype Span = Generated | Located(start: nat, length: nat)

  function Max(a: int, b: int): int
  {
    if a >= b then a else b
  }

  /** `std::string(n, c)`: `n` copies of `c`. */
  function Repeat(c: char, n: nat): (r: string)
    ensures |r| == n
    ensures forall k :: 0 <= k < n ==> r[k] == c
  {
    seq(n, _ => c)
  }
}
