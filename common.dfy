/** Small shared datatypes and facts. */
module Common {

  /** Rust's Option<T>. */
  datatype Option<T> = None | Some(value: T)

  /** Sequence concatenation is associative (stated so that proofs can name the step). */
  lemma AppendAssoc<T>(a: seq<T>, b: seq<T>, c: seq<T>)
    ensures (a + b) + c == a + (b + c)
  {
  }
}
