/** Results that may fail, and regrouping of sequences. */
module Wrappers {

  datatype Option<+T> = None | Some(value: T)

  datatype Result<+T, +E> = Ok(value: T) | Err(error: E)

  lemma Associates<T>(a: seq<T>, b: seq<T>, c: seq<T>)
    ensures a + b + c == a + (b + c)
  {
  }

  lemma Head<T>(a: seq<T>)
    requires a != []
    ensures a == [a[0]] + a[1..]
  {
  }
}
