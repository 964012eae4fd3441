// Datatypes shared by every module of the model.
module Prelude {
  datatype Option<+T> = None | Some(value: T)

  // A call that either returns or raises.
  datatype Result<+T, +E> = Ok(value: T) | Err(error: E)

  // The last n elements of s, or all of s when it has fewer: s[-n:] for n >= 1.
  function TakeLast<T>(s: seq<T>, n: nat): (r: seq<T>)
    ensures |r| == if |s| <= n then |s| else n
  {
    if |s| <= n then s else s[|s| - n..]
  }

}
