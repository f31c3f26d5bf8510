/** An optional value, with the ordering Rust gives `Option<usize>`:
    `None` sorts before every `Some`, and two `Some` compare by value. */
module Options {

  datatype Option<T> = None | Some(value: T)

  predicate Less(a: Option<nat>, b: Option<nat>)
  {
    match (a, b)
    case (None, Some(_)) => true
    case (Some(i), Some(j)) => i < j
    case _ => false
  }
}
