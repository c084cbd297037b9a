/** What several modules share: the two-case option type, minimum and maximum, and appending nothing. */
module Common {
  datatype Option<+T> = None | Some(value: T) {
    function GetOr(default: T): T {
      match this
      case Some(v) => v
      case None => default
    }
  }

  function Min(a: int, b: int): int {
    if a < b then a else b
  }

  function Max(a: int, b: int): int {
    if a < b then b else a
  }

  lemma AppendNothing<T>(s: seq<T>)
    ensures s + [] == s
  {
  }
}
