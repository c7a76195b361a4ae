/** What several modules share. */
module Common {

  datatype Option<+T> = None | Some(value: T)

  /** Some element of a nonempty set. */
  ghost function Pick<T>(s: set<T>): (x: T)
    requires s != {}
    ensures x in s
  {
    var x :| x in s; x
  }

  lemma InsertSize<K, V>(m: map<K, V>, k: K, v: V)
    ensures |m[k := v]| == if k in m then |m| else |m| + 1
  {
  }

  lemma CancelFactor(x: int, y: int, factor: int)
    requires factor > 0 && x * factor < y * factor
    ensures x < y
  {
  }
}
