/** What every module needs: an optional value, and three facts about sequences. */
module Common {

  datatype Option<+T> = None | Some(value: T)

  lemma AppendAssoc<T>(a: seq<T>, b: seq<T>, c: seq<T>)
    ensures a + (b + c) == (a + b) + c
  {}

  lemma AppendNothing<T>(a: seq<T>)
    ensures a + [] == a
  {}

  lemma LastApart<T>(q: seq<T>)
    requires |q| > 0
    ensures q == q[..|q| - 1] + [q[|q| - 1]]
  {}
}
