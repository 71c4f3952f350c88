/** Trees of help systems. A system in the tree is named by the list of subsystem numbers that leads to it. */
module SystemTree {

  /** A help system: what is of interest about it, and its subsystems. */
  datatype Tree<T> = Tree(data: T, subs: seq<Tree<T>>)

  type Place = seq<nat>

  predicate In<T>(s: Tree<T>, at: Place) {
    at == [] || (at[0] < |s.subs| && In(s.subs[at[0]], at[1..]))
  }

  function At<T>(s: Tree<T>, at: Place): Tree<T>
    requires In(s, at)
  {
    if at == [] then s else At(s.subs[at[0]], at[1..])
  }

  lemma {:induction false} AtChild<T>(s: Tree<T>, p: Place, k: nat)
    requires In(s, p) && k < |At(s, p).subs|
    ensures In(s, p + [k]) && At(s, p + [k]) == At(s, p).subs[k]
  {
    if p == [] {
      assert p + [k] == [k];
    } else {
      AtChild(s.subs[p[0]], p[1..], k);
      assert (p + [k])[1..] == p[1..] + [k];
    }
  }
}
