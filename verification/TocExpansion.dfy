/** How the tree in memory relates to the tree it expands to, and why loading changes the first
    without changing the second. */
module TocExpansion {
  import opened Preorder
  import opened TocTree

  /** An imported element stands for what its document element stands for. */
  lemma {:induction false} ImportExpands(v: View, t: Table, d: nat, owner: System, item: Item)
    requires WellFormed(t, d, owner, item)
    ensures Sound(t, owner, Import(item))
    ensures Full(v, t, owner, Import(item)) == Expand(t, d, owner, item)
    decreases item
  {
    if item.pending.Nothing? {
      ImportAllExpands(v, t, d, owner, item.kids);
      var nodes := FullAll(v, t, owner, Import(item).kids);
      assert nodes + [] == nodes;
    }
  }

  lemma {:induction false} ImportAllExpands(v: View, t: Table, d: nat, owner: System, items: seq<Item>)
    requires forall k | k in items :: WellFormed(t, d, owner, k)
    ensures forall k | k in ImportAll(items) :: Sound(t, owner, k)
    ensures FullAll(v, t, owner, ImportAll(items)) == ExpandAll(t, d, owner, items)
    decreases items
  {
    forall i | 0 <= i < |items|
      ensures Sound(t, owner, ImportAll(items)[i])
      ensures Full(v, t, owner, ImportAll(items)[i]) == Expand(t, d, owner, items[i])
    {
      ImportExpands(v, t, d, owner, items[i]);
    }
  }

  // ----- More owners -----

  /** One more subsystem recorded. */
  function More(t: Table, s: System): Table {
    t.(owners := t.owners + [s])
  }

  /** What documents stand for does not depend on the subsystems recorded. */
  lemma {:induction false} MoreOwnersItem(t: Table, s: System, d: nat, owner: System, item: Item)
    requires WellFormed(t, d, owner, item)
    ensures WellFormed(More(t, s), d, owner, item)
    ensures Expand(More(t, s), d, owner, item) == Expand(t, d, owner, item)
    decreases owner, d, item, 0
  {
    match item.pending
    case Nothing => MoreOwnersItems(t, s, d, owner, item.kids);
    case Chunk(name) =>
      var f := t.files[FileOf(t, owner, name)];
      MoreOwnersItems(t, s, f.depth, owner, f.doc);
    case Merge(h) => MoreOwnersItems(t, s, t.top, owner.subs[h], owner.subs[h].data.toc);
  }

  lemma {:induction false} MoreOwnersItems(t: Table, s: System, d: nat, owner: System, items: seq<Item>)
    requires forall k | k in items :: WellFormed(t, d, owner, k)
    ensures forall k | k in items :: WellFormed(More(t, s), d, owner, k)
    ensures ExpandAll(More(t, s), d, owner, items) == ExpandAll(t, d, owner, items)
    decreases owner, d, items, 1
  {
    forall i | 0 <= i < |items|
      ensures WellFormed(More(t, s), d, owner, items[i])
      ensures Expand(More(t, s), d, owner, items[i]) == Expand(t, d, owner, items[i])
    {
      MoreOwnersItem(t, s, d, owner, items[i]);
    }
  }

  lemma MoreOwnersToc(t: Table, s: System, x: System)
    requires WellFormedToc(t, x)
    ensures WellFormedToc(More(t, s), x) && TocNodes(More(t, s), x) == TocNodes(t, x)
  {
    MoreOwnersItems(t, s, t.top, x, x.data.toc);
  }

  lemma MoreOwnersFile(t: Table, s: System, x: System, f: string)
    requires WellFormedFile(t, x, f)
    ensures WellFormedFile(More(t, s), x, f) && FileNodes(More(t, s), x, f) == FileNodes(t, x, f)
  {
    MoreOwnersItems(t, s, t.files[f].depth, x, t.files[f].doc);
  }

  /** Recording one more owner leaves the meaning of every existing index alone. */
  lemma {:induction false} MoreOwners(v: View, t: Table, s: System, above: System, e: Entry)
    requires Sound(t, above, e)
    ensures Sound(More(t, s), above, e)
    ensures Full(v, More(t, s), above, e) == Full(v, t, above, e)
    decreases e
  {
    var own := OwnerOf(t, above, e);
    assert OwnerOf(More(t, s), above, e) == own;
    if e.arriving {
      MoreOwnersToc(t, s, own);
    }
    if e.chunk.Some? {
      MoreOwnersFile(t, s, own, e.chunk.value);
    }
    match e.pending
    case Chunk(name) => MoreOwnersFile(t, s, own, FileOf(t, own, name));
    case Merge(h) => MoreOwnersToc(t, s, own.subs[h]);
    case Nothing =>
      forall i | 0 <= i < |e.kids|
        ensures Sound(More(t, s), own, e.kids[i])
        ensures Full(v, More(t, s), own, e.kids[i]) == Full(v, t, own, e.kids[i])
      {
        MoreOwners(v, t, s, own, e.kids[i]);
      }
      assert FullAll(v, More(t, s), own, e.kids) == FullAll(v, t, own, e.kids);
  }

  lemma {:induction false} MoreOwnersAbove(t: Table, s: System, above: System, e: Entry, p: Path)
    requires Sound(t, above, e) && In(e, p)
    ensures OwnerAbove(More(t, s), above, e, p) == OwnerAbove(t, above, e, p)
    decreases p
  {
    if p != [] {
      MoreOwnersAbove(t, s, OwnerOf(t, above, e), e.kids[p[0]], p[1..]);
    }
  }

  // ----- Positions and replacements -----

  /** Every element in memory is at the same position in the expanded tree, as what it stands for. */
  lemma {:induction false} InMemoryInFull(v: View, t: Table, above: System, e: Entry, p: Path)
    requires Sound(t, above, e) && In(e, p)
    ensures InFull(Full(v, t, above, e), p)
    ensures Sound(t, OwnerAbove(t, above, e, p), At(e, p))
    ensures AtFull(Full(v, t, above, e), p) == Full(v, t, OwnerAbove(t, above, e, p), At(e, p))
    decreases p
  {
    if p != [] {
      InMemoryInFull(v, t, OwnerOf(t, above, e), e.kids[p[0]], p[1..]);
    }
  }

  /** An element that stands for content belongs, once expanded, to the subsystem whose content it
      is; every other element belongs to the owner found in memory. */
  lemma OwnerInFull(v: View, t: Table, above: System, e: Entry)
    requires Sound(t, above, e)
    ensures Full(v, t, above, e).owner == OwnerOf(t, above, e) <==> !e.pending.Merge?
  {
    var own := OwnerOf(t, above, e);
    if e.pending.Merge? {
      assert own.subs[e.pending.hint] < own;
    }
  }

  lemma FullSet(v: View, t: Table, above: System, es: seq<Entry>, i: nat, x: Entry)
    requires i < |es| && Sound(t, above, x) && forall k | k in es :: Sound(t, above, k)
    ensures forall k | k in es[i := x] :: Sound(t, above, k)
    ensures FullAll(v, t, above, es[i := x]) == FullAll(v, t, above, es)[i := Full(v, t, above, x)]
  {
    forall k | k in es[i := x] ensures Sound(t, above, k) {
      var j :| 0 <= j < |es| && es[i := x][j] == k;
    }
  }

  lemma {:induction false} KidReplacedSound(t: Table, above: System, e: Entry, i: nat, x: Entry)
    requires Sound(t, above, e) && i < |e.kids| && Sound(t, OwnerOf(t, above, e), x)
    ensures e.pending.Nothing? && Sound(t, above, e.(kids := e.kids[i := x]))
  {
    var e' := e.(kids := e.kids[i := x]);
    forall k | k in e'.kids ensures Sound(t, OwnerOf(t, above, e), k) {
      var j :| 0 <= j < |e.kids| && e'.kids[j] == k;
    }
  }

  /** With a child replaced, that child is replaced in the expanded tree, and nothing else. */
  lemma {:induction false} KidReplaced(v: View, t: Table, above: System, e: Entry, i: nat, x: Entry)
    requires Sound(t, above, e) && i < |e.kids| && Sound(t, OwnerOf(t, above, e), x) && e.pending.Nothing?
    requires Sound(t, above, e.(kids := e.kids[i := x]))
    ensures var n, n' := Full(v, t, above, e), Full(v, t, above, e.(kids := e.kids[i := x]));
      && i < |n.kids| && n.kids[i] == Full(v, t, OwnerOf(t, above, e), e.kids[i])
      && n' == n.(kids := n.kids[i := Full(v, t, OwnerOf(t, above, e), x)])
  {
    var own := OwnerOf(t, above, e);
    var tail := Coming(v, t, own, e.arriving, e.chunk, e.coming);
    FullSet(v, t, own, e.kids, i, x);
    assert (FullAll(v, t, own, e.kids) + tail)[i := Full(v, t, own, x)]
        == FullAll(v, t, own, e.kids)[i := Full(v, t, own, x)] + tail;
  }

  /** Replacing an element by one that stands for the same content changes nothing in the
      expanded tree. */
  lemma {:induction false} PutKeepsFull(v: View, t: Table, above: System, e: Entry, p: Path, x: Entry)
    requires Sound(t, above, e) && In(e, p)
    requires Sound(t, OwnerAbove(t, above, e, p), x)
    requires Sound(t, OwnerAbove(t, above, e, p), At(e, p))
    requires Full(v, t, OwnerAbove(t, above, e, p), x) == Full(v, t, OwnerAbove(t, above, e, p), At(e, p))
    ensures Sound(t, above, Put(e, p, x))
    ensures Full(v, t, above, Put(e, p, x)) == Full(v, t, above, e)
    decreases p
  {
    if p != [] {
      PutKeepsFull(v, t, OwnerOf(t, above, e), e.kids[p[0]], p[1..], x);
      KidReplacedSound(t, above, e, p[0], Put(e.kids[p[0]], p[1..], x));
      KidReplaced(v, t, above, e, p[0], Put(e.kids[p[0]], p[1..], x));
    }
  }

  /** Positions survive a replacement that only adds children behind those there are, and elements
      elsewhere are as before. */
  lemma {:induction false} PutAt(e: Entry, p: Path, x: Entry, q: Path)
    requires In(e, p) && In(e, q) && At(e, p).kids <= x.kids
    ensures In(Put(e, p, x), q)
    ensures q == p ==> At(Put(e, p, x), q) == x
    ensures q != p ==> At(Put(e, p, x), q).(kids := []) == At(e, q).(kids := [])
    decreases p
  {
    if p == [] {
      KidsStay(e, x, q);
    } else if q != [] && p[0] == q[0] {
      PutAt(e.kids[p[0]], p[1..], x, q[1..]);
      assert p == [p[0]] + p[1..] && q == [q[0]] + q[1..];
    }
  }

  lemma KidsStay(e: Entry, x: Entry, q: Path)
    requires In(e, q) && e.kids <= x.kids
    ensures In(x, q) && (q != [] ==> At(x, q) == At(e, q))
  {
    if q != [] {
      assert x.kids[q[0]] == e.kids[q[0]];
    }
  }

  lemma {:induction false} AtParent(e: Entry, p: Path)
    requires In(e, p) && p != []
    ensures In(e, Parent(p)) && Last(p) < |At(e, Parent(p)).kids|
    ensures At(e, p) == At(e, Parent(p)).kids[Last(p)]
    decreases p
  {
    if |p| > 1 {
      AtParent(e.kids[p[0]], p[1..]);
      assert Parent(p)[1..] == Parent(p[1..]);
    }
  }

  lemma {:induction false} AtChild(e: Entry, p: Path, i: nat)
    requires In(e, p)
    ensures In(e, p + [i]) <==> i < |At(e, p).kids|
    ensures i < |At(e, p).kids| ==> At(e, p + [i]) == At(e, p).kids[i]
    decreases p
  {
    if p == [] {
      assert p + [i] == [i];
    } else {
      AtChild(e.kids[p[0]], p[1..], i);
      assert (p + [i])[1..] == p[1..] + [i];
    }
  }

  lemma {:induction false} FullChild(n: Node, p: Path, i: nat)
    requires InFull(n, p)
    ensures InFull(n, p + [i]) <==> i < |AtFull(n, p).kids|
    ensures i < |AtFull(n, p).kids| ==> AtFull(n, p + [i]) == AtFull(n, p).kids[i]
    decreases p
  {
    if p == [] {
      assert p + [i] == [i];
    } else {
      FullChild(n.kids[p[0]], p[1..], i);
      assert (p + [i])[1..] == p[1..] + [i];
    }
  }

  /** A node's ancestors are nodes. */
  lemma {:induction false} FullAncestor(n: Node, a: Path, p: Path)
    requires InFull(n, p) && a <= p
    ensures InFull(n, a)
    ensures a < p ==> p[|a|] < |AtFull(n, a).kids|
    decreases a
  {
    if a != [] {
      FullAncestor(n.kids[p[0]], a[1..], p[1..]);
    }
  }

  /** The help system above a child is the one its parent belongs to. */
  lemma {:induction false} OwnerAboveParent(t: Table, above: System, e: Entry, p: Path)
    requires In(e, p) && p != []
    ensures In(e, Parent(p))
    ensures OwnerAbove(t, above, e, p) == OwnerAt(t, above, e, Parent(p))
    decreases p
  {
    if |p| > 1 {
      OwnerAboveParent(t, OwnerOf(t, above, e), e.kids[p[0]], p[1..]);
      assert Parent(p)[1..] == Parent(p[1..]);
    }
  }

  /** An element that stands for nothing, and any with a child in memory, shows the children it has at present. */
  lemma ShowsChildren(t: Table, above: System, e: Entry, p: Path)
    requires Sound(t, above, e) && In(e, p) && (At(e, p).pending.Nothing? || At(e, p).kids != [])
    ensures InFull(Full(Present, t, above, e), p)
    ensures |AtFull(Full(Present, t, above, e), p).kids| == |At(e, p).kids|
  {
    InMemoryInFull(Present, t, above, e, p);
  }

  lemma {:induction false} PutTwice(e: Entry, p: Path, x: Entry, y: Entry)
    requires In(e, p)
    ensures In(Put(e, p, x), p) && Put(Put(e, p, x), p, y) == Put(e, p, y)
    decreases p
  {
    if p != [] {
      PutTwice(e.kids[p[0]], p[1..], x, y);
    }
  }

  /** The owner found in memory for an element is the one it has in the tree that memory stands for, unless the
      element still stands for a merge: then it is found to belong to the system above, and will belong to the
      subsystem once the merge is requested. */
  lemma OwnerStoodFor(v: View, t: Table, above: System, e: Entry, p: Path)
    requires Sound(t, above, e) && In(e, p)
    ensures InFull(Full(v, t, above, e), p)
    ensures AtFull(Full(v, t, above, e), p).owner == OwnerAt(t, above, e, p)
       <==> !At(e, p).pending.Merge?
  {
    InMemoryInFull(v, t, above, e, p);
    OwnerInFull(v, t, OwnerAbove(t, above, e, p), At(e, p));
  }

  lemma {:induction false} PutSound(t: Table, above: System, e: Entry, p: Path, x: Entry)
    requires Sound(t, above, e) && In(e, p) && Sound(t, OwnerAbove(t, above, e, p), x)
    ensures Sound(t, above, Put(e, p, x)) && In(Put(e, p, x), p) && At(Put(e, p, x), p) == x
    ensures OwnerAbove(t, above, Put(e, p, x), p) == OwnerAbove(t, above, e, p)
    decreases p
  {
    if p != [] {
      PutSound(t, OwnerOf(t, above, e), e.kids[p[0]], p[1..], x);
    }
  }
}
