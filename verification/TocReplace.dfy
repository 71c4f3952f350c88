/** A merge that replaces its element: what the splice does to the order of the imported entries, and
    which help system they are recorded for. */
module TocReplace {
  import opened Options
  import opened Preorder
  import opened TocTree
  import opened TocExpansion
  import opened TocLoads

  /** An imported element recorded for the owner with the given index. */
  function Owned(item: Item, index: nat): Entry {
    Import(item).(ownerIndex := Some(index))
  }

  function OwnedAll(doc: seq<Item>, index: nat): (r: seq<Entry>)
    ensures |r| == |doc|
  {
    seq(|doc|, i requires 0 <= i < |doc| => Owned(doc[i], index))
  }

  function Reversed<T>(s: seq<T>): seq<T> {
    if s == [] then [] else Reversed(s[1..]) + [s[0]]
  }

  /** The order the splice leaves: the first element, then the others from last to second. */
  function Spliced<T>(s: seq<T>): seq<T> {
    if s == [] then [] else [s[0]] + Reversed(s[1..])
  }

  /** The loop of a replacing merge on the children of the element's parent: the first imported element
      takes the place of child `i`, each later one is inserted right after the first. `first` and
      `last` are the elements reported to the caller. */
  method SpliceKids(kids: seq<Entry>, i: nat, doc: seq<Item>, index: nat)
    returns (kids': seq<Entry>, first: Option<Entry>, last: Option<Entry>)
    requires i < |kids|
    ensures doc == [] ==> kids' == kids && first == None
    ensures doc != [] ==> kids' == kids[..i] + Spliced(OwnedAll(doc, index)) + kids[i + 1..]
    ensures doc != [] ==> first == Some(Owned(doc[0], index))
    ensures last == if |doc| > 1 then Some(Owned(doc[|doc| - 1], index)) else None
  {
    kids', first, last := kids, None, None;
    ghost var owned := OwnedAll(doc, index);
    for n := 0 to |doc|
      invariant n == 0 ==> kids' == kids && first == None
      invariant n > 0 ==> kids' == kids[..i] + ([owned[0]] + Reversed(owned[1..n])) + kids[i + 1..]
      invariant n > 0 ==> first == Some(owned[0])
      invariant last == if n > 1 then Some(owned[n - 1]) else None
    {
      var imported := Owned(doc[n], index);
      if n == 0 {
        kids' := kids'[i := imported];
        first := Some(imported);
        assert owned[1..1] == [];
      } else {
        InsertSecond(kids[..i], owned, n, kids[i + 1..]);
        kids' := kids'[..i + 1] + [imported] + kids'[i + 1..];
        last := Some(imported);
      }
    }
    if doc != [] {
      assert owned[1..|doc|] == owned[1..];
    }
  }

  /** One round of the loop: the next element comes right behind the first. */
  lemma InsertSecond<T>(head: seq<T>, s: seq<T>, n: nat, tail: seq<T>)
    requires 0 < n < |s|
    ensures var all := head + ([s[0]] + Reversed(s[1..n])) + tail;
      all[..|head| + 1] + [s[n]] + all[|head| + 1..] == head + ([s[0]] + Reversed(s[1..n + 1])) + tail
  {
    OneMoreBehind(s, n);
    ReversedAppend(s[1..n], s[n]);
    InsertBehind(head, s[0], s[n], Reversed(s[1..n]), tail);
  }

  lemma InsertBehind<T>(head: seq<T>, x: T, y: T, mid: seq<T>, tail: seq<T>)
    ensures var all := head + ([x] + mid) + tail;
      all[..|head| + 1] + [y] + all[|head| + 1..] == head + ([x] + ([y] + mid)) + tail
  {
    var all := head + ([x] + mid) + tail;
    assert all[..|head| + 1] == head + [x] && all[|head| + 1..] == mid + tail;
  }

  lemma OneMoreBehind<T>(s: seq<T>, n: nat)
    requires 0 < n < |s|
    ensures s[1..n + 1] == s[1..n] + [s[n]]
  {
    var more := s[1..n + 1];
    assert more[..n - 1] == s[1..n] && more[n - 1] == s[n];
    assert more == more[..n - 1] + [more[n - 1]];
  }

  /** The children of an element with the imported ones in place of child `i`. */
  function SplicedKids(kids: seq<Entry>, i: nat, doc: seq<Item>, index: nat): seq<Entry>
    requires i < |kids|
  {
    kids[..i] + Spliced(OwnedAll(doc, index)) + kids[i + 1..]
  }

  /** The arrival of a merge that replaces the element at `p`: an empty document leaves the element in place. */
  method ReplaceMerge(root: Entry, p: Path, doc: seq<Item>, index: nat)
    returns (root': Entry, first: Option<Entry>, last: Option<Entry>)
    requires In(root, p) && p != []
    ensures In(root, Parent(p)) && Last(p) < |At(root, Parent(p)).kids|
    ensures doc == [] ==> root' == root && first == None
    ensures doc != [] ==> first == Some(Owned(doc[0], index))
    ensures doc != [] ==> var a := At(root, Parent(p));
      root' == Put(root, Parent(p), a.(kids := SplicedKids(a.kids, Last(p), doc, index)))
    ensures last == if |doc| > 1 then Some(Owned(doc[|doc| - 1], index)) else None
  {
    AtParent(root, p);
    var a := At(root, Parent(p));
    var kids;
    kids, first, last := SpliceKids(a.kids, Last(p), doc, index);
    root' := root;
    if doc != [] {
      root' := Put(root, Parent(p), a.(kids := kids));
    }
  }

  // ----- What the tree comes to stand for -----

  function PutFull(n: Node, p: Path, x: Node): Node
    requires InFull(n, p)
    decreases p
  {
    if p == [] then x else n.(kids := n.kids[p[0] := PutFull(n.kids[p[0]], p[1..], x)])
  }

  /** What an element is replaced by shows in the expanded tree at its position, and nowhere else. */
  lemma {:induction false} PutInFull(v: View, t: Table, above: System, e: Entry, p: Path, x: Entry)
    requires Sound(t, above, e) && In(e, p) && Sound(t, OwnerAbove(t, above, e, p), x)
    ensures Sound(t, above, Put(e, p, x)) && InFull(Full(v, t, above, e), p)
    ensures Full(v, t, above, Put(e, p, x))
         == PutFull(Full(v, t, above, e), p, Full(v, t, OwnerAbove(t, above, e, p), x))
    decreases p
  {
    InMemoryInFull(v, t, above, e, p);
    if p != [] {
      var kid := Put(e.kids[p[0]], p[1..], x);
      PutInFull(v, t, OwnerOf(t, above, e), e.kids[p[0]], p[1..], x);
      KidReplacedSound(t, above, e, p[0], kid);
      KidReplaced(v, t, above, e, p[0], kid);
    }
  }

  /** An imported element recorded for `sub` stands for what its document element stands for there. */
  lemma {:induction false} OwnedFull(v: View, t: Table, d: nat, sub: System, above: System, item: Item)
    requires t.owners != [] && t.owners[|t.owners| - 1] == sub && WellFormed(t, d, sub, item)
    ensures var e := Owned(item, |t.owners| - 1);
      Sound(t, above, e) && Full(v, t, above, e) == Expand(t, d, sub, item)
  {
    ImportExpands(v, t, d, sub, item);
    assert OwnerOf(t, above, Owned(item, |t.owners| - 1)) == sub == OwnerOf(t, sub, Import(item));
  }

  /** The place in the document of what the splice puts at `k`. */
  function Origin(k: nat, n: nat): nat
    requires k < n
  {
    if k == 0 then 0 else n - k
  }

  lemma SplicedAt<T>(s: seq<T>, k: nat)
    requires k < |s|
    ensures |Spliced(s)| == |s| && Spliced(s)[k] == s[Origin(k, |s|)]
  {
    if k > 0 {
      ReversedAt(s[1..], k - 1);
    } else if |s| > 1 {
      ReversedAt(s[1..], 0);
    }
  }

  lemma {:induction false} SplicedFull(v: View, t: Table, d: nat, sub: System, above: System, doc: seq<Item>)
    requires t.owners != [] && t.owners[|t.owners| - 1] == sub && forall k | k in doc :: WellFormed(t, d, sub, k)
    ensures var es := Spliced(OwnedAll(doc, |t.owners| - 1));
      && (forall k | k in es :: Sound(t, above, k))
      && FullAll(v, t, above, es) == Spliced(ExpandAll(t, d, sub, doc))
  {
    var es, nodes := Spliced(OwnedAll(doc, |t.owners| - 1)), Spliced(ExpandAll(t, d, sub, doc));
    SplicedLength(OwnedAll(doc, |t.owners| - 1));
    SplicedLength(ExpandAll(t, d, sub, doc));
    forall k | 0 <= k < |doc| ensures Sound(t, above, es[k]) && Full(v, t, above, es[k]) == nodes[k] {
      SplicedAt(OwnedAll(doc, |t.owners| - 1), k);
      SplicedAt(ExpandAll(t, d, sub, doc), k);
      var item := doc[Origin(k, |doc|)];
      OwnedFull(v, t, d, sub, above, item);
      assert es[k] == Owned(item, |t.owners| - 1) && nodes[k] == Expand(t, d, sub, item);
    }
    forall k | k in es ensures Sound(t, above, k) {
      var i :| 0 <= i < |es| && es[i] == k;
    }
    assert FullAll(v, t, above, es) == nodes;
  }

  lemma SplicedLength<T>(s: seq<T>)
    ensures |Spliced(s)| == |s|
  {
    if s != [] {
      SplicedAt(s, 0);
    }
  }

  /** With the element's children spliced, the children of what it stands for are spliced likewise. */
  lemma {:induction false} SplicedElement(v: View, t: Table, d: nat, sub: System, above: System, e: Entry, i: nat,
                                          doc: seq<Item>)
    requires Sound(t, above, e) && i < |e.kids|
    requires t.owners != [] && t.owners[|t.owners| - 1] == sub && forall k | k in doc :: WellFormed(t, d, sub, k)
    ensures var x, n := e.(kids := SplicedKids(e.kids, i, doc, |t.owners| - 1)), Full(v, t, above, e);
      && Sound(t, above, x) && i < |n.kids|
      && Full(v, t, above, x) == n.(kids := n.kids[..i] + Spliced(ExpandAll(t, d, sub, doc)) + n.kids[i + 1..])
  {
    var own, es := OwnerOf(t, above, e), Spliced(OwnedAll(doc, |t.owners| - 1));
    SplicedFull(v, t, d, sub, own, doc);
    SplicedInto(v, t, own, e.kids, i, es);
    var tail := Coming(v, t, own, e.arriving, e.chunk, e.coming);
    SliceOfBoth(FullAll(v, t, own, e.kids), tail, i, FullAll(v, t, own, es));
  }

  lemma SplicedInto(v: View, t: Table, above: System, kids: seq<Entry>, i: nat, es: seq<Entry>)
    requires i < |kids| && (forall k | k in kids :: Sound(t, above, k)) && forall k | k in es :: Sound(t, above, k)
    ensures forall k | k in kids[..i] + es + kids[i + 1..] :: Sound(t, above, k)
    ensures FullAll(v, t, above, kids[..i] + es + kids[i + 1..])
         == FullAll(v, t, above, kids)[..i] + FullAll(v, t, above, es) + FullAll(v, t, above, kids)[i + 1..]
  {
    forall k | k in kids[..i] + es + kids[i + 1..] ensures Sound(t, above, k) {
      assert k in kids || k in es;
    }
    FullConcat(v, t, above, kids[..i] + es, kids[i + 1..]);
    FullConcat(v, t, above, kids[..i], es);
    FullSlice(v, t, above, kids, i);
  }

  lemma SliceOfBoth<T>(a: seq<T>, tail: seq<T>, i: nat, mid: seq<T>)
    requires i < |a|
    ensures (a + tail)[..i] + mid + (a + tail)[i + 1..] == (a[..i] + mid + a[i + 1..]) + tail
  {
    assert (a + tail)[..i] == a[..i] && (a + tail)[i + 1..] == a[i + 1..] + tail;
  }

  lemma FullSlice(v: View, t: Table, above: System, es: seq<Entry>, i: nat)
    requires i < |es| && forall k | k in es :: Sound(t, above, k)
    ensures FullAll(v, t, above, es[..i]) == FullAll(v, t, above, es)[..i]
    ensures FullAll(v, t, above, es[i + 1..]) == FullAll(v, t, above, es)[i + 1..]
  {
  }

  /** The expanded tree with `nodes` in place of the element at `p`. */
  function WithNodes(n: Node, p: Path, nodes: seq<Node>): Node
    requires p != [] && InFull(n, Parent(p)) && Last(p) < |AtFull(n, Parent(p)).kids|
  {
    var m, i := AtFull(n, Parent(p)), Last(p);
    PutFull(n, Parent(p), m.(kids := m.kids[..i] + nodes + m.kids[i + 1..]))
  }

  /** In the whole tree, the imported entries stand in place of the replaced one, in the order that the splice gives
      them, each for what it stands for in the system recorded last; all else stays. */
  lemma {:induction false} ReplaceInTree(v: View, t: Table, d: nat, sub: System, above: System, e: Entry, p: Path,
                                         doc: seq<Item>)
    requires Sound(t, above, e) && In(e, p) && p != [] && In(e, Parent(p)) && Last(p) < |At(e, Parent(p)).kids|
    requires t.owners != [] && t.owners[|t.owners| - 1] == sub && forall k | k in doc :: WellFormed(t, d, sub, k)
    ensures var a, n := At(e, Parent(p)), Full(v, t, above, e);
      var e' := Put(e, Parent(p), a.(kids := SplicedKids(a.kids, Last(p), doc, |t.owners| - 1)));
      && Sound(t, above, e') && InFull(n, Parent(p)) && Last(p) < |AtFull(n, Parent(p)).kids|
      && Full(v, t, above, e') == WithNodes(n, p, Spliced(ExpandAll(t, d, sub, doc)))
  {
    var a, up := Parent(p), OwnerAbove(t, above, e, Parent(p));
    InMemoryInFull(v, t, above, e, a);
    SplicedElement(v, t, d, sub, up, At(e, a), Last(p), doc);
    PutInFull(v, t, above, e, a, At(e, a).(kids := SplicedKids(At(e, a).kids, Last(p), doc, |t.owners| - 1)));
  }

  lemma {:induction false} PutFullAt(n: Node, p: Path, x: Node)
    requires InFull(n, p)
    ensures InFull(PutFull(n, p, x), p) && AtFull(PutFull(n, p, x), p) == x
    decreases p
  {
    if p != [] {
      PutFullAt(n.kids[p[0]], p[1..], x);
    }
  }

  /** Two lists put in the same place give the same tree only when they are the same. */
  lemma {:induction false} SameNodes(n: Node, p: Path, a: seq<Node>, b: seq<Node>)
    requires p != [] && InFull(n, Parent(p)) && Last(p) < |AtFull(n, Parent(p)).kids| && |a| == |b|
    ensures WithNodes(n, p, a) == WithNodes(n, p, b) <==> a == b
  {
    var m, i := AtFull(n, Parent(p)), Last(p);
    var ka, kb := m.kids[..i] + a + m.kids[i + 1..], m.kids[..i] + b + m.kids[i + 1..];
    PutFullAt(n, Parent(p), m.(kids := ka));
    PutFullAt(n, Parent(p), m.(kids := kb));
    assert ka[i..i + |a|] == a && kb[i..i + |b|] == b;
  }

  /** A replacing merge of entries that stand for different things leaves the tree with the document's entries in
      place of the element, in the document's order, exactly when there are at most two. */
  lemma {:induction false} ReplaceKeepsOrder(v: View, t: Table, d: nat, sub: System, above: System, e: Entry, p: Path,
                                             doc: seq<Item>)
    requires Sound(t, above, e) && In(e, p) && p != [] && In(e, Parent(p)) && Last(p) < |At(e, Parent(p)).kids|
    requires t.owners != [] && t.owners[|t.owners| - 1] == sub && forall k | k in doc :: WellFormed(t, d, sub, k)
    requires var nodes := ExpandAll(t, d, sub, doc); forall i, j | 0 <= i < j < |nodes| :: nodes[i] != nodes[j]
    ensures var a, n := At(e, Parent(p)), Full(v, t, above, e);
      var e' := Put(e, Parent(p), a.(kids := SplicedKids(a.kids, Last(p), doc, |t.owners| - 1)));
      && Sound(t, above, e') && InFull(n, Parent(p)) && Last(p) < |AtFull(n, Parent(p)).kids|
      && (Full(v, t, above, e') == WithNodes(n, p, ExpandAll(t, d, sub, doc)) <==> |doc| <= 2)
  {
    var nodes := ExpandAll(t, d, sub, doc);
    ReplaceInTree(v, t, d, sub, above, e, p, doc);
    SplicedLength(nodes);
    SameNodes(Full(v, t, above, e), p, Spliced(nodes), nodes);
    SpliceKeepsOrder(nodes);
  }

  lemma {:induction false} ReversedAppend<T>(s: seq<T>, x: T)
    ensures Reversed(s + [x]) == [x] + Reversed(s)
  {
    if s == [] {
      assert s + [x] == [x];
    } else {
      assert (s + [x])[1..] == s[1..] + [x];
      ReversedAppend(s[1..], x);
    }
  }

  lemma {:induction false} ReversedAt<T>(s: seq<T>, k: nat)
    requires k < |s|
    ensures |Reversed(s)| == |s| && Reversed(s)[k] == s[|s| - 1 - k]
  {
    if |s| > 1 {
      ReversedAt(s[1..], if k < |s| - 1 then k else 0);
    }
  }

  /** Different elements end up in document order exactly when there are at most two. */
  lemma SpliceKeepsOrder<T>(s: seq<T>)
    requires forall i, j | 0 <= i < j < |s| :: s[i] != s[j]
    ensures Spliced(s) == s <==> |s| <= 2
  {
    if |s| > 0 {
      var rest := s[1..];
      forall k | 0 <= k < |rest| ensures |Reversed(rest)| == |rest| && Reversed(rest)[k] == rest[|rest| - 1 - k] {
        ReversedAt(rest, k);
      }
      if |s| > 2 {
        assert Spliced(s)[1] == s[|s| - 1] != s[1];
      } else if |s| == 2 {
        assert Reversed(rest) == rest;
      }
    }
  }

  /** The imported elements are recorded for the help system added last when the document arrives. With
      `later` the systems of the merges requested in between, that is the subsystem the document is from
      exactly when there were none, or the last of them was for the same one; then every spliced element
      stands for what its document element stands for there, whatever system it is spliced under. */
  lemma {:induction false} ReplaceOwner(v: View, t: Table, d: nat, sub: System, later: seq<System>,
                                        above: System, item: Item)
    requires WellFormed(t.(owners := t.owners + [sub] + later), d, sub, item)
    ensures var now := t.(owners := t.owners + [sub] + later);
      var e := Owned(item, |now.owners| - 1);
      var right := later == [] || later[|later| - 1] == sub;
      && (OwnerOf(now, above, e) == sub <==> right)
      && (right ==> Sound(now, above, e) && Full(v, now, above, e) == Expand(now, d, sub, item))
  {
    var now := t.(owners := t.owners + [sub] + later);
    if later == [] || later[|later| - 1] == sub {
      OwnedFull(v, now, d, sub, above, item);
    }
  }
}
