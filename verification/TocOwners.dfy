/** Which help system an element belongs to, after any requests and arrivals of chunks and merges. */
module TocOwners {
  import opened Preorder
  import opened TocTree
  import opened TocExpansion
  import opened TocLoads
  import opened TocTransit

  lemma {:induction false} PrunesTransitive(a: Node, b: Node, c: Node)
    requires Prunes(a, b) && Prunes(b, c)
    ensures Prunes(a, c)
    decreases a
  {
    forall i | 0 <= i < |a.kids| ensures Prunes(a.kids[i], c.kids[i]) {
      PrunesTransitive(a.kids[i], b.kids[i], c.kids[i]);
    }
  }

  lemma {:induction false} RepeatPrefix<T>(n: nat, s: seq<T>)
    requires n > 0
    ensures Repeat(n, s) <= s + Repeat(n, s)
  {
    if n > 1 {
      RepeatPrefix(n - 1, s);
    }
  }

  /** An element that comes to more makes the whole tree one with more. */
  lemma {:induction false} PutPrunes(t: Table, above: System, e: Entry, p: Path, x: Entry)
    requires Sound(t, above, e) && In(e, p) && Sound(t, OwnerAbove(t, above, e, p), x)
    requires Sound(t, OwnerAbove(t, above, e, p), At(e, p))
    requires Prunes(Full(Final, t, OwnerAbove(t, above, e, p), At(e, p)),
                    Full(Final, t, OwnerAbove(t, above, e, p), x))
    ensures Sound(t, above, Put(e, p, x))
    ensures Prunes(Full(Final, t, above, e), Full(Final, t, above, Put(e, p, x)))
    decreases p
  {
    if p != [] {
      var own, kid := OwnerOf(t, above, e), Put(e.kids[p[0]], p[1..], x);
      PutPrunes(t, own, e.kids[p[0]], p[1..], x);
      KidReplacedSound(t, above, e, p[0], kid);
      KidReplaced(Final, t, above, e, p[0], kid);
      KidPrunes(Full(Final, t, above, e), p[0], Full(Final, t, own, kid));
    }
  }

  lemma KidPrunes(n: Node, i: nat, kid: Node)
    requires i < |n.kids| && Prunes(n.kids[i], kid)
    ensures Prunes(n, n.(kids := n.kids[i := kid]))
  {
    forall j | 0 <= j < |n.kids| ensures Prunes(n.kids[j], n.kids[i := kid][j]) {
      PrunesItself(n.kids[j]);
    }
  }

  /** No request or arrival takes anything from the fully expanded tree. */
  lemma {:induction false} StepPrunes(above: System, s: State, ev: Event)
    requires Sound(s.t, above, s.root) && Legal(s, ev)
    ensures var u := Step(above, s, ev);
      Sound(u.t, above, u.root) && Prunes(Full(Final, s.t, above, s.root), Full(Final, u.t, above, u.root))
  {
    StepKeepsOrGrows(above, s, ev);
    if Repeats(above, s, ev) {
      var e, up := At(s.root, ev.p), OwnerAbove(s.t, above, s.root, ev.p);
      InMemoryInFull(Final, s.t, above, s.root, ev.p);
      ChunkAskedFull(s.t, up, e);
      RepeatPrefix(e.coming, FileNodes(s.t, OwnerOf(s.t, up, e), ChunkOf(s.t, OwnerOf(s.t, up, e), e)));
      PrunesPrefix(Full(Final, s.t, up, e), Full(Final, s.t, up, ChunkAsked(e)));
      PutPrunes(s.t, above, s.root, ev.p, ChunkAsked(e));
    } else {
      PrunesItself(Full(Final, s.t, above, s.root));
    }
  }

  lemma {:induction false} RunPrunes(above: System, s: State, events: seq<Event>, u: State)
    requires Sound(s.t, above, s.root) && Run(above, s, events, u)
    ensures Sound(u.t, above, u.root)
    ensures Prunes(Full(Final, s.t, above, s.root), Full(Final, u.t, above, u.root))
    decreases |events|
  {
    if events == [] {
      PrunesItself(Full(Final, s.t, above, s.root));
    } else {
      var v := Step(above, s, events[0]);
      StepPrunes(above, s, events[0]);
      RunPrunes(above, v, events[1..], u);
      PrunesTransitive(Full(Final, s.t, above, s.root), Full(Final, v.t, above, v.root),
                       Full(Final, u.t, above, u.root));
    }
  }

  /** The tree taken from a document, with nothing loaded. */
  function Imported(t: Table, d: nat, owner: System, document: Item): (s: State)
    requires WellFormed(t, d, owner, document)
    ensures Sound(s.t, owner, s.root)
    ensures Full(Final, s.t, owner, s.root) == Expand(t, d, owner, document)
  {
    ImportExpands(Final, t, d, owner, document);
    State(t, Import(document))
  }

  /** After any requests and arrivals from the imported document on, the owner found in memory for an element is
      the system it belongs to in the document's expansion exactly when its own merge is not still to be
      requested. Every element is in the expansion unless a chunk was requested again while it was on its way. */
  lemma {:induction false} OwnerAtAnyTime(t: Table, d: nat, owner: System, document: Item, events: seq<Event>,
                                          u: State, p: Path)
    requires WellFormed(t, d, owner, document)
    requires Run(owner, Imported(t, d, owner, document), events, u) && In(u.root, p)
    ensures !RepeatsIn(owner, Imported(t, d, owner, document), events) ==> InFull(Expand(t, d, owner, document), p)
    ensures InFull(Expand(t, d, owner, document), p) ==>
      (AtFull(Expand(t, d, owner, document), p).owner == OwnerAt(u.t, owner, u.root, p)
       <==> !At(u.root, p).pending.Merge?)
  {
    var s := Imported(t, d, owner, document);
    RunPrunes(owner, s, events, u);
    RunKeepsFull(owner, s, events, u);
    OwnerStoodFor(Final, u.t, owner, u.root, p);
    var _ := PrunedAt(Expand(t, d, owner, document), Full(Final, u.t, owner, u.root), p);
  }
}
