/** The loads that expand a table of contents: a chunk or a merge is requested, and its document arrives
    some time later, with any other requests and arrivals in between. */
module TocLoads {
  import opened Options
  import opened Preorder
  import opened TocTree
  import opened TocExpansion

  /** What loading changes. */
  datatype State = State(t: Table, root: Entry)

  datatype Event = ChunkRequested(p: Path) | ChunkArrived(p: Path) | MergeRequested(p: Path) | MergeArrived(p: Path)

  // ----- What a load does to its element -----

  /** The chunk file of an element of `own`, from its attribute or from when the attribute was there. */
  function ChunkOf(t: Table, own: System, e: Entry): string
    requires e.pending.Chunk? || e.chunk.Some?
  {
    if e.pending.Chunk? then FileOf(t, own, e.pending.name) else e.chunk.value
  }

  /** A chunk is requested: the attribute stays, and nothing else tells. */
  function ChunkAsked(e: Entry): Entry {
    e.(coming := e.coming + 1)
  }

  /** The document of a requested chunk is delivered: the attribute goes, and its elements are appended. */
  function ChunkPut(t: Table, own: System, e: Entry): Entry
    requires e.coming > 0 && (e.pending.Chunk? || e.chunk.Some?) && ChunkOf(t, own, e) in t.files
  {
    var f := ChunkOf(t, own, e);
    e.(pending := Nothing, chunk := Some(f), coming := e.coming - 1, kids := e.kids + ImportAll(t.files[f].doc))
  }

  /** A merge is requested: the hint goes, and the element is recorded as the next owner's. */
  function MergeAsked(t: Table, e: Entry): Entry {
    e.(pending := Nothing, arriving := true, ownerIndex := Some(|t.owners|))
  }

  /** The document of a requested merge is delivered. */
  function MergePut(own: System, e: Entry): Entry {
    e.(arriving := false, kids := e.kids + ImportAll(own.data.toc))
  }

  // ----- Runs -----

  predicate Legal(s: State, ev: Event) {
    In(s.root, ev.p) &&
    match ev
    case ChunkRequested(p) => At(s.root, p).pending.Chunk?
    case ChunkArrived(p) => At(s.root, p).coming > 0
    case MergeRequested(p) => At(s.root, p).pending.Merge?
    case MergeArrived(p) => At(s.root, p).arriving
  }

  function Step(above: System, s: State, ev: Event): State
    requires Sound(s.t, above, s.root) && Legal(s, ev)
  {
    var e, own := At(s.root, ev.p), OwnerAt(s.t, above, s.root, ev.p);
    InMemoryInFull(Final, s.t, above, s.root, ev.p);
    match ev
    case ChunkRequested(p) => s.(root := Put(s.root, p, ChunkAsked(e)))
    case ChunkArrived(p) => s.(root := Put(s.root, p, ChunkPut(s.t, own, e)))
    case MergeRequested(p) => State(More(s.t, own.subs[e.pending.hint]), Put(s.root, p, MergeAsked(s.t, e)))
    case MergeArrived(p) => s.(root := Put(s.root, p, MergePut(own, e)))
  }

  /** A chunk with elements is requested while a request for it is on its way. */
  predicate Repeats(above: System, s: State, ev: Event)
    requires Sound(s.t, above, s.root) && Legal(s, ev)
  {
    InMemoryInFull(Final, s.t, above, s.root, ev.p);
    var e := At(s.root, ev.p);
    ev.ChunkRequested? && e.coming > 0 && s.t.files[ChunkOf(s.t, OwnerAt(s.t, above, s.root, ev.p), e)].doc != []
  }

  /** `u` is reached from `s` by `events`. */
  ghost predicate Run(above: System, s: State, events: seq<Event>, u: State)
    requires Sound(s.t, above, s.root)
    decreases |events|
  {
    if events == [] then s == u
    else
      Legal(s, events[0]) &&
      (StepSound(above, s, events[0]); Run(above, Step(above, s, events[0]), events[1..], u))
  }

  /** Some request of the run is for a chunk with elements that a request is on its way for. */
  ghost predicate RepeatsIn(above: System, s: State, events: seq<Event>)
    requires Sound(s.t, above, s.root)
    decreases |events|
  {
    events != [] && Legal(s, events[0]) &&
    (Repeats(above, s, events[0])
     || (StepSound(above, s, events[0]); RepeatsIn(above, Step(above, s, events[0]), events[1..])))
  }

  // ----- Loads of one element -----

  lemma RepeatMore<T>(n: nat, s: seq<T>)
    requires n > 0
    ensures Repeat(n + 1, s) == s + Repeat(n, s)
  {
  }

  /** A request for a chunk adds a copy of it to what is to come unless it is the first. */
  lemma {:induction false} ChunkAskedFull(t: Table, up: System, e: Entry)
    requires Sound(t, up, e) && e.pending.Chunk?
    ensures Sound(t, up, ChunkAsked(e))
    ensures Full(Present, t, up, ChunkAsked(e)) == Full(Present, t, up, e)
    ensures e.coming == 0 ==> Full(Final, t, up, ChunkAsked(e)) == Full(Final, t, up, e)
    ensures var n := Full(Final, t, up, e);
      var f := ChunkOf(t, OwnerOf(t, up, e), e);
      e.coming > 0 ==> Full(Final, t, up, ChunkAsked(e)) == n.(kids := FileNodes(t, OwnerOf(t, up, e), f) + n.kids)
  {
    if e.coming > 0 {
      RepeatMore(e.coming, FileNodes(t, OwnerOf(t, up, e), ChunkOf(t, OwnerOf(t, up, e), e)));
    }
  }

  lemma RepeatFewer<T>(n: nat, s: seq<T>, before: seq<T>)
    requires n > 0
    ensures before + Repeat(n, s) == (before + s) + Repeat(n - 1, s)
    ensures before == [] ==> Repeat(n, s) == (before + s) + Repeat(n - 1, s)
  {
    if n > 1 {
      RepeatMore(n - 1, s);
    }
  }

  /** A chunk's arrival puts in place what was to come. */
  lemma {:induction false} ChunkPutFull(t: Table, up: System, e: Entry)
    requires Sound(t, up, e) && e.coming > 0
    ensures Sound(t, up, ChunkPut(t, OwnerOf(t, up, e), e))
    ensures Full(Final, t, up, ChunkPut(t, OwnerOf(t, up, e), e)) == Full(Final, t, up, e)
  {
    var own := OwnerOf(t, up, e);
    var f := ChunkOf(t, own, e);
    ChunkPutSound(t, up, e);
    FullConcat(Final, t, own, e.kids, ImportAll(t.files[f].doc));
    ImportAllExpands(Final, t, t.files[f].depth, own, t.files[f].doc);
    RepeatFewer(e.coming, FileNodes(t, own, f), FullAll(Final, t, own, e.kids));
  }

  lemma {:induction false} ChunkPutSound(t: Table, up: System, e: Entry)
    requires Sound(t, up, e) && e.coming > 0
    ensures Sound(t, up, ChunkPut(t, OwnerOf(t, up, e), e))
  {
    var own := OwnerOf(t, up, e);
    var f := ChunkOf(t, own, e);
    ImportAllExpands(Final, t, t.files[f].depth, own, t.files[f].doc);
  }

  lemma FullConcat(v: View, t: Table, above: System, a: seq<Entry>, b: seq<Entry>)
    requires forall k | k in a + b :: Sound(t, above, k)
    ensures FullAll(v, t, above, a + b) == FullAll(v, t, above, a) + FullAll(v, t, above, b)
  {
  }

  lemma {:induction false} MergeAskedFull(t: Table, up: System, e: Entry)
    requires Sound(t, up, e) && e.pending.Merge?
    ensures var sub := OwnerOf(t, up, e).subs[e.pending.hint];
      && Sound(More(t, sub), up, MergeAsked(t, e))
      && Full(Final, More(t, sub), up, MergeAsked(t, e)) == Full(Final, t, up, e)
  {
    var sub := OwnerOf(t, up, e).subs[e.pending.hint];
    MoreOwnersToc(t, sub, sub);
    assert OwnerOf(More(t, sub), up, MergeAsked(t, e)) == sub;
    assert FullAll(Final, More(t, sub), sub, []) + TocNodes(t, sub) == TocNodes(t, sub);
  }

  lemma {:induction false} MergePutFull(t: Table, up: System, e: Entry)
    requires Sound(t, up, e) && e.arriving
    ensures Sound(t, up, MergePut(OwnerOf(t, up, e), e))
    ensures Full(Final, t, up, MergePut(OwnerOf(t, up, e), e)) == Full(Final, t, up, e)
  {
    var own := OwnerOf(t, up, e);
    ImportAllExpands(Final, t, t.top, own, own.data.toc);
    assert e.kids + ImportAll(own.data.toc) == ImportAll(own.data.toc);
    assert TocNodes(t, own) + [] == [] + TocNodes(t, own);
  }

  // ----- Loads in the tree -----

  lemma {:induction false} StepSound(above: System, s: State, ev: Event)
    requires Sound(s.t, above, s.root) && Legal(s, ev)
    ensures Sound(Step(above, s, ev).t, above, Step(above, s, ev).root)
  {
    StepKeepsOrGrows(above, s, ev);
  }

  /** An arrival and the first request for something keep the fully expanded tree; a repeated request for
      a chunk with elements makes it larger. */
  lemma {:induction false} StepKeepsOrGrows(above: System, s: State, ev: Event)
    requires Sound(s.t, above, s.root) && Legal(s, ev)
    ensures var u := Step(above, s, ev);
      && Sound(u.t, above, u.root)
      && (!Repeats(above, s, ev) ==> Full(Final, u.t, above, u.root) == Full(Final, s.t, above, s.root))
      && (Repeats(above, s, ev) ==> Size(Full(Final, u.t, above, u.root)) > Size(Full(Final, s.t, above, s.root)))
  {
    var e, up := At(s.root, ev.p), OwnerAbove(s.t, above, s.root, ev.p);
    InMemoryInFull(Final, s.t, above, s.root, ev.p);
    match ev
    case ChunkRequested(p) => RequestKeepsOrGrows(above, s, p);
    case ChunkArrived(p) =>
      ChunkPutFull(s.t, up, e);
      PutKeepsFull(Final, s.t, above, s.root, p, ChunkPut(s.t, OwnerOf(s.t, up, e), e));
    case MergeRequested(p) =>
      var sub := OwnerOf(s.t, up, e).subs[e.pending.hint];
      MergeAskedFull(s.t, up, e);
      MoreOwners(Final, s.t, sub, above, s.root);
      MoreOwnersAbove(s.t, sub, above, s.root, p);
      MoreOwners(Final, s.t, sub, up, e);
      PutKeepsFull(Final, More(s.t, sub), above, s.root, p, MergeAsked(s.t, e));
    case MergeArrived(p) =>
      MergePutFull(s.t, up, e);
      PutKeepsFull(Final, s.t, above, s.root, p, MergePut(OwnerOf(s.t, up, e), e));
  }

  lemma {:induction false} RequestKeepsOrGrows(above: System, s: State, p: Path)
    requires Sound(s.t, above, s.root) && Legal(s, ChunkRequested(p))
    ensures var u := Step(above, s, ChunkRequested(p));
      && Sound(u.t, above, u.root)
      && (!Repeats(above, s, ChunkRequested(p)) ==> Full(Final, u.t, above, u.root) == Full(Final, s.t, above, s.root))
      && (Repeats(above, s, ChunkRequested(p)) ==>
            Size(Full(Final, u.t, above, u.root)) > Size(Full(Final, s.t, above, s.root)))
  {
    var e, up := At(s.root, p), OwnerAbove(s.t, above, s.root, p);
    InMemoryInFull(Final, s.t, above, s.root, p);
    ChunkAskedFull(s.t, up, e);
    if Repeats(above, s, ChunkRequested(p)) {
      var nodes, kids := FileNodes(s.t, OwnerOf(s.t, up, e), ChunkOf(s.t, OwnerOf(s.t, up, e), e)),
                         Full(Final, s.t, up, e).kids;
      SizeConcat(nodes, kids);
      SizePositive(nodes);
      PutGrowsFull(s.t, above, s.root, p, ChunkAsked(e));
    } else {
      assert [] + Full(Final, s.t, up, e).kids == Full(Final, s.t, up, e).kids;
      PutKeepsFull(Final, s.t, above, s.root, p, ChunkAsked(e));
    }
  }

  // ----- Sizes -----

  /** The number of elements of an expanded tree. */
  function Size(n: Node): nat {
    1 + SizeAll(n.kids)
  }

  function SizeAll(s: seq<Node>): nat {
    if s == [] then 0 else Size(s[0]) + SizeAll(s[1..])
  }

  lemma {:induction false} SizeConcat(a: seq<Node>, b: seq<Node>)
    ensures SizeAll(a + b) == SizeAll(a) + SizeAll(b)
  {
    if a == [] {
      assert a + b == b;
    } else {
      assert (a + b)[1..] == a[1..] + b;
      SizeConcat(a[1..], b);
    }
  }

  lemma SizePositive(a: seq<Node>)
    ensures a != [] ==> SizeAll(a) > 0
  {
  }

  lemma {:induction false} SizeSet(s: seq<Node>, i: nat, x: Node)
    requires i < |s|
    ensures SizeAll(s[i := x]) == SizeAll(s) - Size(s[i]) + Size(x)
  {
    if i == 0 {
      assert s[i := x][1..] == s[1..];
    } else {
      assert s[i := x][1..] == s[1..][i - 1 := x];
      SizeSet(s[1..], i - 1, x);
    }
  }

  lemma {:induction false} PutGrowsFull(t: Table, above: System, e: Entry, p: Path, x: Entry)
    requires Sound(t, above, e) && In(e, p) && Sound(t, OwnerAbove(t, above, e, p), x)
    requires Sound(t, OwnerAbove(t, above, e, p), At(e, p))
    requires Size(Full(Final, t, OwnerAbove(t, above, e, p), x))
           > Size(Full(Final, t, OwnerAbove(t, above, e, p), At(e, p)))
    ensures Sound(t, above, Put(e, p, x))
    ensures Size(Full(Final, t, above, Put(e, p, x))) > Size(Full(Final, t, above, e))
    decreases p
  {
    if p != [] {
      var own, kid := OwnerOf(t, above, e), Put(e.kids[p[0]], p[1..], x);
      PutGrowsFull(t, own, e.kids[p[0]], p[1..], x);
      KidReplacedSound(t, above, e, p[0], kid);
      KidReplaced(Final, t, above, e, p[0], kid);
      SizeSet(Full(Final, t, above, e).kids, p[0], Full(Final, t, own, kid));
    }
  }

  // ----- Runs of loads -----

  lemma {:induction false} RunGrows(above: System, s: State, events: seq<Event>, u: State)
    requires Sound(s.t, above, s.root) && Run(above, s, events, u)
    ensures Sound(u.t, above, u.root)
    ensures Size(Full(Final, u.t, above, u.root)) >= Size(Full(Final, s.t, above, s.root))
    ensures RepeatsIn(above, s, events) ==>
      Size(Full(Final, u.t, above, u.root)) > Size(Full(Final, s.t, above, s.root))
    ensures !RepeatsIn(above, s, events) ==> Full(Final, u.t, above, u.root) == Full(Final, s.t, above, s.root)
    decreases |events|
  {
    if events != [] {
      StepKeepsOrGrows(above, s, events[0]);
      RunGrows(above, Step(above, s, events[0]), events[1..], u);
    }
  }

  /** A run of requests and arrivals, in any order, keeps the fully expanded tree exactly when it requests
      no chunk with elements while a request for it is on its way. */
  lemma {:induction false} RunKeepsFull(above: System, s: State, events: seq<Event>, u: State)
    requires Sound(s.t, above, s.root) && Run(above, s, events, u)
    ensures Sound(u.t, above, u.root)
    ensures Full(Final, u.t, above, u.root) == Full(Final, s.t, above, s.root) <==> !RepeatsIn(above, s, events)
  {
    RunGrows(above, s, events, u);
  }

  /** A run that does: a chunk is requested twice before it arrives, and ends up below its element twice. */
  lemma {:induction false} TwoRequests(above: System, s: State, p: Path) returns (u: State)
    requires Sound(s.t, above, s.root) && Legal(s, ChunkRequested(p)) && At(s.root, p).coming == 0
    requires var f := FileOf(s.t, OwnerAt(s.t, above, s.root, p), At(s.root, p).pending.name);
      f in s.t.files && s.t.files[f].doc != []
    ensures Run(above, s, [ChunkRequested(p), ChunkRequested(p), ChunkArrived(p), ChunkArrived(p)], u)
    ensures var f := FileOf(s.t, OwnerAt(s.t, above, s.root, p), At(s.root, p).pending.name);
      In(u.root, p) && At(u.root, p).kids == ImportAll(s.t.files[f].doc) + ImportAll(s.t.files[f].doc)
    ensures Sound(u.t, above, u.root) && Full(Final, u.t, above, u.root) != Full(Final, s.t, above, s.root)
  {
    InMemoryInFull(Final, s.t, above, s.root, p);
    var s1 := StepAt(above, s, ChunkRequested(p));
    var s2 := StepAt(above, s1, ChunkRequested(p));
    u := TwoArrivals(above, s2, p, At(s.root, p));
    var s3 := Step(above, s2, ChunkArrived(p));
    StepSound(above, s2, ChunkArrived(p));
    RunOfFour(above, s, ChunkRequested(p), s1, ChunkRequested(p), s2, ChunkArrived(p), s3, ChunkArrived(p), u);
    RunKeepsFull(above, s, [ChunkRequested(p), ChunkRequested(p), ChunkArrived(p), ChunkArrived(p)], u);
  }

  lemma {:induction false} TwoArrivals(above: System, s: State, p: Path, e: Entry) returns (u: State)
    requires Sound(s.t, above, s.root) && In(s.root, p) && e.pending.Chunk? && e.kids == [] && e.coming == 0
    requires At(s.root, p) == e.(coming := 2)
    requires FileOf(s.t, OwnerAt(s.t, above, s.root, p), e.pending.name) in s.t.files
    ensures Legal(s, ChunkArrived(p))
    ensures Sound(Step(above, s, ChunkArrived(p)).t, above, Step(above, s, ChunkArrived(p)).root)
    ensures Legal(Step(above, s, ChunkArrived(p)), ChunkArrived(p))
    ensures u == Step(above, Step(above, s, ChunkArrived(p)), ChunkArrived(p)) && Sound(u.t, above, u.root)
    ensures var f := FileOf(s.t, OwnerAt(s.t, above, s.root, p), e.pending.name);
      In(u.root, p) && At(u.root, p).kids == ImportAll(s.t.files[f].doc) + ImportAll(s.t.files[f].doc)
  {
    var s3 := StepAt(above, s, ChunkArrived(p));
    var doc := ImportAll(s.t.files[FileOf(s.t, OwnerAt(s.t, above, s.root, p), e.pending.name)].doc);
    assert At(s3.root, p).kids == doc by {
      assert [] + doc == doc;
    }
    u := StepAt(above, s3, ChunkArrived(p));
  }

  lemma {:induction false} RunOfFour(above: System, s: State, e1: Event, s1: State, e2: Event, s2: State,
                                     e3: Event, s3: State, e4: Event, s4: State)
    requires Sound(s.t, above, s.root) && Legal(s, e1) && s1 == Step(above, s, e1)
    requires Sound(s1.t, above, s1.root) && Legal(s1, e2) && s2 == Step(above, s1, e2)
    requires Sound(s2.t, above, s2.root) && Legal(s2, e3) && s3 == Step(above, s2, e3)
    requires Sound(s3.t, above, s3.root) && Legal(s3, e4) && s4 == Step(above, s3, e4)
    requires Sound(s4.t, above, s4.root)
    ensures Run(above, s, [e1, e2, e3, e4], s4)
    ensures Repeats(above, s1, e2) ==> RepeatsIn(above, s, [e1, e2, e3, e4])
  {
    assert [e4][1..] == [] && [e3, e4][1..] == [e4] && [e2, e3, e4][1..] == [e3, e4];
    assert [e1, e2, e3, e4][1..] == [e2, e3, e4];
    assert Run(above, s3, [e4], s4);
    assert Run(above, s2, [e3, e4], s4);
    assert Run(above, s1, [e2, e3, e4], s4);
  }

  /** A step changes its own element as it says, and the owners above it not at all. */
  lemma {:induction false} StepAt(above: System, s: State, ev: Event) returns (u: State)
    requires Sound(s.t, above, s.root) && Legal(s, ev) && (ev.ChunkRequested? || ev.ChunkArrived?)
    ensures u == Step(above, s, ev) && Sound(u.t, above, u.root) && u.t == s.t
    ensures In(u.root, ev.p) && OwnerAt(u.t, above, u.root, ev.p) == OwnerAt(s.t, above, s.root, ev.p)
    ensures ev.ChunkRequested? ==> At(u.root, ev.p) == ChunkAsked(At(s.root, ev.p))
    ensures ev.ChunkArrived? ==>
      Sound(s.t, OwnerAbove(s.t, above, s.root, ev.p), At(s.root, ev.p))
      && At(u.root, ev.p) == ChunkPut(s.t, OwnerAt(s.t, above, s.root, ev.p), At(s.root, ev.p))
  {
    u := Step(above, s, ev);
    StepSound(above, s, ev);
    InMemoryInFull(Final, s.t, above, s.root, ev.p);
    var e, up := At(s.root, ev.p), OwnerAbove(s.t, above, s.root, ev.p);
    ghost var x := if ev.ChunkRequested? then ChunkAsked(e) else ChunkPut(s.t, OwnerOf(s.t, up, e), e);
    if ev.ChunkRequested? {
      ChunkAskedFull(s.t, up, e);
    } else {
      ChunkPutSound(s.t, up, e);
    }
    PutSound(s.t, above, s.root, ev.p, x);
  }
}
