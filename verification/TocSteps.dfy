/** Facts about the tree in memory that the operations of TocFile rely on. */
module TocSteps {
  import opened Options
  import opened Preorder
  import opened TocTree
  import opened TocExpansion
  import opened TocLoads
  import opened TocNavigation
  import opened TocPaths
  import opened Text

  /** The children that an element shows are those it has at present. */
  lemma KidsShown(t: Table, above: System, e: Entry, a: Path)
    requires Sound(t, above, e) && In(e, a) && At(e, a).kids != []
    ensures InFull(Full(Present, t, above, e), a)
    ensures KidAttrs(AtFull(Full(Present, t, above, e), a)) == EntryAttrs(At(e, a))
  {
    InMemoryInFull(Present, t, above, e, a);
  }

  /** Where following a path's steps stops: at an element to load first, or for good. */
  datatype Walk = AtPending(p: Path) | Ended(outcome: Outcome)

  /** A loaded element and its children look in memory as they do in the expanded tree at present. */
  lemma AttrsInFull(t: Table, above: System, e: Entry, c: Path)
    requires Sound(t, above, e) && In(e, c) && At(e, c).pending.Nothing?
    ensures InFull(Full(Present, t, above, e), c)
    ensures AtFull(Full(Present, t, above, e), c).attrs == At(e, c).attrs
    ensures AtFull(Full(Present, t, above, e), c).owner == OwnerAt(t, above, e, c)
    ensures KidAttrs(AtFull(Full(Present, t, above, e), c)) == EntryAttrs(At(e, c))
  {
    InMemoryInFull(Present, t, above, e, c);
  }

  lemma PickedIn(e: Entry, c: Path, found: Option<Path>)
    requires In(e, c)
    requires found.Some? ==> found.value == [] || (|found.value| == 1 && found.value[0] < |At(e, c).kids|)
    ensures found.Some? ==> In(e, c + found.value)
  {
    if found.Some? {
      if found.value == [] {
        assert c + [] == c;
      } else {
        AtChild(e, c, found.value[0]);
        assert found.value == [found.value[0]];
      }
    }
  }

  /** The last part of a printed path, with the element's own title when it prints one. */
  lemma OwnStep(e: Entry, p: Path, path: string)
    requires In(e, p) && p != [] && PrintedPath(e, p).Some?
    requires path == (if At(e, p).kids != [] then TitleText(At(e, p).attrs) + "|" else "")
                     + "$$$$$" + Decimal(FinalStep(e, p))
    ensures PrintedPath(e, p) == Some(Join(Books(e, p, |p| - 1) + [path], '|'))
  {
    var last := "$$$$$" + Decimal(FinalStep(e, p));
    if At(e, p).kids == [] {
      assert path == last;
    } else {
      assert p[..|p|] == p;
      assert path == TitleText(At(e, p).attrs) + "|" + last;
      JoinStep(e, p, |p|, last);
    }
  }

  /** Joining a title to what follows it is one step of joining them all. */
  lemma JoinStep(e: Entry, p: Path, m: nat, path: string)
    requires In(e, p) && 0 < m <= |p|
    ensures In(e, p[..m])
    ensures Join(Books(e, p, m) + [path], '|')
         == Join(Books(e, p, m - 1) + [TitleText(At(e, p[..m]).attrs) + "|" + path], '|')
  {
    PrefixIn(e, p, m);
    var title, before := TitleText(At(e, p[..m]).attrs), Books(e, p, m - 1);
    assert Books(e, p, m) + [path] == before + [title, path];
    JoinTwo(before, title, path, '|');
  }

  lemma {:induction false} JoinTwo(before: seq<string>, a: string, b: string, c: char)
    ensures Join(before + [a, b], c) == Join(before + [a + [c] + b], c)
  {
    if before == [] {
      assert before + [a, b] == [a, b] && before + [a + [c] + b] == [a + [c] + b];
      assert [a, b][1..] == [b];
    } else {
      assert (before + [a, b])[1..] == before[1..] + [a, b];
      assert (before + [a + [c] + b])[1..] == before[1..] + [a + [c] + b];
      JoinTwo(before[1..], a, b, c);
    }
  }

  lemma PreviousIn(e: Entry, p: Path)
    requires In(e, p) && p != [] && Last(p) > 0
    ensures In(e, PreviousSibling(p))
  {
    AtParent(e, p);
    AtChild(e, Parent(p), Last(p) - 1);
  }

  lemma SiblingGap(t: Table, above: System, e: Entry, p: Path)
    requires Sound(t, above, e) && In(e, p) && p != [] && Last(p) > 0
    ensures In(e, PreviousSibling(p)) && GapIsUnder(Full(Present, t, above, e), p, PreviousSibling(p))
  {
    var c := PreviousSibling(p);
    PreviousIn(e, p);
    InMemoryInFull(Present, t, above, e, p);
    InMemoryInFull(Present, t, above, e, c);
    SiblingsInverse(p);
    PreviousSiblingGap(Full(Present, t, above, e), p, c);
  }

  /** With nothing left in `c`, its next sibling in memory is next, or else nothing is left in its parent. */
  lemma ClimbStep(t: Table, above: System, e: Entry, p: Path, c: Path)
    requires Sound(t, above, e) && In(e, c) && c != []
    requires InFull(Full(Present, t, above, e), p) && NothingLeftIn(Full(Present, t, above, e), p, c)
    ensures In(e, Parent(c))
    ensures if Last(c) + 1 < |At(e, Parent(c)).kids|
            then In(e, NextSibling(c)) && Adjacent(Full(Present, t, above, e), Next, p, Some(NextSibling(c)))
            else NothingLeftIn(Full(Present, t, above, e), p, Parent(c))
  {
    var n, a := Full(Present, t, above, e), Parent(c);
    AtParent(e, c);
    ShowsChildren(t, above, e, a);
    AtChild(e, a, Last(c) + 1);
    FullChild(n, a, Last(c) + 1);
    ClimbNext(n, p, c);
  }

  /** The way down from `e` along last children, or nothing when it has none. */
  function DeepestChild(e: Entry): Option<Path> {
    if e.kids == [] then None
    else
      var last := |e.kids| - 1;
      match DeepestChild(e.kids[last])
      case None => Some([last])
      case Some(below) => Some([last] + below)
  }

  /** Going down along last children in memory goes down along last children of the expanded
      tree: it keeps everything between the descent and `p` below. */
  lemma {:induction false} DeepestChildGap(t: Table, above: System, e: Entry, p: Path, c: Path)
    requires Sound(t, above, e) && In(e, c) && At(e, c).kids != []
    requires GapIsUnder(Full(Present, t, above, e), p, c)
    ensures var d := c + DeepestChild(At(e, c)).value;
            c < d && In(e, d) && Before(c, d) && GapIsUnder(Full(Present, t, above, e), p, d)
    decreases At(e, c)
  {
    ShowsChildren(t, above, e, c);
    DescendGap(Full(Present, t, above, e), p, c);
    var last := |At(e, c).kids| - 1;
    var b: Path := c + [last];
    AtChild(e, c, last);
    var below := DeepestChild(At(e, b));
    if below == None {
      assert DeepestChild(At(e, c)) == Some([last]);
      AncestorBefore(c, b);
    } else {
      assert DeepestChild(At(e, c)) == Some([last] + below.value);
      DeepestChildGap(t, above, e, p, b);
      Regroup(c, last, below.value);
      AncestorBefore(c, c + ([last] + below.value));
    }
  }

  /** Every element of `e` is still in `e'`, with what it showed, and nothing loaded got unloaded. */
  ghost predicate Grown(e: Entry, e': Entry) {
    forall q | In(e, q) ::
      && In(e', q) && At(e', q).attrs == At(e, q).attrs
      && (At(e, q).pending.Nothing? ==> At(e', q).pending.Nothing?)
  }

  lemma PutGrows(e: Entry, p: Path, x: Entry)
    requires In(e, p) && At(e, p).kids <= x.kids
    requires x.attrs == At(e, p).attrs && (At(e, p).pending.Nothing? ==> x.pending.Nothing?)
    ensures Grown(e, Put(e, p, x)) && In(Put(e, p, x), p) && At(Put(e, p, x), p) == x
  {
    PutAt(e, p, x, p);
    forall q | In(e, q)
      ensures In(Put(e, p, x), q) && At(Put(e, p, x), q).attrs == At(e, q).attrs
      ensures At(e, q).pending.Nothing? ==> At(Put(e, p, x), q).pending.Nothing?
    {
      PutAt(e, p, x, q);
    }
  }

  /** No chunk that is still stood for has a request on its way. */
  predicate Unasked(e: Entry) {
    (e.pending.Chunk? ==> e.coming == 0) && forall i | 0 <= i < |e.kids| :: Unasked(e.kids[i])
  }

  lemma {:induction false} PutUnasked(e: Entry, p: Path, x: Entry)
    requires In(e, p) && Unasked(e) && Unasked(x)
    ensures Unasked(Put(e, p, x))
    decreases p
  {
    if p != [] {
      PutUnasked(e.kids[p[0]], p[1..], x);
    }
  }

  lemma {:induction false} UnaskedAt(e: Entry, p: Path)
    requires In(e, p) && Unasked(e)
    ensures Unasked(At(e, p))
    decreases p
  {
    if p != [] {
      UnaskedAt(e.kids[p[0]], p[1..]);
    }
  }

  lemma {:induction false} ImportUnasked(item: Item)
    ensures Unasked(Import(item))
  {
    forall i | 0 <= i < |item.kids| ensures Unasked(Import(item.kids[i])) {
      ImportUnasked(item.kids[i]);
    }
  }

  lemma ImportAllUnasked(items: seq<Item>)
    ensures forall i | 0 <= i < |items| :: Unasked(ImportAll(items)[i])
  {
    forall i | 0 <= i < |items| ensures Unasked(ImportAll(items)[i]) {
      ImportUnasked(items[i]);
    }
  }

  // ----- Loads without others in between -----

  /** What a chunk that is requested and then arrives leaves in place of its element. */
  function ChunkLoaded(t: Table, own: System, e: Entry): Entry
    requires e.pending.Chunk? && FileOf(t, own, e.pending.name) in t.files
  {
    ChunkPut(t, own, ChunkAsked(e))
  }

  /** The present tree does not change, nor does the final one unless the chunk was requested before. */
  lemma {:induction false} ChunkLoadedFull(t: Table, up: System, e: Entry)
    requires Sound(t, up, e) && e.pending.Chunk?
    ensures Sound(t, up, ChunkLoaded(t, OwnerOf(t, up, e), e))
    ensures Full(Present, t, up, ChunkLoaded(t, OwnerOf(t, up, e), e)) == Full(Present, t, up, e)
    ensures e.coming == 0 ==> Full(Final, t, up, ChunkLoaded(t, OwnerOf(t, up, e), e)) == Full(Final, t, up, e)
  {
    var own := OwnerOf(t, up, e);
    var f := FileOf(t, own, e.pending.name);
    ChunkAskedFull(t, up, e);
    ChunkPutFull(t, up, ChunkAsked(e));
    ImportAllExpands(Present, t, t.files[f].depth, own, t.files[f].doc);
    assert e.kids + ImportAll(t.files[f].doc) == ImportAll(t.files[f].doc);
    assert FileNodes(t, own, f) + [] == FileNodes(t, own, f);
  }

  lemma {:induction false} ChunkLoadKeeps(t: Table, above: System, e: Entry, p: Path)
    requires Sound(t, above, e) && In(e, p) && At(e, p).pending.Chunk?
    requires FileOf(t, OwnerAt(t, above, e, p), At(e, p).pending.name) in t.files
    ensures var x := ChunkLoaded(t, OwnerAt(t, above, e, p), At(e, p));
      && Sound(t, above, Put(e, p, x))
      && Full(Present, t, above, Put(e, p, x)) == Full(Present, t, above, e)
      && (Unasked(e) ==> Unasked(Put(e, p, x)))
      && (Unasked(e) ==> Full(Final, t, above, Put(e, p, x)) == Full(Final, t, above, e))
  {
    var up := OwnerAbove(t, above, e, p);
    var x := ChunkLoaded(t, OwnerAt(t, above, e, p), At(e, p));
    InMemoryInFull(Present, t, above, e, p);
    ChunkLoadedFull(t, up, At(e, p));
    PutKeepsFull(Present, t, above, e, p, x);
    if Unasked(e) {
      UnaskedAt(e, p);
      PutKeepsFull(Final, t, above, e, p, x);
      ImportAllUnasked(t.files[FileOf(t, OwnerOf(t, up, At(e, p)), At(e, p).pending.name)].doc);
      PutUnasked(e, p, x);
    }
  }

  function MergeLoaded(t: Table, sub: System, e: Entry): Entry {
    MergePut(sub, MergeAsked(t, e))
  }

  lemma {:induction false} MergeLoadKeeps(t: Table, above: System, e: Entry, p: Path, sub: System)
    requires Sound(t, above, e) && In(e, p) && At(e, p).pending.Merge?
    requires At(e, p).pending.hint < |OwnerAt(t, above, e, p).subs|
    requires sub == OwnerAt(t, above, e, p).subs[At(e, p).pending.hint]
    ensures Sound(More(t, sub), above, Put(e, p, MergeLoaded(t, sub, At(e, p))))
    ensures Full(Present, More(t, sub), above, Put(e, p, MergeLoaded(t, sub, At(e, p)))) == Full(Present, t, above, e)
  {
    var up := OwnerAbove(t, above, e, p);
    InMemoryInFull(Present, t, above, e, p);
    MoreOwners(Present, t, sub, above, e);
    MoreOwnersAbove(t, sub, above, e, p);
    MoreOwners(Present, t, sub, up, At(e, p));
    MergeLoadedFull(t, up, At(e, p));
    PutKeepsFull(Present, More(t, sub), above, e, p, MergeLoaded(t, sub, At(e, p)));
  }

  lemma {:induction false} MergeLoadUnasked(t: Table, e: Entry, p: Path, sub: System)
    requires In(e, p) && Unasked(e) && At(e, p).kids == []
    ensures Unasked(Put(e, p, MergeLoaded(t, sub, At(e, p))))
  {
    ImportAllUnasked(sub.data.toc);
    assert At(e, p).kids + ImportAll(sub.data.toc) == ImportAll(sub.data.toc);
    PutUnasked(e, p, MergeLoaded(t, sub, At(e, p)));
  }

  lemma {:induction false} MergeLoadedFull(t: Table, up: System, e: Entry)
    requires Sound(t, up, e) && e.pending.Merge?
    ensures var sub := OwnerOf(t, up, e).subs[e.pending.hint];
      && Sound(More(t, sub), up, MergeLoaded(t, sub, e))
      && Full(Present, More(t, sub), up, MergeLoaded(t, sub, e)) == Full(Present, t, up, e)
  {
    var sub := OwnerOf(t, up, e).subs[e.pending.hint];
    var more := More(t, sub);
    MoreOwnersToc(t, sub, sub);
    ImportAllExpands(Present, more, more.top, sub, sub.data.toc);
    assert e.kids + ImportAll(sub.data.toc) == ImportAll(sub.data.toc);
    assert TocNodes(t, sub) + [] == TocNodes(t, sub);
  }

  // ----- The round trip -----

  lemma {:induction false} StepGrown(above: System, s: State, ev: Event)
    requires Sound(s.t, above, s.root) && Legal(s, ev)
    ensures Grown(s.root, Step(above, s, ev).root)
  {
    InMemoryInFull(Final, s.t, above, s.root, ev.p);
    var e, own := At(s.root, ev.p), OwnerAt(s.t, above, s.root, ev.p);
    match ev
    case ChunkRequested(p) => PutGrows(s.root, p, ChunkAsked(e));
    case ChunkArrived(p) => PutGrows(s.root, p, ChunkPut(s.t, own, e));
    case MergeRequested(p) => PutGrows(s.root, p, MergeAsked(s.t, e));
    case MergeArrived(p) => PutGrows(s.root, p, MergePut(own, e));
  }

  /** Requests and arrivals take no element and no attribute away. */
  lemma {:induction false} RunGrown(above: System, s: State, events: seq<Event>, u: State)
    requires Sound(s.t, above, s.root) && Run(above, s, events, u)
    ensures Sound(u.t, above, u.root) && Grown(s.root, u.root)
    decreases |events|
  {
    if events != [] {
      StepSound(above, s, events[0]);
      StepGrown(above, s, events[0]);
      RunGrown(above, Step(above, s, events[0]), events[1..], u);
    }
  }

  /** After any requests and arrivals since the path of `p` was printed, resolving it returns to `p` exactly when
      the books on it are findable. */
  lemma {:induction false} RoundTrip(v: View, above: System, s: State, events: seq<Event>, u: State, p: Path,
                                     href: string, htmlHelp: bool)
    requires Sound(s.t, above, s.root) && Run(above, s, events, u)
    requires In(s.root, p) && p != [] && PrintedPath(s.root, p).Some?
    ensures Sound(u.t, above, u.root) && InFull(Full(v, u.t, above, u.root), p)
    ensures Resolve(Full(v, u.t, above, u.root), PrintedPath(s.root, p).value, href, htmlHelp) == Found(p)
       <==> BooksFindable(Full(v, u.t, above, u.root), p, BookCount(s.root, p))
  {
    RunGrown(above, s, events, u);
    SameBooks(s.root, u.root, p, BookCount(s.root, p));
    PathReturns(v, u.t, above, u.root, p, BookCount(s.root, p), FinalStep(s.root, p), href, htmlHelp);
  }

  lemma SameBooks(e: Entry, e': Entry, p: Path, m: nat)
    requires In(e, p) && In(e', p) && Grown(e, e') && m <= |p|
    ensures Books(e, p, m) == Books(e', p, m)
  {
    PrefixesIn(e, p);
    PrefixesIn(e', p);
  }
}
