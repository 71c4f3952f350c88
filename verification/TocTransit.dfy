/** Moving between topics while documents are on their way: an element that awaits a document shows
    only the children it has. */
module TocTransit {
  import opened Options
  import opened Preorder
  import opened TocTree
  import opened TocExpansion
  import opened TocNavigation

  // ----- A tree and the same tree with more children -----

  /** `whole` is `n` with more children here and there, behind those that `n` has. */
  predicate Prunes(n: Node, whole: Node)
    decreases n
  {
    && n.attrs == whole.attrs && n.owner == whole.owner && |n.kids| <= |whole.kids|
    && forall i | 0 <= i < |n.kids| :: Prunes(n.kids[i], whole.kids[i])
  }

  /** Below `a` there is a topic in `whole` that comes behind the children `n` has there. */
  ghost predicate Hides(n: Node, whole: Node, rule: TopicRule, a: Path) {
    InFull(n, a) && exists r :: HiddenBelow(n, whole, rule, a, r)
  }

  ghost predicate HiddenBelow(n: Node, whole: Node, rule: TopicRule, a: Path, r: Path)
    requires InFull(n, a)
  {
    a < r && r[|a|] >= |AtFull(n, a).kids| && InFull(whole, r) && IsTopic(rule, AtFull(whole, r).attrs)
  }

  /** The place behind the children of `a`. */
  function Gap(n: Node, a: Path): Path
    requires InFull(n, a)
  {
    a + [|AtFull(n, a).kids|]
  }

  /** `g` lies ahead of `p` with no topic between. */
  ghost predicate Reaches(n: Node, rule: TopicRule, move: Move, p: Path, g: Path) {
    && Ahead(move, p, g)
    && forall r | InFull(n, r) && IsTopic(rule, AtFull(n, r).attrs) && Ahead(move, p, r) :: !Ahead(move, r, g)
  }

  // ----- Where hidden topics lie -----

  /** What is under a node that comes before `p`, and is not `p`'s ancestor, comes before `p`. */
  lemma {:induction false} UnderEarlier(a: Path, p: Path, r: Path)
    requires Before(a, p) && !(a <= p) && a <= r
    ensures Before(r, p)
  {
    assert a != [] && p != [] && r[0] == a[0];
    if a[0] == p[0] {
      assert a == [a[0]] + a[1..] && p == [p[0]] + p[1..];
      UnderEarlier(a[1..], p[1..], r[1..]);
    }
  }

  /** Seen from any node of `n`, what comes behind the children of `a` lies where the gap is. */
  lemma {:induction false} GapSide(n: Node, a: Path, r: Path, x: Path)
    requires InFull(n, a) && InFull(n, x) && a < r && r[|a|] >= |AtFull(n, a).kids|
    ensures x != r && x != Gap(n, a)
    ensures Before(x, r) <==> Before(x, Gap(n, a))
    ensures Before(r, x) <==> Before(Gap(n, a), x)
  {
    var g := Gap(n, a);
    AncestorBefore(a, g);
    AncestorBefore(a, r);
    if a < x {
      GapBehind(n, a, r, x);
    } else if x != a {
      BeforeTotal(a, x);
      if Before(a, x) {
        UnderEarlier(a, x, g);
        UnderEarlier(a, x, r);
      } else {
        BeforeTransitive(x, a, g);
        BeforeTransitive(x, a, r);
      }
    }
    BeforeTotal(x, r);
    BeforeTotal(x, g);
    BeforeIrreflexive(x);
  }

  lemma OnTheWay(a: Path, x: Path)
    requires a < x
    ensures a + [x[|a|]] <= x
  {
  }

  lemma ChildOrder(a: Path, i: nat, j: nat, x: Path, y: Path)
    requires a + [i] <= x && a + [j] <= y && i < j
    ensures Before(x, y)
  {
    EarlierChildBefore(a, i, j, x[|a| + 1..], y[|a| + 1..]);
    assert x == a + [i] + x[|a| + 1..] && y == a + [j] + y[|a| + 1..];
  }

  lemma GapBehind(n: Node, a: Path, r: Path, x: Path)
    requires InFull(n, a) && InFull(n, x) && a < x && a < r && r[|a|] >= |AtFull(n, a).kids|
    ensures Before(x, r) && Before(x, Gap(n, a))
  {
    FullAncestor(n, a, x);
    OnTheWay(a, x);
    OnTheWay(a, r);
    ChildOrder(a, x[|a|], |AtFull(n, a).kids|, x, Gap(n, a));
    ChildOrder(a, x[|a|], r[|a|], x, r);
  }

  /** What `n` shows is shown in `whole`; what is not shown lies behind the children of some node. */
  lemma {:induction false} PrunedAt(n: Node, whole: Node, r: Path) returns (a: Path)
    requires Prunes(n, whole)
    ensures InFull(n, r) ==>
      InFull(whole, r) && AtFull(whole, r).attrs == AtFull(n, r).attrs && AtFull(whole, r).owner == AtFull(n, r).owner
    ensures InFull(whole, r) && !InFull(n, r) ==> InFull(n, a) && a < r && r[|a|] >= |AtFull(n, a).kids|
    decreases r
  {
    a := [];
    if r != [] && r[0] < |n.kids| {
      var below := PrunedAt(n.kids[r[0]], whole.kids[r[0]], r[1..]);
      a := [r[0]] + below;
      assert a[1..] == below && r == [r[0]] + r[1..];
    }
  }

  // ----- Moves -----

  /** The topic nearest in a tree is the nearest in the tree with more children exactly when the move reaches
      no place behind which a topic is to come. */
  lemma {:induction false} MoveInTransit(n: Node, whole: Node, rule: TopicRule, move: Move, p: Path, q: Option<Path>)
    requires Prunes(n, whole) && InFull(n, p) && NearestTopic(n, rule, move, p, q)
    ensures NearestTopic(whole, rule, move, p, q)
       <==> forall a | Hides(n, whole, rule, a) :: !Reaches(n, rule, move, p, Gap(n, a))
  {
    if a :| Hides(n, whole, rule, a) && Reaches(n, rule, move, p, Gap(n, a)) {
      var r :| HiddenBelow(n, whole, rule, a, r);
      ReachedIsNearer(n, whole, rule, move, p, q, a, r);
    } else {
      NoneReached(n, whole, rule, move, p, q);
    }
  }

  lemma {:induction false} ReachedIsNearer(n: Node, whole: Node, rule: TopicRule, move: Move, p: Path,
                                           q: Option<Path>, a: Path, r: Path)
    requires InFull(n, p) && NearestTopic(n, rule, move, p, q)
    requires InFull(n, a) && HiddenBelow(n, whole, rule, a, r) && Reaches(n, rule, move, p, Gap(n, a))
    ensures !NearestTopic(whole, rule, move, p, q)
  {
    GapSide(n, a, r, p);
    assert Ahead(move, p, r);
    if q.Some? {
      GapSide(n, a, r, q.value);
      AheadOrder(move, q.value, r, r);
    }
  }

  lemma {:induction false} NoneReached(n: Node, whole: Node, rule: TopicRule, move: Move, p: Path, q: Option<Path>)
    requires Prunes(n, whole) && InFull(n, p) && NearestTopic(n, rule, move, p, q)
    requires forall a | Hides(n, whole, rule, a) :: !Reaches(n, rule, move, p, Gap(n, a))
    ensures NearestTopic(whole, rule, move, p, q)
  {
    if q.Some? {
      var _ := PrunedAt(n, whole, q.value);
    }
    forall r | InFull(whole, r) && Ahead(move, p, r) && IsTopic(rule, AtFull(whole, r).attrs)
      ensures q.Some? && (r == q.value || Ahead(move, q.value, r))
    {
      var a := PrunedAt(n, whole, r);
      if !InFull(n, r) {
        assert HiddenBelow(n, whole, rule, a, r);
        HiddenIsFurther(n, whole, rule, move, p, q, a, r);
      }
    }
  }

  lemma {:induction false} HiddenIsFurther(n: Node, whole: Node, rule: TopicRule, move: Move, p: Path,
                                           q: Option<Path>, a: Path, r: Path)
    requires InFull(n, p) && NearestTopic(n, rule, move, p, q) && Ahead(move, p, r)
    requires InFull(n, a) && HiddenBelow(n, whole, rule, a, r) && !Reaches(n, rule, move, p, Gap(n, a))
    ensures q.Some? && Ahead(move, q.value, r)
  {
    GapSide(n, a, r, p);
    var s :| InFull(n, s) && IsTopic(rule, AtFull(n, s).attrs) && Ahead(move, p, s) && Ahead(move, s, Gap(n, a));
    GapSide(n, a, r, s);
    AheadOrder(move, q.value, s, r);
  }

  // ----- Documents on their way -----

  /** The element awaits a document that has elements. */
  predicate Awaits(t: Table, above: System, e: Entry)
    requires Sound(t, above, e)
  {
    var own := OwnerOf(t, above, e);
    || (e.arriving && own.data.toc != [])
    || (e.pending.Chunk? && e.coming > 1 && t.files[FileOf(t, own, e.pending.name)].doc != [])
    || (e.pending.Nothing? && e.coming > 0 && t.files[e.chunk.value].doc != [])
  }

  /** No element of the tree awaits a document that has elements. */
  predicate NothingComing(t: Table, above: System, e: Entry)
    requires Sound(t, above, e)
    decreases e
  {
    && !Awaits(t, above, e)
    && (e.pending.Nothing? ==> forall i | 0 <= i < |e.kids| :: NothingComing(t, OwnerOf(t, above, e), e.kids[i]))
  }

  lemma RepeatPrunes(k: nat, s: seq<Node>)
    requires k > 0
    ensures |s| <= |Repeat(k, s)| && Repeat(k, s)[..|s|] == s
    ensures |Repeat(k, s)| == |s| <==> k == 1 || s == []
  {
  }

  lemma {:induction false} PrunesItself(n: Node)
    ensures Prunes(n, n)
    decreases n
  {
    forall i | 0 <= i < |n.kids| ensures Prunes(n.kids[i], n.kids[i]) {
      PrunesItself(n.kids[i]);
    }
  }

  lemma PrunesPrefix(n: Node, whole: Node)
    requires n.attrs == whole.attrs && n.owner == whole.owner && n.kids <= whole.kids
    ensures Prunes(n, whole)
  {
    forall i | 0 <= i < |n.kids| ensures Prunes(n.kids[i], whole.kids[i]) {
      PrunesItself(n.kids[i]);
    }
  }

  /** The present tree is the final one without what is on its way. */
  lemma {:induction false} PresentPrunesFinal(t: Table, above: System, e: Entry)
    requires Sound(t, above, e)
    ensures Prunes(Full(Present, t, above, e), Full(Final, t, above, e))
    decreases e
  {
    var own, n, whole := OwnerOf(t, above, e), Full(Present, t, above, e), Full(Final, t, above, e);
    if e.pending.Nothing? {
      forall i | 0 <= i < |e.kids| ensures Prunes(n.kids[i], whole.kids[i]) {
        PresentPrunesFinal(t, own, e.kids[i]);
      }
    } else {
      if e.pending.Chunk? {
        RepeatPrunes(Copies(Final, e.coming), FileNodes(t, own, FileOf(t, own, e.pending.name)));
      }
      PrunesPrefix(n, whole);
    }
  }

  /** The present tree is the final one exactly when no element awaits a document with elements. */
  lemma {:induction false} PresentIsFinal(t: Table, above: System, e: Entry)
    requires Sound(t, above, e)
    ensures Full(Present, t, above, e) == Full(Final, t, above, e) <==> NothingComing(t, above, e)
    decreases e
  {
    var own, n, whole := OwnerOf(t, above, e), Full(Present, t, above, e), Full(Final, t, above, e);
    if e.pending.Nothing? {
      ComingLength(t, above, e);
      forall i | 0 <= i < |e.kids| ensures n.kids[i] == whole.kids[i] <==> NothingComing(t, own, e.kids[i]) {
        PresentIsFinal(t, own, e.kids[i]);
      }
      assert n.kids == whole.kids
        <==> |n.kids| == |whole.kids| && forall i | 0 <= i < |e.kids| :: n.kids[i] == whole.kids[i];
    } else if e.pending.Chunk? {
      RepeatPrunes(Copies(Final, e.coming), FileNodes(t, own, FileOf(t, own, e.pending.name)));
    }
  }

  lemma ComingLength(t: Table, above: System, e: Entry)
    requires Sound(t, above, e) && e.pending.Nothing?
    ensures |Full(Present, t, above, e).kids| == |e.kids|
    ensures |Full(Final, t, above, e).kids| == |e.kids| <==> !Awaits(t, above, e)
  {
    if e.chunk.Some? && e.coming > 0 {
      RepeatPrunes(e.coming, FileNodes(t, OwnerOf(t, above, e), e.chunk.value));
    }
  }

  /** Topics are hidden only behind the children of elements that await a document. */
  lemma {:induction false} HiddenIsAwaited(t: Table, above: System, e: Entry, a: Path)
    requires Sound(t, above, e) && InFull(Full(Present, t, above, e), a) && InFull(Full(Final, t, above, e), a)
    requires |AtFull(Full(Present, t, above, e), a).kids| < |AtFull(Full(Final, t, above, e), a).kids|
    ensures In(e, a) && Sound(t, OwnerAbove(t, above, e, a), At(e, a))
    ensures Awaits(t, OwnerAbove(t, above, e, a), At(e, a))
    decreases a
  {
    var own, n, whole := OwnerOf(t, above, e), Full(Present, t, above, e), Full(Final, t, above, e);
    if e.pending.Chunk? {
      RepeatPrunes(Copies(Final, e.coming), FileNodes(t, own, FileOf(t, own, e.pending.name)));
    }
    if a == [] {
      if e.pending.Nothing? {
        ComingLength(t, above, e);
      }
    } else {
      assert n.kids[a[0]] == whole.kids[a[0]] || e.pending.Nothing?;
      HiddenIsAwaited(t, own, e.kids[a[0]], a[1..]);
    }
  }

  // ----- A move that goes past a topic -----

  lemma OnlyTwo(n: Node)
    requires |n.kids| == 2 && n.kids[0].kids == [] && n.kids[1].kids == []
    ensures InFull(n, [1]) && AtFull(n, [1]) == n.kids[1] && Before([0], [1])
    ensures forall r | InFull(n, r) && Before([0], r) :: r == [1]
  {
    forall r | InFull(n, r) && Before([0], r) ensures r == [1] {
      assert InFull(n.kids[r[0]], r[1..]);
      assert r == [r[0]];
      BeforeIrreflexive(r);
    }
  }

  lemma FirstGrandchild(n: Node)
    requires |n.kids| == 2 && |n.kids[0].kids| == 1
    ensures InFull(n, [0, 0]) && AtFull(n, [0, 0]) == n.kids[0].kids[0]
    ensures Before([0], [0, 0]) && !Before([1], [0, 0])
  {
    var below: Path, tail: Path := [0, 0], [0];
    assert below[1..] == tail && tail[1..] == [];
    assert InFull(n.kids[0], tail) && AtFull(n.kids[0], tail) == n.kids[0].kids[0];
  }

  const TOP := SystemTree.Tree(Toc("", []), [])

  /** A system with one topic. */
  function Sub(topic: Attrs): System {
    SystemTree.Tree(Toc("", [Item(topic, Nothing, [])]), [])
  }

  function Known(topic: Attrs): Table {
    Table(Some(""), map[], 0, [Sub(topic)])
  }

  /** A first entry that awaits the table of contents of `Sub`, and a second one. */
  function TwoEntries(topic: Attrs): Entry {
    Entry(topic, None, Nothing, false, None, 0,
          [Entry(topic, Some(0), Nothing, true, None, 0, []), Entry(topic, None, Nothing, false, None, 0, [])])
  }

  lemma TwoEntriesFull(v: View, topic: Attrs)
    ensures Sound(Known(topic), TOP, TwoEntries(topic))
    ensures Full(v, Known(topic), TOP, TwoEntries(topic)).kids ==
      [Node(topic, Sub(topic), if v.Final? then [Node(topic, Sub(topic), [])] else []),
       Node(topic, TOP, [])]
  {
    var e, t := TwoEntries(topic), Known(topic);
    assert Sound(t, TOP, e.kids[0]) && Sound(t, TOP, e.kids[1]);
    var below := Node(topic, Sub(topic), []);
    assert Expand(t, 0, Sub(topic), Sub(topic).data.toc[0]) == below && TocNodes(t, Sub(topic)) == [below];
    assert Full(v, t, TOP, e.kids[0]) == Node(topic, Sub(topic), if v.Final? then [below] else []);
    assert Full(v, t, TOP, e.kids[1]) == Node(topic, TOP, []);
  }

  lemma {:induction false} SecondIsNearest(n: Node, rule: TopicRule)
    requires |n.kids| == 2 && n.kids[0].kids == [] && n.kids[1].kids == [] && IsTopic(rule, n.kids[1].attrs)
    ensures NearestTopic(n, rule, Next, [0], Some([1]))
  {
    OnlyTwo(n);
  }

  lemma {:induction false} NearerTopic(n: Node, rule: TopicRule, move: Move, p: Path, s: Path, r: Path)
    requires InFull(n, r) && IsTopic(rule, AtFull(n, r).attrs)
    requires Ahead(move, p, r) && r != s && !Ahead(move, s, r)
    ensures !NearestTopic(n, rule, move, p, Some(s))
  {
  }

  lemma {:induction false} GrandchildIsNearer(n: Node, rule: TopicRule)
    requires |n.kids| == 2 && |n.kids[0].kids| == 1 && IsTopic(rule, n.kids[0].kids[0].attrs)
    ensures !NearestTopic(n, rule, Next, [0], Some([1]))
  {
    FirstGrandchild(n);
    NearerTopic(n, rule, Next, [0], [1], [0, 0]);
  }

  /** From the first entry, whose merge is on its way, a move goes to the second, past the topic that is about
      to come below the first. */
  lemma {:induction false} MoveCanPass(rule: TopicRule, topic: Attrs)
    requires IsTopic(rule, topic)
    ensures Sound(Known(topic), TOP, TwoEntries(topic))
    ensures NearestTopic(Full(Present, Known(topic), TOP, TwoEntries(topic)), rule, Next, [0], Some([1]))
    ensures !NearestTopic(Full(Final, Known(topic), TOP, TwoEntries(topic)), rule, Next, [0], Some([1]))
  {
    TwoEntriesFull(Present, topic);
    TwoEntriesFull(Final, topic);
    SecondIsNearest(Full(Present, Known(topic), TOP, TwoEntries(topic)), rule);
    GrandchildIsNearer(Full(Final, Known(topic), TOP, TwoEntries(topic)), rule);
  }
}
