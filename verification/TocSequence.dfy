/** Numbering the topics under a top-level entry from the descendant counts stored in the entries,
    without expanding anything. */
module TocSequence {
  import opened Options
  import opened Preorder
  import opened TocTree
  import opened TocExpansion
  import opened TocNavigation
  import opened TocTransit

  /** The test for topics used by the numbering: it ignores a configured extension. */
  ghost predicate IsHtmlTopic(a: Attrs) {
    IsTopic(TopicRule(None), a)
  }

  function StoredCount(a: Attrs): int {
    if a.count.Some? then a.count.value else 0
  }

  /** What a sibling adds: its stored count, and one when it is a topic. */
  ghost function Weight(a: Attrs): int {
    StoredCount(a) + if IsHtmlTopic(a) then 1 else 0
  }

  /** The stored counts of the first `k` siblings, and those that are topics. */
  ghost function CountBefore(siblings: seq<Attrs>, k: nat): int
    requires k <= |siblings|
  {
    if k == 0 then 0 else CountBefore(siblings, k - 1) + Weight(siblings[k - 1])
  }

  /** One sibling more. */
  lemma CountStep(siblings: seq<Attrs>, k: nat)
    requires k < |siblings|
    ensures CountBefore(siblings, k + 1) == CountBefore(siblings, k) + StoredCount(siblings[k])
      + if HasTopicExtension(TopicRule(None), siblings[k]) then 1 else 0
  {
    TopicsExactly(TopicRule(None), siblings[k]);
  }

  /** The number computed for the node at `p`. */
  ghost function SequenceIndex(n: Node, p: Path): int
    requires InFull(n, p) && p != []
    decreases |p|
  {
    if |p| == 1 then 0
    else
      FullAncestor(n, Parent(p), p);
      (if Read(AtFull(n, p).attrs.link).Some? then 1 else 0)
      + CountBefore(KidAttrs(AtFull(n, Parent(p))), Last(p)) + SequenceIndex(n, Parent(p))
  }

  // ----- The reference: positions of topics in document order -----

  ghost function Topics(n: Node): (r: set<Path>)
    ensures forall p :: p in r <==> InFull(n, p) && IsHtmlTopic(AtFull(n, p).attrs)
  {
    set p | p in Positions(n) && IsHtmlTopic(AtFull(n, p).attrs)
  }

  ghost function TopicsBelow(n: Node, q: Path): set<Path> {
    set r | r in Topics(n) && q < r
  }

  /** The topics strictly below `p`'s top-level ancestor that come no later than `p`. */
  ghost function TopicsUpTo(n: Node, p: Path): set<Path>
    requires p != []
  {
    set r | r in Topics(n) && p[..1] < r && !Before(p, r)
  }

  /** The topics strictly below `p`'s top-level ancestor that come before `p`. */
  ghost function TopicsBefore(n: Node, p: Path): set<Path>
    requires p != []
  {
    set r | r in Topics(n) && p[..1] < r && Before(r, p)
  }

  /** An entry below the root stores the number of topics below it; none stored reads as 0. */
  ghost predicate CountIsRight(n: Node, q: Path) {
    InFull(n, q) && q != [] ==> StoredCount(AtFull(n, q).attrs) == |TopicsBelow(n, q)|
  }

  ghost predicate CountsCorrect(n: Node) {
    forall q :: CountIsRight(n, q)
  }

  /** The entries from below the top-level ancestor down to `p` link to topics or nowhere. */
  ghost predicate LinksAreTopics(n: Node, p: Path)
    requires InFull(n, p)
  {
    forall m | 2 <= m <= |p| ::
      InFull(n, p[..m]) && (Read(AtFull(n, p[..m]).attrs.link).Some? ==> IsHtmlTopic(AtFull(n, p[..m]).attrs))
  }

  /** The node at `p`, if it is a topic. */
  ghost function Self(n: Node, p: Path): (r: set<Path>)
    requires InFull(n, p)
    ensures |r| == if IsHtmlTopic(AtFull(n, p).attrs) then 1 else 0
    ensures forall q :: q in r <==> q == p && q in Topics(n)
  {
    if IsHtmlTopic(AtFull(n, p).attrs) then {p} else {}
  }

  lemma UpToSplits(n: Node, p: Path)
    requires InFull(n, p) && |p| >= 2
    ensures |TopicsUpTo(n, p)| == |TopicsBefore(n, p)| + if IsHtmlTopic(AtFull(n, p).attrs) then 1 else 0
  {
    var upTo, before, self := TopicsUpTo(n, p), TopicsBefore(n, p), Self(n, p);
    forall r
      ensures r in upTo <==> r in before || r in self || r in {}
      ensures !(r in before && r in self)
    {
      UpToMember(n, p, r);
    }
    Partition(upTo, before, self, {});
  }

  lemma UpToMember(n: Node, p: Path, r: Path)
    requires |p| >= 2
    ensures r in TopicsUpTo(n, p) <==> r in TopicsBefore(n, p) || (r == p && r in Topics(n))
    ensures !(r in TopicsBefore(n, p) && r == p)
  {
    BeforeTotal(p, r);
    BeforeIrreflexive(p);
    assert p[..1] < p;
  }

  function Child(a: Path, k: nat): Path {
    a + [k]
  }

  lemma FirstChildSplits(n: Node, a: Path)
    requires a != []
    ensures TopicsBefore(n, Child(a, 0)) == TopicsUpTo(n, a)
  {
    assert Child(a, 0)[..1] == a[..1];
    forall r ensures Before(r, Child(a, 0)) <==> !Before(a, r) {
      BeforeTotal(a, r);
      AfterParentNotBeforeFirst(a, r);
      AncestorBefore(a, Child(a, 0));
      if Before(r, a) {
        BeforeTransitive(r, a, Child(a, 0));
      }
      BeforeTotal(r, Child(a, 0));
      if r == Child(a, 0) {
        assert Before(a, r);
      }
    }
  }

  lemma NextChildSplits(n: Node, a: Path, k: nat)
    requires a != [] && InFull(n, Child(a, k))
    ensures |TopicsBefore(n, Child(a, k + 1))| == |TopicsBefore(n, Child(a, k))| + |TopicsBelow(n, Child(a, k))|
                                              + if IsHtmlTopic(AtFull(n, Child(a, k)).attrs) then 1 else 0
  {
    var all, before := TopicsBefore(n, Child(a, k + 1)), TopicsBefore(n, Child(a, k));
    var self, below := Self(n, Child(a, k)), TopicsBelow(n, Child(a, k));
    forall r
      ensures r in all <==> r in before || r in self || r in below
      ensures !(r in before && r in self) && !(r in before && r in below) && !(r in self && r in below)
    {
      NextChildMember(n, a, k, r);
    }
    Partition(all, before, self, below);
  }

  lemma NextChildMember(n: Node, a: Path, k: nat, r: Path)
    requires a != []
    ensures r in TopicsBefore(n, Child(a, k + 1)) <==>
      r in TopicsBefore(n, Child(a, k)) || (r == Child(a, k) && r in Topics(n)) || r in TopicsBelow(n, Child(a, k))
    ensures !(r in TopicsBefore(n, Child(a, k)) && Child(a, k) <= r)
  {
    var c := Child(a, k);
    assert c[..1] == a[..1] && Child(a, k + 1)[..1] == a[..1] && a[..1] < c;
    assert NextSibling(c) == Child(a, k + 1);
    BeforeNextSibling(c, r);
  }

  lemma Partition(all: set<Path>, x: set<Path>, y: set<Path>, z: set<Path>)
    requires forall r :: r in all <==> r in x || r in y || r in z
    requires forall r :: !(r in x && r in y) && !(r in x && r in z) && !(r in y && r in z)
    ensures |all| == |x| + |y| + |z|
  {
    assert all == x + y + z;
    assert x !! y && x + y !! z;
  }

  lemma RankStep(n: Node, a: Path, k: nat)
    requires InFull(n, a) && a != [] && k < |AtFull(n, a).kids| && CountsCorrect(n)
    ensures |TopicsBefore(n, Child(a, k + 1))| == |TopicsBefore(n, Child(a, k))| + Weight(KidAttrs(AtFull(n, a))[k])
  {
    var c := Child(a, k);
    FullChild(n, a, k);
    assert InFull(n, c) && c != [];
    assert CountIsRight(n, c);
    NextChildSplits(n, a, k);
  }

  /** What grows by the weight of each sibling has grown by their sum. */
  lemma {:induction false} Telescopes(siblings: seq<Attrs>, rank: nat -> int, k: nat)
    requires k <= |siblings|
    requires forall j: nat | j < k :: rank(j + 1) == rank(j) + Weight(siblings[j])
    ensures rank(k) == rank(0) + CountBefore(siblings, k)
  {
    if k > 0 {
      Telescopes(siblings, rank, k - 1);
      assert rank(k - 1 + 1) == rank(k - 1) + Weight(siblings[k - 1]);
    }
  }

  lemma {:induction false} CountBeforeIsRank(n: Node, a: Path, k: nat)
    requires InFull(n, a) && a != [] && k <= |AtFull(n, a).kids| && CountsCorrect(n)
    ensures |TopicsBefore(n, Child(a, k))| == |TopicsUpTo(n, a)| + CountBefore(KidAttrs(AtFull(n, a)), k)
  {
    var siblings := KidAttrs(AtFull(n, a));
    var rank: nat -> int := (j: nat) => |TopicsBefore(n, Child(a, j))|;
    forall j: nat | j < k ensures rank(j + 1) == rank(j) + Weight(siblings[j]) {
      RankStep(n, a, j);
    }
    Telescopes(siblings, rank, k);
    FirstChildSplits(n, a);
  }

  lemma IndexOfChild(n: Node, p: Path)
    requires InFull(n, p) && |p| >= 2 && InFull(n, Parent(p)) && Last(p) < |AtFull(n, Parent(p)).kids|
    ensures SequenceIndex(n, p) == SequenceIndex(n, Parent(p)) + CountBefore(KidAttrs(AtFull(n, Parent(p))), Last(p))
      + if Read(AtFull(n, p).attrs.link).Some? then 1 else 0
  {
  }

  lemma {:induction false} ChildRank(n: Node, a: Path, k: nat)
    requires InFull(n, a) && a != [] && k < |AtFull(n, a).kids| && CountsCorrect(n)
    ensures InFull(n, Child(a, k))
    ensures |TopicsUpTo(n, Child(a, k))| == |TopicsUpTo(n, a)| + CountBefore(KidAttrs(AtFull(n, a)), k)
      + if IsHtmlTopic(AtFull(n, Child(a, k)).attrs) then 1 else 0
  {
    FullChild(n, a, k);
    CountBeforeIsRank(n, a, k);
    UpToSplits(n, Child(a, k));
  }

  lemma ChildIndex(n: Node, a: Path, k: nat)
    requires InFull(n, a) && a != [] && InFull(n, Child(a, k)) && k < |AtFull(n, a).kids|
    ensures SequenceIndex(n, Child(a, k)) == SequenceIndex(n, a) + CountBefore(KidAttrs(AtFull(n, a)), k)
      + if Read(AtFull(n, Child(a, k)).attrs.link).Some? then 1 else 0
  {
    assert Parent(Child(a, k)) == a && Last(Child(a, k)) == k;
    IndexOfChild(n, Child(a, k));
  }

  /** What the number says beyond the rank grows by one at a link that is no topic. */
  lemma {:induction false} RankBeyond(n: Node, a: Path, k: nat)
    requires InFull(n, a) && a != [] && k < |AtFull(n, a).kids| && CountsCorrect(n)
    ensures InFull(n, Child(a, k))
    ensures SequenceIndex(n, Child(a, k)) - |TopicsUpTo(n, Child(a, k))| == SequenceIndex(n, a) - |TopicsUpTo(n, a)|
      + if Read(AtFull(n, Child(a, k)).attrs.link).Some? && !IsHtmlTopic(AtFull(n, Child(a, k)).attrs) then 1 else 0
  {
    ChildRank(n, a, k);
    ChildIndex(n, a, k);
    TopicsAreLinks(AtFull(n, Child(a, k)).attrs);
  }

  lemma TopicsAreLinks(a: Attrs)
    ensures IsHtmlTopic(a) ==> Read(a.link).Some?
  {
  }

  /** The entries from below the top-level ancestor down to `p` that link to something that is no topic. */
  ghost function StrayLinks(n: Node, p: Path): nat
    requires InFull(n, p) && p != []
    decreases |p|
  {
    if |p| == 1 then 0
    else
      FullAncestor(n, Parent(p), p);
      var a := AtFull(n, p).attrs;
      StrayLinks(n, Parent(p)) + if Read(a.link).Some? && !IsHtmlTopic(a) then 1 else 0
  }

  /** The number is the rank and the stray links on the way. */
  ghost predicate IsRank(n: Node, p: Path)
    requires InFull(n, p) && p != []
  {
    SequenceIndex(n, p) == |TopicsUpTo(n, p)| + StrayLinks(n, p)
  }

  lemma TopIsRank(n: Node, p: Path)
    requires InFull(n, p) && |p| == 1
    ensures IsRank(n, p)
  {
    NoneUpToTop(n, p);
  }

  lemma ChildIsRank(n: Node, a: Path, k: nat)
    requires InFull(n, a) && a != [] && k < |AtFull(n, a).kids| && CountsCorrect(n) && IsRank(n, a)
    ensures InFull(n, Child(a, k)) && IsRank(n, Child(a, k))
  {
    RankBeyond(n, a, k);
    StrayChild(n, a, k);
  }

  lemma ChildOfParent(p: Path)
    requires p != []
    ensures Child(Parent(p), Last(p)) == p
  {
  }

  lemma IsRankBelow(n: Node, p: Path)
    requires InFull(n, p) && |p| > 1 && CountsCorrect(n) && InFull(n, Parent(p)) && IsRank(n, Parent(p))
    requires Last(p) < |AtFull(n, Parent(p)).kids|
    ensures IsRank(n, p)
  {
    ChildIsRank(n, Parent(p), Last(p));
    ChildOfParent(p);
  }

  lemma {:induction false} EachIsRank(n: Node, p: Path)
    requires InFull(n, p) && p != [] && CountsCorrect(n)
    ensures IsRank(n, p)
    decreases |p|
  {
    if |p| == 1 {
      TopIsRank(n, p);
    } else {
      FullAncestor(n, Parent(p), p);
      EachIsRank(n, Parent(p));
      IsRankBelow(n, p);
    }
  }

  /** With correct counts, the number computed from them is the number of topics below the top-level
      ancestor up to and including the entry, and one more for each link on the way that is no topic's. */
  lemma SequenceIndexIsRank(n: Node, p: Path)
    requires InFull(n, p) && p != [] && CountsCorrect(n)
    ensures SequenceIndex(n, p) == |TopicsUpTo(n, p)| + StrayLinks(n, p)
  {
    EachIsRank(n, p);
  }

  lemma StrayChild(n: Node, a: Path, k: nat)
    requires InFull(n, a) && a != [] && InFull(n, Child(a, k))
    ensures StrayLinks(n, Child(a, k)) == StrayLinks(n, a)
      + if Read(AtFull(n, Child(a, k)).attrs.link).Some? && !IsHtmlTopic(AtFull(n, Child(a, k)).attrs) then 1 else 0
  {
    assert Parent(Child(a, k)) == a;
  }

  /** None is stray exactly when the links on the way are topics' links. */
  lemma {:induction false} NoStrayLinks(n: Node, p: Path)
    requires InFull(n, p) && p != []
    ensures StrayLinks(n, p) == 0 <==> LinksAreTopics(n, p)
    decreases |p|
  {
    if |p| > 1 {
      FullAncestor(n, Parent(p), p);
      NoStrayLinks(n, Parent(p));
      LinksSplit(n, p);
    }
  }

  lemma NoneUpToTop(n: Node, p: Path)
    requires |p| == 1
    ensures TopicsUpTo(n, p) == {}
  {
    forall r | p[..1] < r ensures Before(p, r) {
      assert p[..1] == p;
      AncestorBefore(p, r);
    }
  }

  lemma LinksSplit(n: Node, p: Path)
    requires InFull(n, p) && |p| >= 2 && InFull(n, Parent(p))
    ensures LinksAreTopics(n, p) <==>
      LinksAreTopics(n, Parent(p)) && (Read(AtFull(n, p).attrs.link).Some? ==> IsHtmlTopic(AtFull(n, p).attrs))
  {
    var a := Parent(p);
    assert p[..|p|] == p;
    forall m | 2 <= m <= |a| ensures a[..m] == p[..m] {}
    if LinksAreTopics(n, p) {
      forall m | 2 <= m <= |a|
        ensures InFull(n, a[..m]) && (Read(AtFull(n, a[..m]).attrs.link).Some? ==> IsHtmlTopic(AtFull(n, a[..m]).attrs))
      {
        assert a[..m] == p[..m];
      }
    }
  }

  /** The number never exceeds the total stored in the top-level ancestor. */
  lemma {:induction false} SequenceIndexWithinTotal(n: Node, p: Path)
    requires InFull(n, p) && p != [] && CountsCorrect(n) && LinksAreTopics(n, p)
    ensures InFull(n, p[..1])
    ensures 0 <= SequenceIndex(n, p) <= StoredCount(AtFull(n, p[..1]).attrs)
  {
    SequenceIndexIsRank(n, p);
    NoStrayLinks(n, p);
    FullAncestor(n, p[..1], p);
    assert CountIsRight(n, p[..1]);
    assert TopicsUpTo(n, p) <= TopicsBelow(n, p[..1]);
    SubsetCardinality(TopicsUpTo(n, p), TopicsBelow(n, p[..1]));
  }

  lemma {:induction false} SubsetCardinality(a: set<Path>, b: set<Path>)
    requires a <= b
    ensures |a| <= |b|
  {
    if a != {} {
      var x :| x in a;
      SubsetCardinality(a - {x}, b - {x});
    }
  }

  /** Moving to the next topic under the same top-level ancestor adds one to the number. */
  lemma {:induction false} NextAddsOne(n: Node, p: Path, q: Path)
    requires InFull(n, p) && p != [] && CountsCorrect(n) && LinksAreTopics(n, p)
    requires NearestTopic(n, TopicRule(None), Next, p, Some(q))
    requires q != [] && q[0] == p[0] && LinksAreTopics(n, q)
    ensures SequenceIndex(n, q) == SequenceIndex(n, p) + 1
  {
    SequenceIndexIsRank(n, p);
    NoStrayLinks(n, p);
    SequenceIndexIsRank(n, q);
    NoStrayLinks(n, q);
    OneMoreTopic(n, p, q);
  }

  lemma {:induction false} OneMoreTopic(n: Node, p: Path, q: Path)
    requires p != [] && NearestTopic(n, TopicRule(None), Next, p, Some(q)) && q != [] && q[0] == p[0]
    ensures |TopicsUpTo(n, q)| == |TopicsUpTo(n, p)| + 1
  {
    var more, fewer := TopicsUpTo(n, q), TopicsUpTo(n, p);
    forall r ensures r in more <==> r in fewer || r == q {
      UpToNext(n, p, q, r);
    }
    UpToNext(n, p, q, q);
    OneMore(fewer, more, q);
  }

  lemma OneMore(fewer: set<Path>, more: set<Path>, q: Path)
    requires q !in fewer && forall r :: r in more <==> r in fewer || r == q
    ensures |more| == |fewer| + 1
  {
    assert more == fewer + {q};
  }

  lemma UpToNext(n: Node, p: Path, q: Path, r: Path)
    requires p != [] && NearestTopic(n, TopicRule(None), Next, p, Some(q)) && q != [] && q[0] == p[0]
    ensures r in TopicsUpTo(n, q) <==> r in TopicsUpTo(n, p) || r == q
    ensures q !in TopicsUpTo(n, p)
  {
    assert p[..1] == q[..1];
    BelowTop(p, q);
    BeforeIrreflexive(q);
    if r in TopicsUpTo(n, p) && Before(q, r) {
      BeforeTransitive(p, q, r);
    }
  }

  lemma BelowTop(p: Path, q: Path)
    requires p != [] && q != [] && p[0] == q[0] && Before(p, q)
    ensures p[..1] < q
  {
    assert q[1..] != [];
  }

  // ----- Numbers while documents are on their way -----

  lemma {:induction false} PrunesBelow(n: Node, whole: Node, a: Path)
    requires Prunes(n, whole) && InFull(n, a)
    ensures InFull(whole, a) && Prunes(AtFull(n, a), AtFull(whole, a))
    decreases a
  {
    if a != [] {
      PrunesBelow(n.kids[a[0]], whole.kids[a[0]], a[1..]);
    }
  }

  lemma {:induction false} CountOfFirst(x: seq<Attrs>, y: seq<Attrs>, k: nat)
    requires k <= |x| && k <= |y| && forall i | 0 <= i < k :: x[i] == y[i]
    ensures CountBefore(x, k) == CountBefore(y, k)
  {
    if k > 0 {
      CountOfFirst(x, y, k - 1);
    }
  }

  /** The number of an entry does not depend on what is to come behind the children there are. */
  lemma {:induction false} PrunedIndex(n: Node, whole: Node, p: Path)
    requires Prunes(n, whole) && InFull(n, p) && p != []
    ensures InFull(whole, p) && SequenceIndex(n, p) == SequenceIndex(whole, p)
    decreases |p|
  {
    PrunesBelow(n, whole, p);
    if |p| > 1 {
      var a := Parent(p);
      FullAncestor(n, a, p);
      FullAncestor(whole, a, p);
      PrunesBelow(n, whole, a);
      PrunedIndex(n, whole, a);
      CountOfFirst(KidAttrs(AtFull(n, a)), KidAttrs(AtFull(whole, a)), Last(p));
    }
  }
}
