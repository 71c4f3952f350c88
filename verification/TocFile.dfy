/** CMCTocFile: the table of contents in memory, the loads that expand it, and the operations that
    run while it is being expanded. */
module TocFile {
  import opened Options
  import opened Preorder
  import opened TocTree
  import opened TocChunks
  import opened TocExpansion
  import opened TocLoads
  import opened TocNavigation
  import opened TocPaths
  import opened TocSequence
  import opened TocSteps
  import opened TocTransit
  import opened Text
  import TocCalls

  class TocFile {
    const system: System
    const rule: TopicRule
    const htmlHelp: bool
    const files: map<string, File>
    const top: nat
    var root: Entry
    var owners: seq<System>
    var address: Option<TocCalls.Address>

    /** The tree and what the table of contents has beside it. */
    function Now(): State
      reads this
    {
      State(Table(Some(system.data.path), files, top, owners), root)
    }

    ghost predicate Valid()
      reads this
    {
      && Sound(Now().t, system, root)
      && root.ownerIndex.None? && !root.pending.Merge? && !root.arriving
    }

    /** The fully expanded table of contents. */
    ghost function FullToc(): Node
      requires Valid()
      reads this
    {
      Full(Final, Now().t, system, root)
    }

    /** The same without what is on its way. */
    ghost function PresentToc(): Node
      requires Valid()
      reads this
    {
      Full(Present, Now().t, system, root)
    }

    constructor (system: System, rule: TopicRule, htmlHelp: bool, files: map<string, File>, top: nat, document: Item)
      requires WellFormed(Table(Some(system.data.path), files, top, []), top, system, document)
      requires !document.pending.Merge?
      ensures Valid() && Unasked(root) && address == None
      ensures FullToc() == PresentToc() == Expand(Table(Some(system.data.path), files, top, []), top, system, document)
      ensures this.system == system && this.rule == rule && this.htmlHelp == htmlHelp && this.files == files
    {
      this.system, this.rule, this.htmlHelp, this.files, this.top := system, rule, htmlHelp, files, top;
      root, owners, address := Import(document), [], None;
      ImportExpands(Final, Table(Some(system.data.path), files, top, []), top, system, document);
      ImportExpands(Present, Table(Some(system.data.path), files, top, []), top, system, document);
      ImportUnasked(document);
    }

    // ----- Loading -----

    /** Appends a copy of each element of a document to `kids`. */
    method AppendImported(kids: seq<Entry>, doc: seq<Item>) returns (r: seq<Entry>)
      ensures r == kids + ImportAll(doc)
    {
      r := kids;
      for i := 0 to |doc|
        invariant r == kids + ImportAll(doc)[..i]
      {
        r := r + [Import(doc[i])];
      }
    }

    /** The chunk of the element at `p` is requested: a bare name is looked up in the table's own folder. The
        fully expanded tree stays the same unless a request for the same chunk is on its way. */
    method RequestChunk(p: Path) returns (file: string)
      requires Valid() && Legal(Now(), ChunkRequested(p))
      modifies this`root
      ensures Valid() && Now() == Step(system, old(Now()), ChunkRequested(p)) && Grown(old(root), root)
      ensures FullToc() == old(FullToc()) <==> !Repeats(system, old(Now()), ChunkRequested(p))
      ensures file == FileOf(Now().t, system, At(old(root), p).pending.name)
      ensures var name := At(old(root), p).pending.name;
              file == if '/' in name then name else system.data.path + "Data/" + name
      ensures var name := At(old(root), p).pending.name;
              var own := old(OwnerAt(Now().t, system, root, p));
              file == ChunkFile(own.data.path, name) <==> '/' in name || own.data.path == system.data.path
    {
      StepKeepsOrGrows(system, Now(), ChunkRequested(p));
      var e := At(root, p);
      var name := e.pending.name;
      ChunkFileAgrees(system.data.path, OwnerAt(Now().t, system, root, p).data.path, name);
      file := if '/' !in name then system.data.path + "Data/" + name else name;
      PutGrows(root, p, ChunkAsked(e));
      root := Put(root, p, e.(coming := e.coming + 1));
    }

    /** The document of a requested chunk is delivered. */
    method ChunkArrives(p: Path)
      requires Valid() && Legal(Now(), ChunkArrived(p))
      modifies this`root
      ensures Valid() && Now() == Step(system, old(Now()), ChunkArrived(p)) && Grown(old(root), root)
      ensures FullToc() == old(FullToc()) && At(root, p).pending.Nothing?
    {
      StepKeepsOrGrows(system, Now(), ChunkArrived(p));
      InMemoryInFull(Final, Now().t, system, root, p);
      var e := At(root, p);
      var own := GetOwnerHelpSystem(p);
      var file := ChunkOf(Now().t, own, e);
      var kids := AppendImported(e.kids, files[file].doc);
      PutGrows(root, p, ChunkPut(Now().t, own, e));
      root := Put(root, p, e.(pending := Nothing, chunk := Some(file), coming := e.coming - 1, kids := kids));
    }

    /** A merge is requested: the hint goes, and the element is recorded as the subsystem's. */
    method RequestMerge(p: Path)
      requires Valid() && Legal(Now(), MergeRequested(p))
      modifies this`root, this`owners
      ensures Valid() && Now() == Step(system, old(Now()), MergeRequested(p)) && Grown(old(root), root)
      ensures FullToc() == old(FullToc()) && At(root, p).arriving
    {
      StepKeepsOrGrows(system, Now(), MergeRequested(p));
      InMemoryInFull(Final, Now().t, system, root, p);
      var e := At(root, p);
      var own := GetOwnerHelpSystem(p);
      var sub := own.subs[e.pending.hint];
      PutGrows(root, p, MergeAsked(Now().t, e));
      root := Put(root, p, e.(pending := Nothing, arriving := true, ownerIndex := Some(|owners|)));
      owners := owners + [sub];
    }

    /** The document of a requested merge is delivered. */
    method MergeArrives(p: Path)
      requires Valid() && Legal(Now(), MergeArrived(p))
      modifies this`root
      ensures Valid() && Now() == Step(system, old(Now()), MergeArrived(p)) && Grown(old(root), root)
      ensures FullToc() == old(FullToc()) && At(root, p).pending.Nothing?
    {
      StepKeepsOrGrows(system, Now(), MergeArrived(p));
      InMemoryInFull(Final, Now().t, system, root, p);
      var e := At(root, p);
      var sub := GetOwnerHelpSystem(p);
      var kids := AppendImported(e.kids, sub.data.toc);
      PutGrows(root, p, MergePut(sub, e));
      root := Put(root, p, e.(arriving := false, kids := kids));
    }

    /** The walk from an element up to the first one that records an owner. */
    method GetOwnerHelpSystem(p: Path) returns (s: System)
      requires Valid() && In(root, p)
      ensures s == OwnerAt(Now().t, system, root, p)
    {
      var c := p;
      while true
        invariant In(root, c)
        invariant OwnerAt(Now().t, system, root, c) == OwnerAt(Now().t, system, root, p)
        decreases |c|
      {
        if c == [] {
          return system;
        }
        InMemoryInFull(Final, Now().t, system, root, c);
        var index := At(root, c).ownerIndex;
        if index.Some? {
          return owners[index.value];
        }
        OwnerAboveParent(Now().t, system, root, c);
        c := Parent(c);
      }
    }

    /** A chunk with no other load in between: the request, then its document. */
    method LoadChunk(p: Path)
      requires Valid() && Legal(Now(), ChunkRequested(p))
      modifies this`root
      ensures Valid() && PresentToc() == old(PresentToc()) && Grown(old(root), root) && At(root, p).pending.Nothing?
      ensures old(Unasked(root)) ==> Unasked(root) && FullToc() == old(FullToc())
    {
      InMemoryInFull(Final, Now().t, system, root, p);
      ghost var e, own := At(root, p), OwnerAt(Now().t, system, root, p);
      ChunkLoadKeeps(Now().t, system, root, p);
      PutTwice(root, p, ChunkAsked(e), ChunkLoaded(Now().t, own, e));
      PutSound(Now().t, system, root, p, ChunkAsked(e));
      var _ := RequestChunk(p);
      ChunkArrives(p);
    }

    /** A merge with no other load in between: the request, then its document. */
    method LoadMerge(p: Path)
      requires Valid() && Legal(Now(), MergeRequested(p))
      modifies this`root, this`owners
      ensures Valid() && FullToc() == old(FullToc()) && PresentToc() == old(PresentToc())
      ensures Grown(old(root), root) && At(root, p).pending.Nothing?
      ensures old(Unasked(root)) ==> Unasked(root)
    {
      InMemoryInFull(Final, Now().t, system, root, p);
      ghost var e, own := At(root, p), OwnerAt(Now().t, system, root, p);
      ghost var sub := own.subs[e.pending.hint];
      MergeLoadKeeps(Now().t, system, root, p, sub);
      if Unasked(root) {
        MergeLoadUnasked(Now().t, root, p, sub);
      }
      PutTwice(root, p, MergeAsked(Now().t, e), MergeLoaded(Now().t, sub, e));
      PutAt(root, p, MergeAsked(Now().t, e), p);
      RequestMerge(p);
      MergeArrives(p);
    }

    /** Loads whatever the element at `p` stands for, if anything. */
    method EnsureLoaded(p: Path)
      requires Valid() && In(root, p)
      modifies this`root, this`owners
      ensures Valid() && PresentToc() == old(PresentToc()) && Grown(old(root), root) && At(root, p).pending.Nothing?
      ensures old(Unasked(root)) ==> Unasked(root) && FullToc() == old(FullToc())
    {
      if At(root, p).pending.Chunk? {
        LoadChunk(p);
      } else if At(root, p).pending.Merge? {
        LoadMerge(p);
      }
    }

    // ----- Moving to the next and previous topic -----

    /** The first child, else the next sibling of the nearest element up the tree that has one. */
    method GetNextNode(p: Path) returns (next: Option<Path>)
      requires Valid() && In(root, p)
      modifies this`root, this`owners
      ensures Valid() && PresentToc() == old(PresentToc()) && Grown(old(root), root)
      ensures old(Unasked(root)) ==> Unasked(root) && FullToc() == old(FullToc())
      ensures Adjacent(PresentToc(), Next, p, next) && (next.Some? ==> In(root, next.value))
    {
      EnsureLoaded(p);
      ShowsChildren(Now().t, system, root, p);
      AtChild(root, p, 0);
      FullChild(PresentToc(), p, 0);
      FirstChildIsNext(PresentToc(), p);
      if At(root, p).kids != [] {
        return Some(p + [0]);
      }
      next := NextAbove(p);
    }

    /** The next sibling of the nearest element from `p` upwards that has one. */
    method NextAbove(p: Path) returns (next: Option<Path>)
      requires Valid() && In(root, p) && InFull(PresentToc(), p) && NothingLeftIn(PresentToc(), p, p)
      ensures Adjacent(PresentToc(), Next, p, next) && (next.Some? ==> In(root, next.value))
    {
      var c := p;
      while c != []
        invariant In(root, c) && NothingLeftIn(PresentToc(), p, c)
        decreases |c|
      {
        ClimbStep(Now().t, system, root, p, c);
        var a := Parent(c);
        if Last(c) + 1 < |At(root, a).kids| {
          return Some(NextSibling(c));
        }
        c := a;
      }
      next := None;
    }

    /** The deepest last descendant of the previous sibling, else the parent. */
    method GetPreviousNode(p: Path) returns (previous: Option<Path>)
      requires Valid() && In(root, p)
      modifies this`root, this`owners
      ensures Valid() && PresentToc() == old(PresentToc()) && Grown(old(root), root)
      ensures old(Unasked(root)) ==> Unasked(root) && FullToc() == old(FullToc())
      ensures Adjacent(PresentToc(), Previous, p, previous) && (previous.Some? ==> In(root, previous.value))
    {
      if p == [] || Last(p) == 0 {
        InMemoryInFull(Present, Now().t, system, root, p);
        FirstIsPrecededByParent(PresentToc(), p);
        if p == [] {
          return None;
        }
        AtParent(root, p);
        return Some(Parent(p));
      }
      var c := PreviousSibling(p);
      SiblingGap(Now().t, system, root, p);
      EnsureLoaded(c);
      var d := DeepestUnder(p, c);
      previous := Some(d);
    }

    /** Goes down from a loaded element along last children, loading at the bottom, until there
        is nothing further down. */
    method DeepestUnder(ghost p: Path, c: Path) returns (d: Path)
      requires Valid() && In(root, c) && At(root, c).pending.Nothing?
      requires GapIsUnder(PresentToc(), p, c)
      modifies this`root, this`owners
      ensures Valid() && PresentToc() == old(PresentToc()) && Grown(old(root), root)
      ensures old(Unasked(root)) ==> Unasked(root) && FullToc() == old(FullToc())
      ensures Adjacent(PresentToc(), Previous, p, Some(d)) && In(root, d)
      decreases Remaining(PresentToc(), Next, c)
    {
      ShowsChildren(Now().t, system, root, c);
      var child := DeepestChild(At(root, c));
      if child == None {
        DescendGap(PresentToc(), p, c);
        return c;
      }
      d := c + child.value;
      DeepestChildGap(Now().t, system, root, p, c);
      StepShrinks(PresentToc(), Next, c, d);
      EnsureLoaded(d);
      d := DeepestUnder(p, d);
    }

    /** The move reaches no place behind which a topic is to come. */
    ghost predicate ReachesNothingHidden(move: Move, p: Path)
      requires Valid()
      reads this
    {
      forall a | Hides(PresentToc(), FullToc(), rule, a) :: !Reaches(PresentToc(), rule, move, p, Gap(PresentToc(), a))
    }

    /** Moves until a topic is reached or there is nowhere to move. */
    method GetMoveTocTopicNode(move: Move, p: Path) returns (topic: Option<Path>)
      requires Valid() && In(root, p)
      modifies this`root, this`owners
      ensures Valid() && PresentToc() == old(PresentToc()) && Grown(old(root), root)
      ensures old(Unasked(root)) ==> Unasked(root) && FullToc() == old(FullToc())
      ensures NearestTopic(PresentToc(), rule, move, p, topic)
      ensures NearestTopic(old(FullToc()), rule, move, p, topic) <==> old(ReachesNothingHidden(move, p))
      ensures topic.Some? ==> In(root, topic.value)
    {
      InMemoryInFull(Present, Now().t, system, root, p);
      PresentPrunesFinal(Now().t, system, root);
      topic := MoveToTopic(move, p);
      MoveInTransit(old(PresentToc()), old(FullToc()), rule, move, p, topic);
    }

    /** A move, and as long as it does not end at a topic another one. */
    method MoveToTopic(move: Move, p: Path) returns (topic: Option<Path>)
      requires Valid() && In(root, p)
      modifies this`root, this`owners
      ensures Valid() && PresentToc() == old(PresentToc()) && Grown(old(root), root)
      ensures old(Unasked(root)) ==> Unasked(root) && FullToc() == old(FullToc())
      ensures NearestTopic(PresentToc(), rule, move, p, topic)
      ensures topic.Some? ==> In(root, topic.value)
      decreases Remaining(PresentToc(), move, p)
    {
      var moved: Option<Path>;
      match move {
        case Next => moved := GetNextNode(p);
        case Previous => moved := GetPreviousNode(p);
      }
      if moved == None {
        return None;
      }
      InMemoryInFull(Present, Now().t, system, root, moved.value);
      TopicsExactly(rule, At(root, moved.value).attrs);
      if HasTopicExtension(rule, At(root, moved.value).attrs) {
        return moved;
      }
      StepShrinks(PresentToc(), move, p, moved.value);
      topic := MoveToTopic(move, moved.value);
      SkipNonTopic(PresentToc(), rule, move, p, moved.value, topic);
    }

    // ----- Resolving and printing paths -----

    /** The first of the elements with the title `step`. */
    static method FindBook(elements: seq<Attrs>, step: string) returns (book: Option<nat>)
      ensures book == FirstBook(elements, step)
    {
      for i := 0 to |elements|
        invariant forall j | 0 <= j < i :: Read(elements[j].title) != Some(step)
      {
        if Read(elements[i].title) == Some(step) {
          return Some(i);
        }
      }
      book := None;
    }

    /** The element itself, else its first child, whose link is the wanted one. */
    static method FindLinkNode(own: Attrs, kids: seq<Attrs>, href: string, exact: bool, htmlHelp: bool)
      returns (found: Option<Path>)
      ensures found == FindLink(own, kids, href, exact, htmlHelp)
    {
      if LinkMatches(own, href, true, htmlHelp) {
        return Some([]);
      }
      var kid := FindLinkIn(kids, href, exact, htmlHelp);
      found := if kid == None then None else Some([kid.value]);
    }

    /** The first of the elements whose link is the wanted one. */
    static method FindLinkIn(elements: seq<Attrs>, href: string, exact: bool, htmlHelp: bool)
      returns (found: Option<nat>)
      ensures found == FirstLink(elements, href, exact, htmlHelp)
    {
      for i := 0 to |elements|
        invariant forall j | 0 <= j < i :: !LinkMatches(elements[j], href, exact, htmlHelp)
      {
        if LinkMatches(elements[i], href, exact, htmlHelp) {
          return Some(i);
        }
      }
      found := None;
    }

    /** Follows the steps of a path until one meets an element that still stands for content, fails,
        or all are done. */
    method WalkSteps(steps: seq<string>) returns (w: Walk)
      requires Valid()
      ensures w.AtPending? ==> In(root, w.p) && !At(root, w.p).pending.Nothing?
      ensures w.Ended? ==> Descend(PresentToc(), [], steps) == w.outcome
      ensures w.Ended? && w.outcome.Found? ==>
        In(root, w.outcome.p) && At(root, w.outcome.p).pending.Nothing?
    {
      var c: Path := [];
      for i := 0 to |steps|
        invariant In(root, c) && InFull(PresentToc(), c)
        invariant Descend(PresentToc(), [], steps) == Descend(PresentToc(), c, steps[i..])
      {
        if !At(root, c).pending.Nothing? {
          return AtPending(c);
        }
        AttrsInFull(Now().t, system, root, c);
        var book := FindBook(EntryAttrs(At(root, c)), steps[i]);
        if book == None {
          return Ended(if i + 1 == |steps| then NotFound else Throws);
        }
        AtChild(root, c, book.value);
        FullChild(PresentToc(), c, book.value);
        assert steps[i..][1..] == steps[i + 1..];
        c := c + [book.value];
      }
      w := if At(root, c).pending.Nothing? then Ended(Found(c)) else AtPending(c);
    }

    /** The elements not shown yet or still standing for content. */
    ghost function Unloaded(): set<Path>
      requires Valid()
      reads this
    {
      set p | p in Positions(PresentToc()) && !(In(root, p) && At(root, p).pending.Nothing?)
    }

    /** Resolves a path, starting over after each load it needs with the address kept in the field; it is emptied
        only when the book is there. */
    method GetTocNode(tocPath: string, href: string) returns (r: Outcome)
      requires Valid()
      modifies this`root, this`owners, this`address
      ensures Valid() && PresentToc() == old(PresentToc()) && Grown(old(root), root)
      ensures old(Unasked(root)) ==> Unasked(root) && FullToc() == old(FullToc())
      ensures r == Resolve(PresentToc(), tocPath, href, htmlHelp)
      ensures r.Found? ==> In(root, r.p)
      ensures address == if Descend(PresentToc(), [], ParsePath(tocPath).0).Found? then None
                         else Some(TocCalls.Address(tocPath, href))
      decreases Unloaded()
    {
      address := Some(TocCalls.Address(tocPath, href));
      var (steps, k) := ParsePath(tocPath);
      var w := WalkSteps(steps);
      if w.AtPending? {
        InMemoryInFull(Present, Now().t, system, root, w.p);
        assert w.p in Unloaded();
        EnsureLoaded(w.p);
        assert w.p !in Unloaded();
        r := GetTocNode(address.value.tocPath, address.value.href);
        return;
      }
      if !w.outcome.Found? {
        return w.outcome;
      }
      var c := w.outcome.p;
      AttrsInFull(Now().t, system, root, c);
      var found := PickNode(c, k, href);
      PickedIn(root, c, found);
      address := None;
      r := if found == None then NotFound else Found(c + found.value);
    }

    /** The element or child of a loaded book that the end of a path, or else the topic's address
        within the owner's folder, picks. */
    method PickNode(c: Path, k: int, href: string) returns (found: Option<Path>)
      requires Valid() && In(root, c)
      ensures found == Pick(At(root, c).attrs, EntryAttrs(At(root, c)),
                            OwnerAt(Now().t, system, root, c).data.path, k, href, htmlHelp)
    {
      if k == 0 {
        found := Some([]);
      } else if k > 0 {
        found := if k - 1 < |At(root, c).kids| then Some([k - 1]) else None;
      } else {
        var owner := GetOwnerHelpSystem(c);
        var rel := Url.ToRelative(href, owner.data.path);
        found := FindLinkNode(At(root, c).attrs, EntryAttrs(At(root, c)), Lower(rel), true, htmlHelp);
        if found == None {
          found := FindLinkNode(At(root, c).attrs, EntryAttrs(At(root, c)), Lower(Url.PlainPath(rel)), false, htmlHelp);
        }
      }
    }

    /** Prints the path of an element from its own title and place up to the root. */
    method GetTocPath(p: Path) returns (text: Option<string>)
      requires In(root, p) && p != []
      ensures text == PrintedPath(root, p)
    {
      PrefixesIn(root, p);
      var e := At(root, p);
      var path := "";
      var k := Last(p) + 1;
      if e.kids != [] {
        if Read(e.attrs.title).None? {
          return None;
        }
        path := Read(e.attrs.title).value;
        k := 0;
      }
      if |path| > 0 {
        path := path + "|";
      }
      path := path + "$$$$$" + Decimal(k);
      OwnStep(root, p, path);
      var c := Parent(p);
      while c != []
        invariant c < p && In(root, c)
        invariant PrintedPath(root, p) == Some(Join(Books(root, p, |c|) + [path], '|'))
        decreases |c|
      {
        assert c == p[..|c|] && Parent(c) == p[..|c| - 1];
        JoinStep(root, p, |c|, path);
        var title := At(root, c).attrs.title;
        if title == None || title == Some("") {
          path := "null" + "|" + path;
        } else {
          path := title.value + "|" + path;
        }
        c := Parent(c);
      }
      assert Books(root, p, 0) + [path] == [path];
      text := Some(path);
    }

    // ----- Numbering -----

    /** The number of an entry among the topics of its top-level ancestor, from stored counts. */
    method ComputeEntrySequenceIndex(p: Path) returns (index: int)
      requires Valid() && In(root, p) && p != []
      ensures InFull(PresentToc(), p) && index == SequenceIndex(PresentToc(), p)
      ensures InFull(FullToc(), p) && index == SequenceIndex(FullToc(), p)
      decreases |p|
    {
      InMemoryInFull(Present, Now().t, system, root, p);
      PresentPrunesFinal(Now().t, system, root);
      PrunedIndex(PresentToc(), FullToc(), p);
      if |p| == 1 {
        return 0;
      }
      AtParent(root, p);
      KidsShown(Now().t, system, root, Parent(p));
      index := if Read(At(root, p).attrs.link).Some? then 1 else 0;
      var before := CountPreviousSiblings(EntryAttrs(At(root, Parent(p))), Last(p));
      var above := ComputeEntrySequenceIndex(Parent(p));
      index := index + before + above;
    }

    /** The stored counts of the siblings before number `k`, and those that are topics, from the last of
        them back to the first. */
    static method CountPreviousSiblings(siblings: seq<Attrs>, k: nat) returns (count: int)
      requires k < |siblings|
      ensures count == CountBefore(siblings, k)
    {
      count := 0;
      var j := k;
      while j > 0
        invariant 0 <= j <= k
        invariant count == CountBefore(siblings, k) - CountBefore(siblings, j)
      {
        j := j - 1;
        var stored := siblings[j].count;
        count := count + if stored.Some? then stored.value else 0;
        CountStep(siblings, j);
        if HasTopicExtension(TopicRule(None), siblings[j]) {
          count := count + 1;
        }
      }
    }

    /** The total stored in the entry's top-level ancestor; -1 when it stores none. */
    method GetIndexTotalForEntry(p: Path) returns (total: int)
      requires Valid() && In(root, p) && p != []
      ensures InFull(FullToc(), p[..1])
      ensures var count := AtFull(FullToc(), p[..1]).attrs.count;
              total == if count.Some? then count.value else -1
    {
      var c := p;
      while |c| > 1
        invariant In(root, c) && c != [] && c <= p
        decreases |c|
      {
        AtParent(root, c);
        c := Parent(c);
      }
      assert c == p[..1];
      InMemoryInFull(Final, Now().t, system, root, c);
      var count := At(root, c).attrs.count;
      total := if count.Some? then count.value else -1;
    }
  }
}
