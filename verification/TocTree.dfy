/** The table of contents as documents (`Item`), as the tree being expanded in memory (`Entry`)
    and as the fully expanded tree (`Node`). */
module TocTree {
  import opened Options
  import opened Preorder
  import SystemTree

  /** The three attributes of a TocEntry element that the runtime reads, as stored. */
  datatype Attrs = Attrs(title: Option<string>, link: Option<string>, count: Option<int>)

  /** What a read of a text attribute returns: an empty attribute reads as a missing one. */
  function Read(a: Option<string>): Option<string> {
    if a == Some("") then None else a
  }

  /** Content an element stands for: none, a chunk file, or the table of contents of the owner's
      subsystem number `hint`. */
  datatype Pending = Nothing | Chunk(name: string) | Merge(hint: nat)

  /** A TocEntry element of a document. */
  datatype Item = Item(attrs: Attrs, pending: Pending, kids: seq<Item>)

  /** What is of interest about a help system: its folder and the entries of its TOC document. */
  datatype Toc = Toc(path: string, toc: seq<Item>)

  type System = SystemTree.Tree<Toc>

  /** A chunk file: its entries, and how deep chunks nest in it. */
  datatype File = File(depth: nat, doc: seq<Item>)

  /** What a table of contents has beside its tree: the folder that bare chunk names are looked up in, or
      nothing when each is looked up in the folder of the system it belongs to; the chunk files, and more
      than the depth of each; and the subsystems recorded so far (mOwnerHelpSystems). */
  datatype Table = Table(folder: Option<string>, files: map<string, File>, top: nat, owners: seq<System>)

  /** A TocEntry element in memory. `ownerIndex` is the ownerHelpSystemIndex attribute and `pending` the
      Chunk or MergeHint attribute. The element itself shows no sign of the rest: `arriving` marks an
      element whose merge was requested and whose document is still on its way, `chunk` is the chunk file
      that was put below it, and `coming` counts the requests for its chunk that are still on their way. */
  datatype Entry = Entry(attrs: Attrs, ownerIndex: Option<nat>, pending: Pending, arriving: bool,
                         chunk: Option<string>, coming: nat, kids: seq<Entry>)

  /** An element of the fully expanded tree, with the help system it belongs to. */
  datatype Node = Node(attrs: Attrs, owner: System, kids: seq<Node>)

  // ----- Documents -----

  /** The address that a chunk file is loaded from when it is named in folder `path`: a bare name is
      looked up among the data files there, any other name is an address already. */
  function ChunkFile(path: string, name: string): string {
    if '/' in name then name else path + "Data/" + name
  }

  function FileOf(t: Table, owner: System, name: string): string {
    ChunkFile(if t.folder.Some? then t.folder.value else owner.data.path, name)
  }

  /** A document of `owner`'s is well formed when elements that stand for content have no children yet,
      every merge hint names a subsystem and every chunk name a file whose chunks nest less than `d` deep,
      in this document and in all it stands for. */
  predicate WellFormed(t: Table, d: nat, owner: System, item: Item)
    decreases owner, d, item
  {
    && (!item.pending.Nothing? ==> item.kids == [])
    && (match item.pending
        case Nothing => forall k | k in item.kids :: WellFormed(t, d, owner, k)
        case Chunk(name) =>
          var f := FileOf(t, owner, name);
          f in t.files && t.files[f].depth < d
          && forall k | k in t.files[f].doc :: WellFormed(t, t.files[f].depth, owner, k)
        case Merge(h) =>
          h < |owner.subs| && forall k | k in owner.subs[h].data.toc :: WellFormed(t, t.top, owner.subs[h], k))
  }

  predicate WellFormedToc(t: Table, s: System) {
    forall k | k in s.data.toc :: WellFormed(t, t.top, s, k)
  }

  predicate WellFormedFile(t: Table, owner: System, f: string) {
    f in t.files && forall k | k in t.files[f].doc :: WellFormed(t, t.files[f].depth, owner, k)
  }

  /** Everything `item` stands for, with every chunk and every merge put in place. */
  function Expand(t: Table, d: nat, owner: System, item: Item): Node
    requires WellFormed(t, d, owner, item)
    decreases owner, d, item
  {
    match item.pending
    case Nothing => Node(item.attrs, owner, ExpandAll(t, d, owner, item.kids))
    case Chunk(name) =>
      var f := FileOf(t, owner, name);
      Node(item.attrs, owner, ExpandAll(t, t.files[f].depth, owner, t.files[f].doc))
    case Merge(h) =>
      Node(item.attrs, owner.subs[h], ExpandAll(t, t.top, owner.subs[h], owner.subs[h].data.toc))
  }

  function ExpandAll(t: Table, d: nat, owner: System, items: seq<Item>): (r: seq<Node>)
    requires forall k | k in items :: WellFormed(t, d, owner, k)
    ensures |r| == |items|
    ensures forall i | 0 <= i < |items| :: r[i] == Expand(t, d, owner, items[i])
    decreases owner, d, items
  {
    seq(|items|, i requires 0 <= i < |items| => Expand(t, d, owner, items[i]))
  }

  /** What a chunk file stands for. */
  function FileNodes(t: Table, owner: System, f: string): (r: seq<Node>)
    requires WellFormedFile(t, owner, f)
    ensures |r| == |t.files[f].doc|
  {
    ExpandAll(t, t.files[f].depth, owner, t.files[f].doc)
  }

  /** What the table of contents of a system stands for. */
  function TocNodes(t: Table, s: System): (r: seq<Node>)
    requires WellFormedToc(t, s)
    ensures |r| == |s.data.toc|
  {
    ExpandAll(t, t.top, s, s.data.toc)
  }

  /** `importNode(item, true)`: a copy that belongs to the tree in memory. */
  function Import(item: Item): Entry {
    Entry(item.attrs, None, item.pending, false, None, 0, ImportAll(item.kids))
  }

  function ImportAll(items: seq<Item>): (r: seq<Entry>)
    ensures |r| == |items|
    ensures forall i | 0 <= i < |items| :: r[i] == Import(items[i])
  {
    seq(|items|, i requires 0 <= i < |items| => Import(items[i]))
  }

  // ----- The tree in memory -----

  /** The help system `e` belongs to when the elements above it belong to `above`. */
  function OwnerOf(t: Table, above: System, e: Entry): System {
    if e.ownerIndex.Some? && e.ownerIndex.value < |t.owners| then t.owners[e.ownerIndex.value] else above
  }

  /** What every tree reached by loading keeps: owner indices are in range, elements that stand for
      content or await a merge have no children, and what they stand for or await is well formed. */
  predicate Sound(t: Table, above: System, e: Entry)
    decreases e
  {
    var own := OwnerOf(t, above, e);
    && (e.ownerIndex.Some? ==> e.ownerIndex.value < |t.owners|)
    && (!e.pending.Nothing? ==> e.kids == [] && !e.arriving && e.chunk == None)
    && (e.arriving ==> e.kids == [] && e.chunk == None && WellFormedToc(t, own))
    && (e.coming > 0 ==> e.pending.Chunk? || e.chunk.Some?)
    && (e.chunk.Some? ==> WellFormedFile(t, own, e.chunk.value))
    && (match e.pending
        case Nothing => forall k | k in e.kids :: Sound(t, own, k)
        case Chunk(name) => WellFormedFile(t, own, FileOf(t, own, name))
        case Merge(h) => h < |own.subs| && WellFormedToc(t, own.subs[h]))
  }

  /** What a tree in memory stands for: finally, with everything that was requested or is still to be
      loaded in place; or at present, without what is on its way. */
  datatype View = Final | Present

  /** `s` as many times as `n` says. */
  function Repeat<T>(n: nat, s: seq<T>): (r: seq<T>)
    ensures n == 1 ==> r == s
    ensures s == [] ==> r == []
  {
    if n == 0 then [] else if n == 1 then s else s + Repeat(n - 1, s)
  }

  /** How many copies of its chunk an element that still stands for it comes to: one for each request. */
  function Copies(v: View, coming: nat): nat {
    if v.Final? && coming > 1 then coming else 1
  }

  /** What is still to come behind the children an element of `own` has: the subsystem's entries, or another
      copy of its chunk for each request that is on its way. */
  function Coming(v: View, t: Table, own: System, arriving: bool, chunk: Option<string>, coming: nat): seq<Node>
    requires arriving ==> WellFormedToc(t, own)
    requires chunk.Some? ==> WellFormedFile(t, own, chunk.value)
  {
    if v.Present? then []
    else if arriving then TocNodes(t, own)
    else if chunk.Some? then Repeat(coming, FileNodes(t, own, chunk.value))
    else []
  }

  /** The fully expanded tree that a tree in memory stands for. */
  function Full(v: View, t: Table, above: System, e: Entry): Node
    requires Sound(t, above, e)
    decreases e
  {
    var own := OwnerOf(t, above, e);
    match e.pending
    case Nothing =>
      Node(e.attrs, own, FullAll(v, t, own, e.kids) + Coming(v, t, own, e.arriving, e.chunk, e.coming))
    case Chunk(name) =>
      var f := FileOf(t, own, name);
      Node(e.attrs, own, Repeat(Copies(v, e.coming), FileNodes(t, own, f)))
    case Merge(h) => Node(e.attrs, own.subs[h], TocNodes(t, own.subs[h]))
  }

  function FullAll(v: View, t: Table, above: System, es: seq<Entry>): (r: seq<Node>)
    requires forall k | k in es :: Sound(t, above, k)
    ensures |r| == |es|
    ensures forall i | 0 <= i < |es| :: r[i] == Full(v, t, above, es[i])
    decreases es
  {
    seq(|es|, i requires 0 <= i < |es| => Full(v, t, above, es[i]))
  }

  // ----- Positions -----

  predicate In(e: Entry, p: Path) {
    p == [] || (p[0] < |e.kids| && In(e.kids[p[0]], p[1..]))
  }

  function At(e: Entry, p: Path): Entry
    requires In(e, p)
  {
    if p == [] then e else At(e.kids[p[0]], p[1..])
  }

  predicate InFull(n: Node, p: Path) {
    p == [] || (p[0] < |n.kids| && InFull(n.kids[p[0]], p[1..]))
  }

  function AtFull(n: Node, p: Path): Node
    requires InFull(n, p)
  {
    if p == [] then n else AtFull(n.kids[p[0]], p[1..])
  }

  /** The tree with the element at `p` replaced by `x`. */
  function Put(e: Entry, p: Path, x: Entry): Entry
    requires In(e, p)
    decreases p
  {
    if p == [] then x else e.(kids := e.kids[p[0] := Put(e.kids[p[0]], p[1..], x)])
  }

  /** The help system that the elements above position `p` belong to. */
  function OwnerAbove(t: Table, above: System, e: Entry, p: Path): System
    requires In(e, p)
    decreases p
  {
    if p == [] then above else OwnerAbove(t, OwnerOf(t, above, e), e.kids[p[0]], p[1..])
  }

  /** The help system that the element at `p` belongs to. */
  function OwnerAt(t: Table, above: System, e: Entry, p: Path): System
    requires In(e, p)
  {
    OwnerOf(t, OwnerAbove(t, above, e, p), At(e, p))
  }

  /** The attributes of a node's children. */
  function KidAttrs(n: Node): seq<Attrs> {
    seq(|n.kids|, i requires 0 <= i < |n.kids| => n.kids[i].attrs)
  }

  /** The attributes of an element's children. */
  function EntryAttrs(e: Entry): seq<Attrs> {
    seq(|e.kids|, i requires 0 <= i < |e.kids| => e.kids[i].attrs)
  }

  /** All positions of the fully expanded tree. */
  function Positions(n: Node): (r: set<Path>)
    ensures forall p :: p in r <==> InFull(n, p)
  {
    var below := set i, p | 0 <= i < |n.kids| && p in Positions(n.kids[i]) :: [i] + p;
    var r := {[]} + below;
    assert forall p :: p in r <==> InFull(n, p) by {
      forall p ensures p in r <==> InFull(n, p) {
        if p != [] {
          assert p == [p[0]] + p[1..];
          if InFull(n, p) {
            assert p[1..] in Positions(n.kids[p[0]]);
          }
          if p in below {
            var i, q :| 0 <= i < |n.kids| && q in Positions(n.kids[i]) && p == [i] + q;
            assert p[1..] == q;
          }
        }
      }
    }
    r
  }
}
