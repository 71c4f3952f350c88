/** Which file a chunk is loaded from. The code looks a bare chunk name up among the data files of the
    table's own system, whatever system the element belongs to. */
module TocChunks {
  import opened Options
  import opened TocTree

  /** The table in which each bare name is looked up in the folder of the system it belongs to. */
  function Owned(t: Table): Table {
    t.(folder := None)
  }

  /** Two folders give a name the same address exactly when the name is an address already or the folders
      are the same. */
  lemma ChunkFileAgrees(a: string, b: string, name: string)
    ensures ChunkFile(a, name) == ChunkFile(b, name) <==> '/' in name || a == b
  {
    var rest := "Data/" + name;
    assert a + "Data/" + name == a + rest && b + "Data/" + name == b + rest;
    if a + rest == b + rest {
      assert |a| == |b|;
      assert a == (a + rest)[..|a|] == (b + rest)[..|b|] == b;
    }
  }

  /** The document stands for well-formed content with either way of looking names up. */
  predicate WellFormedBoth(t: Table, d: nat, owner: System, item: Item) {
    t.folder.Some? && WellFormed(t, d, owner, item) && WellFormed(Owned(t), d, owner, item)
  }

  // ----- When the trees differ -----

  /** Wherever the two ways give different files, in this element and in all it stands for, the files stand for
      the same. */
  predicate SameContent(t: Table, d: nat, owner: System, item: Item)
    requires WellFormedBoth(t, d, owner, item)
    decreases owner, d, item
  {
    match item.pending
    case Nothing => forall i | 0 <= i < |item.kids| :: SameContent(t, d, owner, item.kids[i])
    case Chunk(name) =>
      var f, g := FileOf(t, owner, name), FileOf(Owned(t), owner, name);
      if f == g then
        forall i | 0 <= i < |t.files[f].doc| :: SameContent(t, t.files[f].depth, owner, t.files[f].doc[i])
      else
        FileNodes(t, owner, f) == FileNodes(Owned(t), owner, g)
    case Merge(h) =>
      forall i | 0 <= i < |owner.subs[h].data.toc| :: SameContent(t, t.top, owner.subs[h], owner.subs[h].data.toc[i])
  }

  /** The fully expanded tree is the one in which every chunk comes from the system it belongs to exactly when
      no name is looked up in a file that stands for something else. */
  lemma {:induction false} ExpandsAsOwned(t: Table, d: nat, owner: System, item: Item)
    requires WellFormedBoth(t, d, owner, item)
    ensures Expand(t, d, owner, item) == Expand(Owned(t), d, owner, item) <==> SameContent(t, d, owner, item)
    decreases owner, d, item, 0
  {
    match item.pending
    case Nothing => AllExpandAsOwned(t, d, owner, item.kids);
    case Chunk(name) =>
      if FileOf(t, owner, name) == FileOf(Owned(t), owner, name) {
        var f := t.files[FileOf(t, owner, name)];
        AllExpandAsOwned(t, f.depth, owner, f.doc);
      }
    case Merge(h) => AllExpandAsOwned(t, t.top, owner.subs[h], owner.subs[h].data.toc);
  }

  lemma {:induction false} AllExpandAsOwned(t: Table, d: nat, owner: System, items: seq<Item>)
    requires t.folder.Some?
    requires forall k | k in items :: WellFormed(t, d, owner, k) && WellFormed(Owned(t), d, owner, k)
    ensures ExpandAll(t, d, owner, items) == ExpandAll(Owned(t), d, owner, items)
       <==> forall i | 0 <= i < |items| :: SameContent(t, d, owner, items[i])
    decreases owner, d, items, 1
  {
    forall i | 0 <= i < |items|
      ensures Expand(t, d, owner, items[i]) == Expand(Owned(t), d, owner, items[i])
         <==> SameContent(t, d, owner, items[i])
    {
      ExpandsAsOwned(t, d, owner, items[i]);
    }
    var x, y := ExpandAll(t, d, owner, items), ExpandAll(Owned(t), d, owner, items);
    assert x == y <==> forall i | 0 <= i < |items| :: x[i] == y[i];
  }

  // ----- Whatever the files hold -----

  /** Every bare chunk name, in this element and in all it stands for, belongs to a system whose folder is
      the table's own. */
  predicate NamesAgree(t: Table, d: nat, owner: System, item: Item)
    requires t.folder.Some? && WellFormed(t, d, owner, item)
    decreases owner, d, item
  {
    match item.pending
    case Nothing => forall i | 0 <= i < |item.kids| :: NamesAgree(t, d, owner, item.kids[i])
    case Chunk(name) =>
      var f := t.files[FileOf(t, owner, name)];
      && ('/' in name || owner.data.path == t.folder.value)
      && forall i | 0 <= i < |f.doc| :: NamesAgree(t, f.depth, owner, f.doc[i])
    case Merge(h) =>
      forall i | 0 <= i < |owner.subs[h].data.toc| :: NamesAgree(t, t.top, owner.subs[h], owner.subs[h].data.toc[i])
  }

  /** One more entry, without content, at the end of file `g`. */
  function Extended(t: Table, g: string, x: Attrs): Table
    requires g in t.files
  {
    t.(files := t.files[g := File(t.files[g].depth, t.files[g].doc + [Item(x, Nothing, [])])])
  }

  lemma {:induction false} ExtendedWellFormed(t: Table, g: string, x: Attrs, d: nat, owner: System, item: Item)
    requires g in t.files && WellFormed(t, d, owner, item)
    ensures WellFormed(Extended(t, g, x), d, owner, item)
    decreases owner, d, item, 0
  {
    match item.pending
    case Nothing => ExtendedAllWellFormed(t, g, x, d, owner, item.kids);
    case Chunk(name) =>
      var f := FileOf(t, owner, name);
      ExtendedAllWellFormed(t, g, x, t.files[f].depth, owner, t.files[f].doc);
    case Merge(h) => ExtendedAllWellFormed(t, g, x, t.top, owner.subs[h], owner.subs[h].data.toc);
  }

  lemma {:induction false} ExtendedAllWellFormed(t: Table, g: string, x: Attrs, d: nat, owner: System, items: seq<Item>)
    requires g in t.files && forall k | k in items :: WellFormed(t, d, owner, k)
    ensures forall k | k in items :: WellFormed(Extended(t, g, x), d, owner, k)
    decreases owner, d, items, 1
  {
    forall i | 0 <= i < |items| ensures WellFormed(Extended(t, g, x), d, owner, items[i]) {
      ExtendedWellFormed(t, g, x, d, owner, items[i]);
    }
  }

  lemma ExtendedBoth(t: Table, g: string, x: Attrs, d: nat, owner: System, item: Item)
    requires g in t.files && WellFormedBoth(t, d, owner, item)
    ensures WellFormedBoth(Extended(t, g, x), d, owner, item)
  {
    ExtendedWellFormed(t, g, x, d, owner, item);
    ExtendedWellFormed(Owned(t), g, x, d, owner, item);
    assert Extended(Owned(t), g, x) == Owned(Extended(t, g, x));
  }

  /** However one of the files is extended, the trees are the same. */
  ghost predicate SameWhatever(t: Table, d: nat, owner: System, item: Item)
    requires WellFormedBoth(t, d, owner, item)
  {
    forall g, x | g in t.files ::
      ExtendedBoth(t, g, x, d, owner, item);
      Expand(Extended(t, g, x), d, owner, item) == Expand(Owned(Extended(t, g, x)), d, owner, item)
  }

  /** The trees are the same whatever the files hold exactly when bare names are used only in systems whose folder
      is the table's own. */
  lemma {:induction false} NamesDecide(t: Table, d: nat, owner: System, item: Item)
    requires WellFormedBoth(t, d, owner, item)
    ensures NamesAgree(t, d, owner, item) <==> SameWhatever(t, d, owner, item)
  {
    if NamesAgree(t, d, owner, item) {
      forall g, x | g in t.files
        ensures WellFormedBoth(Extended(t, g, x), d, owner, item)
        ensures Expand(Extended(t, g, x), d, owner, item) == Expand(Owned(Extended(t, g, x)), d, owner, item)
      {
        ExtendedBoth(t, g, x, d, owner, item);
        ExtendedNames(t, g, x, d, owner, item);
        NamesSuffice(Extended(t, g, x), d, owner, item);
        ExpandsAsOwned(Extended(t, g, x), d, owner, item);
      }
    } else {
      var g, x := Mismatch(t, d, owner, item);
    }
  }

  lemma {:induction false} ExtendedNames(t: Table, g: string, x: Attrs, d: nat, owner: System, item: Item)
    requires g in t.files && t.folder.Some? && WellFormed(t, d, owner, item) && NamesAgree(t, d, owner, item)
    ensures WellFormed(Extended(t, g, x), d, owner, item) && NamesAgree(Extended(t, g, x), d, owner, item)
    decreases owner, d, item, 0
  {
    ExtendedWellFormed(t, g, x, d, owner, item);
    match item.pending
    case Nothing => ExtendedAllNames(t, g, x, d, owner, item.kids);
    case Chunk(name) =>
      var f := FileOf(t, owner, name);
      ExtendedAllNames(t, g, x, t.files[f].depth, owner, t.files[f].doc);
    case Merge(h) => ExtendedAllNames(t, g, x, t.top, owner.subs[h], owner.subs[h].data.toc);
  }

  lemma {:induction false} ExtendedAllNames(t: Table, g: string, x: Attrs, d: nat, owner: System, items: seq<Item>)
    requires g in t.files && t.folder.Some? && forall k | k in items :: WellFormed(t, d, owner, k)
    requires forall i | 0 <= i < |items| :: NamesAgree(t, d, owner, items[i])
    ensures forall i | 0 <= i < |items| :: WellFormed(Extended(t, g, x), d, owner, items[i])
    ensures forall i | 0 <= i < |items| :: NamesAgree(Extended(t, g, x), d, owner, items[i])
    decreases owner, d, items, 1
  {
    forall i | 0 <= i < |items|
      ensures WellFormed(Extended(t, g, x), d, owner, items[i]) && NamesAgree(Extended(t, g, x), d, owner, items[i])
    {
      ExtendedNames(t, g, x, d, owner, items[i]);
    }
  }

  /** Where the names agree, so do the files. */
  lemma {:induction false} NamesSuffice(t: Table, d: nat, owner: System, item: Item)
    requires WellFormedBoth(t, d, owner, item) && NamesAgree(t, d, owner, item)
    ensures SameContent(t, d, owner, item)
    decreases owner, d, item
  {
    match item.pending
    case Nothing =>
      forall i | 0 <= i < |item.kids| ensures SameContent(t, d, owner, item.kids[i]) {
        NamesSuffice(t, d, owner, item.kids[i]);
      }
    case Chunk(name) =>
      ChunkFileAgrees(t.folder.value, owner.data.path, name);
      var f := t.files[FileOf(t, owner, name)];
      forall i | 0 <= i < |f.doc| ensures SameContent(t, f.depth, owner, f.doc[i]) {
        NamesSuffice(t, f.depth, owner, f.doc[i]);
      }
    case Merge(h) =>
      var toc := owner.subs[h].data.toc;
      forall i | 0 <= i < |toc| ensures SameContent(t, t.top, owner.subs[h], toc[i]) {
        NamesSuffice(t, t.top, owner.subs[h], toc[i]);
      }
  }

  /** Attributes that the last of the items does not have. */
  function OtherThanLast(items: seq<Item>): (x: Attrs)
    ensures items != [] ==> x != items[|items| - 1].attrs
  {
    if items != [] && items[|items| - 1].attrs == NO_ATTRS then Attrs(Some(""), None, None) else NO_ATTRS
  }

  /** Where the names do not agree, an entry that the owner's file gets and the other does not shows it. */
  lemma {:induction false} Mismatch(t: Table, d: nat, owner: System, item: Item) returns (g: string, x: Attrs)
    requires WellFormedBoth(t, d, owner, item) && !NamesAgree(t, d, owner, item)
    ensures g in t.files && WellFormedBoth(Extended(t, g, x), d, owner, item)
    ensures Expand(Extended(t, g, x), d, owner, item) != Expand(Owned(Extended(t, g, x)), d, owner, item)
    decreases owner, d, item
  {
    match item.pending
    case Nothing =>
      var i :| 0 <= i < |item.kids| && !NamesAgree(t, d, owner, item.kids[i]);
      g, x := Mismatch(t, d, owner, item.kids[i]);
      ExtendedBoth(t, g, x, d, owner, item);
      DifferAt(Extended(t, g, x), d, owner, item.kids, i);
    case Chunk(name) =>
      var f := FileOf(t, owner, name);
      ChunkFileAgrees(t.folder.value, owner.data.path, name);
      if f == FileOf(Owned(t), owner, name) {
        var doc := t.files[f].doc;
        var i :| 0 <= i < |doc| && !NamesAgree(t, t.files[f].depth, owner, doc[i]);
        g, x := Mismatch(t, t.files[f].depth, owner, doc[i]);
        ExtendedBoth(t, g, x, d, owner, item);
        DifferAt(Extended(t, g, x), t.files[f].depth, owner, Extended(t, g, x).files[f].doc, i);
      } else {
        g, x := FileOf(Owned(t), owner, name), OtherThanLast(t.files[f].doc);
        ExtendedBoth(t, g, x, d, owner, item);
        LastDiffers(t, d, owner, item, f, g, x);
      }
    case Merge(h) =>
      var toc := owner.subs[h].data.toc;
      var i :| 0 <= i < |toc| && !NamesAgree(t, t.top, owner.subs[h], toc[i]);
      g, x := Mismatch(t, t.top, owner.subs[h], toc[i]);
      ExtendedBoth(t, g, x, d, owner, item);
      DifferAt(Extended(t, g, x), t.top, owner.subs[h], toc, i);
  }

  lemma DifferAt(t: Table, d: nat, owner: System, items: seq<Item>, i: nat)
    requires t.folder.Some?
    requires forall k | k in items :: WellFormed(t, d, owner, k) && WellFormed(Owned(t), d, owner, k)
    requires i < |items| && WellFormedBoth(t, d, owner, items[i])
    requires Expand(t, d, owner, items[i]) != Expand(Owned(t), d, owner, items[i])
    ensures ExpandAll(t, d, owner, items) != ExpandAll(Owned(t), d, owner, items)
  {
    assert ExpandAll(t, d, owner, items)[i] != ExpandAll(Owned(t), d, owner, items)[i];
  }

  lemma {:induction false} LastDiffers(t: Table, d: nat, owner: System, item: Item, f: string, g: string, x: Attrs)
    requires g in t.files && WellFormedBoth(Extended(t, g, x), d, owner, item) && item.pending.Chunk?
    requires f == FileOf(t, owner, item.pending.name) && g == FileOf(Owned(t), owner, item.pending.name) && f != g
    requires f in t.files && x == OtherThanLast(t.files[f].doc)
    ensures Expand(Extended(t, g, x), d, owner, item) != Expand(Owned(Extended(t, g, x)), d, owner, item)
  {
    var u := Extended(t, g, x);
    var a, b := u.files[f].doc, u.files[g].doc;
    var m, n := Expand(u, d, owner, item), Expand(Owned(u), d, owner, item);
    assert n.kids[|b| - 1] == Expand(Owned(u), u.files[g].depth, owner, b[|b| - 1]);
    assert n.kids[|b| - 1].attrs == x;
    if a != [] {
      assert m.kids[|a| - 1] == Expand(u, u.files[f].depth, owner, a[|a| - 1]);
      assert m.kids[|a| - 1].attrs == a[|a| - 1].attrs;
    }
  }

  // ----- A chunk below a merge -----

  const NO_ATTRS := Attrs(None, None, None)
  const BARE := Item(NO_ATTRS, Chunk("Toc1.xml"), [])
  const MERGE := Item(NO_ATTRS, Merge(0), [])

  /** A system with a subsystem in the folder "Sub/" whose table of contents is one chunk. */
  const SUB := SystemTree.Tree(Toc("Sub/", [BARE]), [])
  const MASTER := SystemTree.Tree(Toc("", []), [SUB])

  /** The master's chunk and the subsystem's; the latter has an entry. */
  const TABLE := Table(Some(""), map["Data/Toc1.xml" := File(0, []),
                                     "Sub/Data/Toc1.xml" := File(0, [Item(NO_ATTRS, Nothing, [])])], 1, [])

  lemma ExampleFiles()
    ensures FileOf(TABLE, SUB, "Toc1.xml") == "Data/Toc1.xml"
    ensures FileOf(Owned(TABLE), SUB, "Toc1.xml") == "Sub/Data/Toc1.xml"
  {
    assert "" + "Data/" + "Toc1.xml" == "Data/Toc1.xml";
    assert "Sub/" + "Data/" + "Toc1.xml" == "Sub/Data/Toc1.xml";
  }

  /** Below the merge the master's chunk is asked for and not the subsystem's, and its entry is missing. */
  lemma {:induction false} MergedChunkMissed()
    ensures WellFormedBoth(TABLE, 1, MASTER, MERGE)
    ensures Expand(TABLE, 1, MASTER, MERGE).kids == [Node(NO_ATTRS, SUB, [])]
    ensures Expand(Owned(TABLE), 1, MASTER, MERGE).kids == [Node(NO_ATTRS, SUB, [Node(NO_ATTRS, SUB, [])])]
  {
    ExampleFiles();
    assert WellFormedBoth(TABLE, 1, SUB, BARE);
    assert Expand(TABLE, 1, SUB, BARE) == Node(NO_ATTRS, SUB, []);
    var entry := Item(NO_ATTRS, Nothing, []);
    assert WellFormed(Owned(TABLE), 0, SUB, entry);
    assert Expand(Owned(TABLE), 0, SUB, entry) == Node(NO_ATTRS, SUB, []);
    assert ExpandAll(Owned(TABLE), 0, SUB, [entry]) == [Node(NO_ATTRS, SUB, [])];
    assert Expand(Owned(TABLE), 1, SUB, BARE) == Node(NO_ATTRS, SUB, [Node(NO_ATTRS, SUB, [])]);
  }
}
