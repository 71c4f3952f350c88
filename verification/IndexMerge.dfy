/** Merging two keyword indexes, each a tree of entries sorted by lower-cased term. */
module IndexMerge {
  import opened Options
  import opened Text

  datatype Link = Link(title: string, href: string)

  /** An IndexEntry element: its term, its links and its sub-entries. */
  datatype Entry = Entry(term: string, links: seq<Link>, subs: seq<Entry>)

  function Key(e: Entry): string {
    Lower(e.term)
  }

  // ----- Merging -----

  /** Two entries for the same term: the first one's term, both their links, their sub-entries merged. */
  function Both(e1: Entry, e2: Entry): Entry
    decreases e1, e2
  {
    Entry(e1.term, e1.links + e2.links, Merge(e1.subs, e2.subs))
  }

  function Merge(a: seq<Entry>, b: seq<Entry>): seq<Entry>
    decreases a, b
  {
    if a == [] then b
    else if b == [] then a
    else if Key(a[0]) == Key(b[0]) then [Both(a[0], b[0])] + Merge(a[1..], b[1..])
    else if Lt(Key(b[0]), Key(a[0])) then [b[0]] + Merge(a, b[1..])
    else [a[0]] + Merge(a[1..], b)
  }

  /** Merges the entries of `e2` into those of `e1`. */
  method MergeIndexEntries(e1: Entry, e2: Entry) returns (r: Entry)
    ensures r == e1.(subs := Merge(e1.subs, e2.subs))
    decreases e1, 1
  {
    var a, b := e1.subs, e2.subs;
    var merged: seq<Entry>;
    if a == [] {
      merged := b;
    } else if b == [] {
      merged := a;
    } else {
      var i, j;
      merged, i, j := MergeCommon(a, b);
      while i < |a|
        invariant 0 <= i <= |a| && (i < |a| ==> j == |b|)
        invariant Merge(a, b) == merged + a[i..] + b[j..]
      {
        assert a[i..] == [a[i]] + a[i + 1..];
        merged := merged + [a[i]];
        i := i + 1;
      }
      while j < |b|
        invariant 0 <= j <= |b|
        invariant Merge(a, b) == merged + b[j..]
      {
        assert b[j..] == [b[j]] + b[j + 1..];
        merged := merged + [b[j]];
        j := j + 1;
      }
    }
    r := e1.(subs := merged);
  }

  /** The part of the merge in which neither list is used up. */
  method MergeCommon(a: seq<Entry>, b: seq<Entry>) returns (merged: seq<Entry>, i: nat, j: nat)
    ensures i <= |a| && j <= |b| && (i == |a| || j == |b|)
    ensures Merge(a, b) == merged + a[i..] + b[j..]
    decreases a, 0
  {
    merged, i, j := [], 0, 0;
    while i < |a| && j < |b|
      invariant 0 <= i <= |a| && 0 <= j <= |b|
      invariant Merge(a, b) == merged + Merge(a[i..], b[j..])
      decreases |a| - i + |b| - j
    {
      var key1, key2 := Key(a[i]), Key(b[j]);
      MergeStep(a, i, b, j, merged);
      if key1 == key2 {
        var both := MergeIndexEntries(a[i], b[j]);
        both := both.(links := both.links + b[j].links);
        merged := merged + [both];
        i, j := i + 1, j + 1;
      } else if Lt(key2, key1) {
        merged := merged + [b[j]];
        j := j + 1;
      } else {
        merged := merged + [a[i]];
        i := i + 1;
      }
    }
    assert i == |a| ==> a[i..] == [];
    assert j == |b| ==> b[j..] == [];
  }

  /** One step of the merge, with what was merged before it. */
  lemma MergeStep(a: seq<Entry>, i: nat, b: seq<Entry>, j: nat, merged: seq<Entry>)
    requires i < |a| && j < |b|
    ensures var rest := merged + Merge(a[i..], b[j..]);
      if Key(a[i]) == Key(b[j]) then rest == merged + [Both(a[i], b[j])] + Merge(a[i + 1..], b[j + 1..])
      else if Lt(Key(b[j]), Key(a[i])) then rest == merged + [b[j]] + Merge(a[i..], b[j + 1..])
      else rest == merged + [a[i]] + Merge(a[i + 1..], b[j..])
  {
    MergeUnfolds(a[i..], b[j..]);
    assert a[i..][1..] == a[i + 1..] && b[j..][1..] == b[j + 1..];
  }

  /** One step of the merge, by which of the two first terms is smaller. */
  lemma MergeUnfolds(a: seq<Entry>, b: seq<Entry>)
    requires a != [] && b != []
    ensures Key(a[0]) == Key(b[0]) ==> Merge(a, b) == [Both(a[0], b[0])] + Merge(a[1..], b[1..])
    ensures Key(a[0]) != Key(b[0]) && Lt(Key(b[0]), Key(a[0])) ==> Merge(a, b) == [b[0]] + Merge(a, b[1..])
    ensures Key(a[0]) != Key(b[0]) && !Lt(Key(b[0]), Key(a[0])) ==> Merge(a, b) == [a[0]] + Merge(a[1..], b)
  {
  }

  // ----- Sortedness -----

  function Keys(a: seq<Entry>): set<string> {
    if a == [] then {} else {Key(a[0])} + Keys(a[1..])
  }

  /** Strictly sorted by lower-cased term, at every level. */
  predicate Sorted(a: seq<Entry>) {
    a == [] || ((forall k | k in Keys(a[1..]) :: Lt(Key(a[0]), k)) && Sorted(a[0].subs) && Sorted(a[1..]))
  }

  lemma {:induction false} KeysMerge(a: seq<Entry>, b: seq<Entry>)
    ensures Keys(Merge(a, b)) == Keys(a) + Keys(b)
    decreases a, b
  {
    if a != [] && b != [] {
      MergeUnfolds(a, b);
      if Key(a[0]) == Key(b[0]) {
        KeysMerge(a[1..], b[1..]);
      } else if Lt(Key(b[0]), Key(a[0])) {
        KeysMerge(a, b[1..]);
      } else {
        KeysMerge(a[1..], b);
      }
    }
  }

  /** Every key of a sorted list that starts above `k` is above `k`. */
  lemma KeysAbove(k: string, a: seq<Entry>)
    requires Sorted(a) && a != [] && Lt(k, Key(a[0]))
    ensures forall x | x in Keys(a) :: Lt(k, x)
  {
    forall x | x in Keys(a) ensures Lt(k, x) {
      if x != Key(a[0]) {
        LtTransitive(k, Key(a[0]), x);
      }
    }
  }

  lemma {:induction false} MergeKeepsSorted(a: seq<Entry>, b: seq<Entry>)
    requires Sorted(a) && Sorted(b)
    ensures Sorted(Merge(a, b))
    decreases a, b
  {
    if a != [] && b != [] {
      MergeUnfolds(a, b);
      LtOrder(Key(a[0]), Key(b[0]));
      if Key(a[0]) == Key(b[0]) {
        MergeKeepsSorted(a[0].subs, b[0].subs);
        MergeKeepsSorted(a[1..], b[1..]);
        KeysMerge(a[1..], b[1..]);
      } else if Lt(Key(b[0]), Key(a[0])) {
        MergeKeepsSorted(a, b[1..]);
        KeysMerge(a, b[1..]);
        KeysAbove(Key(b[0]), a);
      } else {
        MergeKeepsSorted(a[1..], b);
        KeysMerge(a[1..], b);
        KeysAbove(Key(a[0]), b);
      }
    }
  }

  /** Each term stands before the next one, in small letters and character by character, at every level. */
  ghost predicate Ascending(a: seq<Entry>) {
    a == [] || ((|a| > 1 ==> TermsAscend(a[0], a[1])) && Ascending(a[0].subs) && Ascending(a[1..]))
  }

  ghost predicate TermsAscend(x: Entry, y: Entry) {
    Ascends(InSmall(x.term), InSmall(y.term))
  }

  lemma KeysAscend(x: Entry, y: Entry)
    ensures Lt(Key(x), Key(y)) <==> TermsAscend(x, y)
  {
    LowerIsSmall(x.term);
    LowerIsSmall(y.term);
    LtExactly(Key(x), Key(y));
  }

  /** Sorted indexes are the ascending ones. */
  lemma {:induction false} SortedAscends(a: seq<Entry>)
    ensures Sorted(a) <==> Ascending(a)
    decreases a
  {
    if a != [] {
      SortedAscends(a[0].subs);
      SortedAscends(a[1..]);
      if |a| > 1 {
        KeysAscend(a[0], a[1]);
        assert a[1..][0] == a[1] && Key(a[1]) in Keys(a[1..]);
        if Lt(Key(a[0]), Key(a[1])) && Sorted(a[1..]) {
          KeysAbove(Key(a[0]), a[1..]);
        }
      }
    }
  }

  /** Merging sorted indexes gives a sorted index, with the terms in ascending order at every level. */
  lemma MergeSorted(a: seq<Entry>, b: seq<Entry>)
    requires Sorted(a) && Sorted(b)
    ensures Sorted(Merge(a, b)) && Ascending(Merge(a, b))
  {
    MergeKeepsSorted(a, b);
    SortedAscends(Merge(a, b));
  }

  // ----- Looking terms up -----

  /** The first entry for a lower-cased term. */
  function Find(a: seq<Entry>, k: string): (r: Option<Entry>)
    ensures r.Some? ==> k in Keys(a)
    ensures r.None? ==> k !in Keys(a)
    ensures r.Some? ==> r.value in a
  {
    if a == [] then None else if Key(a[0]) == k then Some(a[0]) else Find(a[1..], k)
  }

  /** The links of the entry reached by a path of lower-cased terms. */
  function LinksAt(a: seq<Entry>, path: seq<string>): Option<seq<Link>>
    requires path != []
    decreases |path|
  {
    match Find(a, path[0])
    case None => None
    case Some(e) => if |path| == 1 then Some(e.links) else LinksAt(e.subs, path[1..])
  }

  /** An entry is in the merge when it is in either index; when in both, the first one's term stays, with the second's
      links behind its own and the sub-entries of both. */
  lemma {:induction false} FindMerge(a: seq<Entry>, b: seq<Entry>, k: string)
    requires Sorted(a) && Sorted(b)
    ensures Find(Merge(a, b), k) ==
      match (Find(a, k), Find(b, k))
      case (Some(x), Some(y)) => Some(Entry(x.term, x.links + y.links, Merge(x.subs, y.subs)))
      case (Some(x), None) => Some(x)
      case (None, y) => y
    decreases a, b
  {
    if a != [] && b != [] {
      MergeUnfolds(a, b);
      LtOrder(Key(a[0]), Key(b[0]));
      if Key(a[0]) == Key(b[0]) {
        FindMerge(a[1..], b[1..], k);
      } else if Lt(Key(b[0]), Key(a[0])) {
        FindMerge(a, b[1..], k);
        KeysAbove(Key(b[0]), a);
        LtOrder(k, k);
      } else {
        FindMerge(a[1..], b, k);
        KeysAbove(Key(a[0]), b);
        LtOrder(k, k);
      }
    }
  }

  lemma {:induction false} SortedMember(a: seq<Entry>, e: Entry)
    requires Sorted(a) && e in a
    ensures Sorted(e.subs)
  {
    if e != a[0] {
      SortedMember(a[1..], e);
    }
  }

  /** At every path of terms, the merge has the first index's links followed by the second's. */
  lemma {:induction false} MergeLinksAt(a: seq<Entry>, b: seq<Entry>, path: seq<string>)
    requires Sorted(a) && Sorted(b) && path != []
    ensures LinksAt(Merge(a, b), path) ==
      match (LinksAt(a, path), LinksAt(b, path))
      case (Some(x), Some(y)) => Some(x + y)
      case (Some(x), None) => Some(x)
      case (None, y) => y
    decreases |path|
  {
    FindMerge(a, b, path[0]);
    var x, y := Find(a, path[0]), Find(b, path[0]);
    if x.Some? && y.Some? && |path| > 1 {
      SortedMember(a, x.value);
      SortedMember(b, y.value);
      MergeLinksAt(x.value.subs, y.value.subs, path[1..]);
    }
  }

  /** The links at a path of terms; none when the index does not have it. */
  function LinksOr(a: seq<Entry>, path: seq<string>): seq<Link>
    requires path != []
  {
    if LinksAt(a, path).Some? then LinksAt(a, path).value else []
  }

  lemma MergeAppends(a: seq<Entry>, b: seq<Entry>, path: seq<string>)
    requires Sorted(a) && Sorted(b) && path != []
    ensures LinksOr(Merge(a, b), path) == LinksOr(a, path) + LinksOr(b, path)
  {
    MergeLinksAt(a, b, path);
  }

  // ----- What an index says, whatever its order -----

  type Path = seq<string>

  /** The links an index holds, each with the path of its entry, and the paths of its entries. */
  datatype Meaning = Meaning(links: multiset<(Path, Link)>, terms: set<Path>)

  const NOTHING := Meaning(multiset{}, {})

  function Plus(m: Meaning, n: Meaning): Meaning {
    Meaning(m.links + n.links, m.terms + n.terms)
  }

  /** A link as stored in a help system's index, made absolute with the system's path. */
  function Absolute(path: string, href: string): string {
    path + if href != "" && href[0] == '/' then href[1..] else href
  }

  function LinksMeaning(base: Option<string>, at: Path, links: seq<Link>): multiset<(Path, Link)> {
    if links == [] then multiset{}
    else
      var l := links[0];
      multiset{(at, if base.Some? then l.(href := Absolute(base.value, l.href)) else l)}
      + LinksMeaning(base, at, links[1..])
  }

  /** What one entry below the path `at` says. */
  function EntryMeaning(base: Option<string>, at: Path, e: Entry): Meaning
    decreases e, 0
  {
    var here := at + [Key(e)];
    Plus(Meaning(LinksMeaning(base, here, e.links), {here}), MeaningOf(base, here, e.subs))
  }

  /** What the entries below the path `at` say, with links made absolute with `base` if given. */
  function MeaningOf(base: Option<string>, at: Path, a: seq<Entry>): Meaning
    decreases a
  {
    if a == [] then NOTHING else Plus(EntryMeaning(base, at, a[0]), MeaningOf(base, at, a[1..]))
  }

  lemma PlusLaws(l: Meaning, m: Meaning, n: Meaning)
    ensures Plus(l, m) == Plus(m, l) && Plus(Plus(l, m), n) == Plus(l, Plus(m, n)) && Plus(l, NOTHING) == l
  {
    assert Plus(Plus(l, m), n).links == Plus(l, Plus(m, n)).links;
    assert Plus(Plus(l, m), n).terms == Plus(l, Plus(m, n)).terms;
    assert Plus(l, m).terms == Plus(m, l).terms;
  }

  lemma PlusNothing(m: Meaning)
    ensures Plus(m, NOTHING) == m && Plus(NOTHING, m) == m
  {
  }

  lemma PlusSwap(l: Meaning, m: Meaning, n: Meaning)
    ensures Plus(l, Plus(m, n)) == Plus(m, Plus(l, n))
  {
    assert Plus(l, Plus(m, n)).links == Plus(m, Plus(l, n)).links;
    assert Plus(l, Plus(m, n)).terms == Plus(m, Plus(l, n)).terms;
  }

  /** Regroups four meanings. */
  lemma PlusExchange(k: Meaning, l: Meaning, m: Meaning, n: Meaning)
    ensures Plus(Plus(k, l), Plus(m, n)) == Plus(Plus(k, m), Plus(l, n))
  {
    assert Plus(Plus(k, l), Plus(m, n)).links == Plus(Plus(k, m), Plus(l, n)).links;
    assert Plus(Plus(k, l), Plus(m, n)).terms == Plus(Plus(k, m), Plus(l, n)).terms;
  }

  lemma {:induction false} LinksMeaningConcat(base: Option<string>, at: Path, a: seq<Link>, b: seq<Link>)
    ensures LinksMeaning(base, at, a + b) == LinksMeaning(base, at, a) + LinksMeaning(base, at, b)
  {
    if a == [] {
      assert a + b == b;
    } else {
      assert (a + b)[1..] == a[1..] + b;
      LinksMeaningConcat(base, at, a[1..], b);
    }
  }

  /** A merge says what the two indexes say together, sorted or not. */
  lemma {:induction false} MergeMeaning(base: Option<string>, at: Path, a: seq<Entry>, b: seq<Entry>)
    ensures MeaningOf(base, at, Merge(a, b)) == Plus(MeaningOf(base, at, a), MeaningOf(base, at, b))
    decreases a, b, 1
  {
    PlusLaws(MeaningOf(base, at, b), NOTHING, NOTHING);
    PlusLaws(MeaningOf(base, at, a), NOTHING, NOTHING);
    if a != [] && b != [] {
      MergeUnfolds(a, b);
      var x, y := EntryMeaning(base, at, a[0]), EntryMeaning(base, at, b[0]);
      if Key(a[0]) == Key(b[0]) {
        BothMeaning(base, at, a[0], b[0]);
        MergeMeaning(base, at, a[1..], b[1..]);
        PlusExchange(x, y, MeaningOf(base, at, a[1..]), MeaningOf(base, at, b[1..]));
      } else if Lt(Key(b[0]), Key(a[0])) {
        MergeMeaning(base, at, a, b[1..]);
        PlusLaws(y, MeaningOf(base, at, a), MeaningOf(base, at, b[1..]));
        PlusLaws(MeaningOf(base, at, a), y, MeaningOf(base, at, b[1..]));
      } else {
        MergeMeaning(base, at, a[1..], b);
        PlusLaws(x, MeaningOf(base, at, a[1..]), MeaningOf(base, at, b));
      }
    }
  }

  lemma {:induction false} BothMeaning(base: Option<string>, at: Path, e1: Entry, e2: Entry)
    requires Key(e1) == Key(e2)
    ensures EntryMeaning(base, at, Both(e1, e2)) == Plus(EntryMeaning(base, at, e1), EntryMeaning(base, at, e2))
    decreases e1, e2, 0
  {
    var here := at + [Key(e1)];
    LinksMeaningConcat(base, here, e1.links, e2.links);
    MergeMeaning(base, here, e1.subs, e2.subs);
    var m1, m2 := LinksMeaning(base, here, e1.links), LinksMeaning(base, here, e2.links);
    assert Plus(Meaning(m1, {here}), Meaning(m2, {here})) == Meaning(m1 + m2, {here});
    PlusExchange(Meaning(m1, {here}), Meaning(m2, {here}),
                 MeaningOf(base, here, e1.subs), MeaningOf(base, here, e2.subs));
  }

  // ----- Absolute links -----

  /** ConvertIndexLinksToAbsolute on a list of entries. */
  function AllAbsolute(path: string, a: seq<Entry>): (r: seq<Entry>)
    ensures Keys(r) == Keys(a)
  {
    if a == [] then []
    else [Entry(a[0].term, LinksAbsolute(path, a[0].links), AllAbsolute(path, a[0].subs))]
         + AllAbsolute(path, a[1..])
  }

  function LinksAbsolute(path: string, links: seq<Link>): seq<Link> {
    if links == [] then []
    else [links[0].(href := Absolute(path, links[0].href))] + LinksAbsolute(path, links[1..])
  }

  lemma {:induction false} LinksAbsoluteMeaning(path: string, at: Path, links: seq<Link>)
    ensures LinksMeaning(None, at, LinksAbsolute(path, links)) == LinksMeaning(Some(path), at, links)
  {
    if links != [] {
      LinksAbsoluteMeaning(path, at, links[1..]);
    }
  }

  /** The conversion puts the path before each link once. */
  lemma {:induction false} AbsoluteMeaning(path: string, at: Path, a: seq<Entry>)
    ensures MeaningOf(None, at, AllAbsolute(path, a)) == MeaningOf(Some(path), at, a)
    decreases a
  {
    if a != [] {
      var here := at + [Key(a[0])];
      LinksAbsoluteMeaning(path, here, a[0].links);
      AbsoluteMeaning(path, here, a[0].subs);
      AbsoluteMeaning(path, at, a[1..]);
    }
  }

  // ----- The links of an index, one by one -----

  /** The links of an index in document order, each with the path of its entry. */
  function LinksOf(at: Path, a: seq<Entry>): seq<(Path, Link)>
    decreases a
  {
    if a == [] then []
    else
      var here := at + [Key(a[0])];
      OwnLinks(here, a[0].links) + LinksOf(here, a[0].subs) + LinksOf(at, a[1..])
  }

  function OwnLinks(at: Path, links: seq<Link>): (r: seq<(Path, Link)>)
    ensures |r| == |links| && forall i | 0 <= i < |links| :: r[i] == (at, links[i])
  {
    seq(|links|, i requires 0 <= i < |links| => (at, links[i]))
  }

  /** `full` is the folder followed by the stored address, without the slash it may start with. */
  predicate IsUnder(folder: string, stored: string, full: string) {
    folder <= full
    && if "/" <= stored then stored == "/" + full[|folder|..] else stored == full[|folder|..]
  }

  lemma AbsoluteExactly(folder: string, stored: string, full: string)
    ensures Absolute(folder, stored) == full <==> IsUnder(folder, stored, full)
  {
    if "/" <= stored {
      assert stored == "/" + stored[1..];
    }
    if folder <= full {
      assert full == folder + full[|folder|..];
    }
  }

  /** `to` is the link `from` with its address in the folder, at the same term path. */
  predicate IsMadeAbsolute(folder: string, from: (Path, Link), to: (Path, Link)) {
    to.0 == from.0 && to.1.title == from.1.title && IsUnder(folder, from.1.href, to.1.href)
  }

  ghost predicate AreMadeAbsolute(folder: string, from: seq<(Path, Link)>, to: seq<(Path, Link)>) {
    |to| == |from| && forall i | 0 <= i < |from| :: IsMadeAbsolute(folder, from[i], to[i])
  }

  lemma {:induction false} LinkAbsolute(path: string, links: seq<Link>, i: nat)
    requires i < |links|
    ensures var r := LinksAbsolute(path, links);
      |r| == |links| && r[i].title == links[i].title && IsUnder(path, links[i].href, r[i].href)
  {
    AbsoluteExactly(path, links[0].href, Absolute(path, links[0].href));
    if |links| > 1 {
      LinkAbsolute(path, links[1..], if i > 0 then i - 1 else 0);
    }
  }

  lemma OwnLinksAbsolute(path: string, at: Path, links: seq<Link>)
    ensures AreMadeAbsolute(path, OwnLinks(at, links), OwnLinks(at, LinksAbsolute(path, links)))
  {
    forall i | 0 <= i < |links|
      ensures |LinksAbsolute(path, links)| == |links|
      ensures IsMadeAbsolute(path, OwnLinks(at, links)[i], OwnLinks(at, LinksAbsolute(path, links))[i])
    {
      LinkAbsolute(path, links, i);
    }
  }

  lemma AbsoluteConcat(path: string, a: seq<(Path, Link)>, b: seq<(Path, Link)>, c: seq<(Path, Link)>,
                       d: seq<(Path, Link)>)
    requires AreMadeAbsolute(path, a, b) && AreMadeAbsolute(path, c, d)
    ensures AreMadeAbsolute(path, a + c, b + d)
  {
  }

  /** The conversion puts the path before the address of each link, without the slash it may start with, and changes
      nothing else. */
  lemma {:induction false} AbsoluteLinks(path: string, at: Path, a: seq<Entry>)
    ensures AreMadeAbsolute(path, LinksOf(at, a), LinksOf(at, AllAbsolute(path, a)))
    decreases a
  {
    if a != [] {
      var here, r := at + [Key(a[0])], AllAbsolute(path, a);
      assert r[1..] == AllAbsolute(path, a[1..]) && Key(r[0]) == Key(a[0]);
      OwnLinksAbsolute(path, here, a[0].links);
      AbsoluteLinks(path, here, a[0].subs);
      AbsoluteLinks(path, at, a[1..]);
      AbsoluteConcat(path, OwnLinks(here, a[0].links), OwnLinks(here, r[0].links),
                     LinksOf(here, a[0].subs), LinksOf(here, r[0].subs));
      AbsoluteConcat(path, OwnLinks(here, a[0].links) + LinksOf(here, a[0].subs),
                     OwnLinks(here, r[0].links) + LinksOf(here, r[0].subs), LinksOf(at, a[1..]), LinksOf(at, r[1..]));
    }
  }

  lemma {:induction false} FindInAbsolute(folder: string, a: seq<Entry>, k: string)
    ensures match Find(a, k)
      case None => Find(AllAbsolute(folder, a), k) == None
      case Some(e) =>
        Find(AllAbsolute(folder, a), k)
        == Some(Entry(e.term, LinksAbsolute(folder, e.links), AllAbsolute(folder, e.subs)))
  {
    if a != [] {
      FindInAbsolute(folder, a[1..], k);
    }
  }

  /** At every path of terms the conversion leaves the links in their order. */
  lemma {:induction false} LinksInAbsolute(folder: string, a: seq<Entry>, path: seq<string>)
    requires path != []
    ensures LinksOr(AllAbsolute(folder, a), path) == LinksAbsolute(folder, LinksOr(a, path))
    decreases |path|
  {
    FindInAbsolute(folder, a, path[0]);
    var e := Find(a, path[0]);
    if e.Some? && |path| > 1 {
      LinksInAbsolute(folder, e.value.subs, path[1..]);
    }
  }

  lemma {:induction false} OwnLinksMeaning(at: Path, links: seq<Link>)
    ensures LinksMeaning(None, at, links) == multiset(OwnLinks(at, links))
  {
    if links != [] {
      OwnLinksMeaning(at, links[1..]);
      assert OwnLinks(at, links) == [(at, links[0])] + OwnLinks(at, links[1..]);
    }
  }

  /** What an index says is its links, each as often as it has it. */
  lemma {:induction false} LinksListed(at: Path, a: seq<Entry>)
    ensures MeaningOf(None, at, a).links == multiset(LinksOf(at, a))
    decreases a
  {
    if a != [] {
      var here := at + [Key(a[0])];
      OwnLinksMeaning(here, a[0].links);
      LinksListed(here, a[0].subs);
      LinksListed(at, a[1..]);
    }
  }

  lemma {:induction false} AbsoluteSorted(path: string, a: seq<Entry>)
    requires Sorted(a)
    ensures Sorted(AllAbsolute(path, a))
    decreases a
  {
    if a != [] {
      AbsoluteSorted(path, a[0].subs);
      AbsoluteSorted(path, a[1..]);
    }
  }

  // ----- What a sorted index says is what it answers -----

  lemma {:induction false} LinksMeaningCount(at: Path, links: seq<Link>, q: Path, l: Link)
    ensures LinksMeaning(None, at, links)[(q, l)] == if q == at then multiset(links)[l] else 0
  {
    if links != [] {
      assert links == [links[0]] + links[1..];
      LinksMeaningCount(at, links[1..], q, l);
    }
  }

  /** An index says nothing about terms it does not have. */
  lemma {:induction false} SaysNothingElse(at: Path, a: seq<Entry>, q: Path, l: Link)
    requires !(at < q && q[|at|] in Keys(a))
    ensures q !in MeaningOf(None, at, a).terms && MeaningOf(None, at, a).links[(q, l)] == 0
    decreases a
  {
    if a != [] {
      var here := at + [Key(a[0])];
      assert here[|at|] == Key(a[0]);
      LinksMeaningCount(here, a[0].links, q, l);
      SaysNothingElse(here, a[0].subs, q, l);
      SaysNothingElse(at, a[1..], q, l);
    }
  }

  /** What an index says at `q` its first entry says, the entries below that one, or the rest. */
  lemma FirstSays(at: Path, a: seq<Entry>, q: Path, l: Link)
    requires a != []
    ensures var here := at + [Key(a[0])];
      var m, subs, rest := MeaningOf(None, at, a), MeaningOf(None, here, a[0].subs), MeaningOf(None, at, a[1..]);
      && (q in m.terms <==> q == here || q in subs.terms || q in rest.terms)
      && m.links[(q, l)] == (if q == here then multiset(a[0].links)[l] else 0) + subs.links[(q, l)] + rest.links[(q, l)]
  {
    LinksMeaningCount(at + [Key(a[0])], a[0].links, q, l);
  }

  /** In a sorted index the rest says nothing about the first entry's term. */
  lemma RestSaysElse(at: Path, a: seq<Entry>, path: seq<string>, l: Link)
    requires Sorted(a) && a != [] && path != [] && path[0] == Key(a[0])
    ensures var q, rest := at + path, MeaningOf(None, at, a[1..]); q !in rest.terms && rest.links[(q, l)] == 0
  {
    LtOrder(Key(a[0]), Key(a[0]));
    assert (at + path)[|at|] == Key(a[0]) && Key(a[0]) !in Keys(a[1..]);
    SaysNothingElse(at, a[1..], at + path, l);
  }

  /** The links found at `path` are those the index says are there, as far as `l` goes. */
  predicate Answers(at: Path, a: seq<Entry>, path: seq<string>, l: Link)
    requires path != []
  {
    var m, found := MeaningOf(None, at, a), LinksAt(a, path);
    && (found.Some? <==> at + path in m.terms)
    && m.links[(at + path, l)] == if found.Some? then multiset(found.value)[l] else 0
  }

  lemma OtherTermAnswers(at: Path, a: seq<Entry>, path: seq<string>, l: Link)
    requires a != [] && path != [] && path[0] != Key(a[0]) && Answers(at, a[1..], path, l)
    ensures Answers(at, a, path, l)
  {
    var q, here := at + path, at + [Key(a[0])];
    assert q[|at|] != here[|at|];
    FirstSays(at, a, q, l);
    SaysNothingElse(here, a[0].subs, q, l);
    assert LinksAt(a, path) == LinksAt(a[1..], path);
  }

  lemma OwnTermAnswers(at: Path, a: seq<Entry>, l: Link)
    requires Sorted(a) && a != []
    ensures Answers(at, a, [Key(a[0])], l)
  {
    var q := at + [Key(a[0])];
    FirstSays(at, a, q, l);
    SaysNothingElse(q, a[0].subs, q, l);
    RestSaysElse(at, a, [Key(a[0])], l);
  }

  lemma SubTermAnswers(at: Path, a: seq<Entry>, path: seq<string>, l: Link)
    requires Sorted(a) && a != [] && |path| > 1 && path[0] == Key(a[0])
    requires Answers(at + [Key(a[0])], a[0].subs, path[1..], l)
    ensures Answers(at, a, path, l)
  {
    var q, here := at + path, at + [Key(a[0])];
    assert q == here + path[1..] && |q| > |here|;
    FirstSays(at, a, q, l);
    RestSaysElse(at, a, path, l);
    LinksAtSub(a, path);
  }

  lemma LinksAtSub(a: seq<Entry>, path: seq<string>)
    requires a != [] && |path| > 1 && path[0] == Key(a[0])
    ensures LinksAt(a, path) == LinksAt(a[0].subs, path[1..])
  {
  }

  /** The entries a sorted index has, and how often each link occurs there, are what it says. */
  lemma {:induction false} MeaningAnswers(at: Path, a: seq<Entry>, path: seq<string>, l: Link)
    requires Sorted(a) && path != []
    ensures Answers(at, a, path, l)
    decreases a
  {
    if a != [] {
      if path[0] != Key(a[0]) {
        MeaningAnswers(at, a[1..], path, l);
        OtherTermAnswers(at, a, path, l);
      } else if |path| == 1 {
        OwnTermAnswers(at, a, l);
        assert path == [Key(a[0])];
      } else {
        MeaningAnswers(at + [Key(a[0])], a[0].subs, path[1..], l);
        SubTermAnswers(at, a, path, l);
      }
    }
  }

  /** Sorted indexes that say the same have the same terms with the same links at each. */
  lemma {:induction false} SameMeaningSameAnswers(a: seq<Entry>, b: seq<Entry>, path: seq<string>)
    requires Sorted(a) && Sorted(b) && path != []
    requires MeaningOf(None, [], a) == MeaningOf(None, [], b)
    ensures LinksAt(a, path).Some? <==> LinksAt(b, path).Some?
    ensures LinksAt(a, path).Some? ==> multiset(LinksAt(a, path).value) == multiset(LinksAt(b, path).value)
  {
    assert [] + path == path;
    MeaningAnswers([], a, path, Link("", ""));
    MeaningAnswers([], b, path, Link("", ""));
    if LinksAt(a, path).Some? {
      var x, y := multiset(LinksAt(a, path).value), multiset(LinksAt(b, path).value);
      forall l ensures x[l] == y[l] {
        MeaningAnswers([], a, path, l);
        MeaningAnswers([], b, path, l);
      }
    }
  }
}
