/** Merging two glossary pages, each a list of entries sorted by lower-cased term. */
module GlossaryMerge {
  import opened Options
  import opened Text

  /** An entry of a glossary page: its term and the address its link leads to. */
  datatype Entry = Entry(term: string, href: string)

  function Key(e: Entry): string {
    Lower(e.term)
  }

  /** ConvertGlossaryPageEntryToAbsolute: the folder goes before the address. */
  function Absolute(folder: string, e: Entry): Entry {
    e.(href := folder + e.href)
  }

  function AllAbsolute(folder: string, b: seq<Entry>): (r: seq<Entry>)
    ensures |r| == |b|
    ensures forall i | 0 <= i < |b| :: r[i] == Absolute(folder, b[i])
  {
    seq(|b|, i requires 0 <= i < |b| => Absolute(folder, b[i]))
  }

  /** The folder of a subsystem's glossary address. */
  function Folder(glossaryUrl: string): string {
    glossaryUrl[..LastIndexOf(glossaryUrl, '/') + 1]
  }

  /** It is the address up to its last slash. */
  lemma FolderOf(folder: string, file: string)
    requires (folder == "" || folder[|folder| - 1] == '/') && '/' !in file
    ensures Folder(folder + file) == folder
  {
    var url := folder + file;
    assert url[|folder|..] == file;
    if folder != "" {
      LastIndexIs(url, |folder| - 1, '/');
    }
  }

  /** The entries of `a` and those of `b`, the latter made absolute; on equal terms only `a`'s. */
  function Merge(a: seq<Entry>, b: seq<Entry>, folder: string): seq<Entry> {
    if a == [] then AllAbsolute(folder, b)
    else if b == [] then a
    else
      match Compare(a[0], b[0])
      case Same => [a[0]] + Merge(a[1..], b[1..], folder)
      case Second => [Absolute(folder, b[0])] + Merge(a, b[1..], folder)
      case First => [a[0]] + Merge(a[1..], b, folder)
  }

  /** Which of two entries comes first in the merge. */
  datatype Order = First | Second | Same

  function Compare(x: Entry, y: Entry): Order {
    if Key(x) == Key(y) then Same else if Lt(Key(y), Key(x)) then Second else First
  }

  lemma MergeUnfolds(a: seq<Entry>, i: nat, b: seq<Entry>, j: nat, merged: seq<Entry>, folder: string)
    requires i < |a| && j < |b|
    ensures var rest := merged + Merge(a[i..], b[j..], folder);
      match Compare(a[i], b[j])
      case Same => rest == merged + [a[i]] + Merge(a[i + 1..], b[j + 1..], folder)
      case Second => rest == merged + [Absolute(folder, b[j])] + Merge(a[i..], b[j + 1..], folder)
      case First => rest == merged + [a[i]] + Merge(a[i + 1..], b[j..], folder)
  {
    assert a[i..][1..] == a[i + 1..] && b[j..][1..] == b[j + 1..];
  }

  lemma AbsoluteUnfolds(b: seq<Entry>, j: nat, merged: seq<Entry>, folder: string)
    requires j < |b|
    ensures merged + AllAbsolute(folder, b[j..])
         == merged + [Absolute(folder, b[j])] + AllAbsolute(folder, b[j + 1..])
  {
    assert AllAbsolute(folder, b[j..]) == [Absolute(folder, b[j])] + AllAbsolute(folder, b[j + 1..]);
  }

  /** Merges the glossary of a subsystem, found at `glossaryUrl`, into that of its parent. */
  method MergeGlossaries(a: seq<Entry>, b: seq<Entry>, glossaryUrl: string) returns (merged: seq<Entry>)
    ensures merged == Merge(a, b, Folder(glossaryUrl))
  {
    var folder := Folder(glossaryUrl);
    if a == [] {
      return AllAbsolute(folder, b);
    }
    if b == [] {
      return a;
    }
    var i, j;
    merged, i, j := MergeCommon(a, b, folder);
    while i < |a|
      invariant 0 <= i <= |a| && (i < |a| ==> j == |b|)
      invariant Merge(a, b, folder) == merged + a[i..] + AllAbsolute(folder, b[j..])
    {
      assert a[i..] == [a[i]] + a[i + 1..];
      merged := merged + [a[i]];
      i := i + 1;
    }
    while j < |b|
      invariant 0 <= j <= |b|
      invariant Merge(a, b, folder) == merged + AllAbsolute(folder, b[j..])
    {
      AbsoluteUnfolds(b, j, merged, folder);
      merged := merged + [Absolute(folder, b[j])];
      j := j + 1;
    }
  }

  /** The part of the merge in which neither list is used up. */
  method MergeCommon(a: seq<Entry>, b: seq<Entry>, folder: string) returns (merged: seq<Entry>, i: nat, j: nat)
    ensures i <= |a| && j <= |b| && (i == |a| || j == |b|)
    ensures Merge(a, b, folder) == merged + a[i..] + AllAbsolute(folder, b[j..])
  {
    merged, i, j := [], 0, 0;
    assert [] + Merge(a, b, folder) == Merge(a, b, folder);
    while i < |a| && j < |b|
      invariant 0 <= i <= |a| && 0 <= j <= |b|
      invariant Merge(a, b, folder) == merged + Merge(a[i..], b[j..], folder)
      decreases |a| - i + |b| - j
    {
      merged, i, j := MergeRound(a, i, b, j, merged, folder);
    }
    MergeEnds(a, i, b, j, merged, folder);
  }

  /** One round of the loop. */
  method MergeRound(a: seq<Entry>, i: nat, b: seq<Entry>, j: nat, merged: seq<Entry>, folder: string)
    returns (merged': seq<Entry>, i': nat, j': nat)
    requires i < |a| && j < |b|
    ensures i <= i' <= |a| && j <= j' <= |b| && i + j < i' + j'
    ensures merged' + Merge(a[i'..], b[j'..], folder) == merged + Merge(a[i..], b[j..], folder)
  {
    MergeUnfolds(a, i, b, j, merged, folder);
    match Compare(a[i], b[j])
    case Same => merged', i', j' := merged + [a[i]], i + 1, j + 1;
    case Second => merged', i', j' := merged + [Absolute(folder, b[j])], i, j + 1;
    case First => merged', i', j' := merged + [a[i]], i + 1, j;
  }

  lemma MergeEnds(a: seq<Entry>, i: nat, b: seq<Entry>, j: nat, merged: seq<Entry>, folder: string)
    requires i <= |a| && j <= |b| && (i == |a| || j == |b|)
    ensures merged + Merge(a[i..], b[j..], folder) == merged + a[i..] + AllAbsolute(folder, b[j..])
  {
    assert i == |a| ==> a[i..] == [];
    assert j == |b| ==> b[j..] == [] && AllAbsolute(folder, b[j..]) == [];
  }

  // ----- What the merge is -----

  predicate Sorted(a: seq<Entry>) {
    forall i, j | 0 <= i < j < |a| :: Lt(Key(a[i]), Key(a[j]))
  }

  /** The entry for a lower-cased term. */
  function Find(a: seq<Entry>, k: string): (r: Option<Entry>)
    ensures r.Some? ==> r.value in a && Key(r.value) == k
    ensures r.None? ==> forall e | e in a :: Key(e) != k
  {
    if a == [] then None else if Key(a[0]) == k then Some(a[0]) else Find(a[1..], k)
  }

  /** The keys of a merge are those of the two lists. */
  lemma {:induction false} MergeKeys(a: seq<Entry>, b: seq<Entry>, folder: string, e: Entry)
    requires e in Merge(a, b, folder)
    ensures exists x :: (x in a || x in b) && Key(x) == Key(e)
    decreases |a| + |b|
  {
    if a == [] {
      var i :| 0 <= i < |b| && e == Absolute(folder, b[i]);
      assert b[i] in b;
    } else if b != [] {
      if Key(a[0]) == Key(b[0]) {
        if e != a[0] {
          MergeKeys(a[1..], b[1..], folder, e);
        }
      } else if Lt(Key(b[0]), Key(a[0])) {
        if e == Absolute(folder, b[0]) {
          assert Key(b[0]) == Key(e);
        } else {
          MergeKeys(a, b[1..], folder, e);
        }
      } else if e != a[0] {
        MergeKeys(a[1..], b, folder, e);
      }
    }
  }

  /** An entry put before a sorted list of larger ones leaves it sorted. */
  lemma Prepend(e: Entry, rest: seq<Entry>)
    requires Sorted(rest) && forall x | x in rest :: Lt(Key(e), Key(x))
    ensures Sorted([e] + rest)
  {
    var r := [e] + rest;
    forall i, j | 0 <= i < j < |r| ensures Lt(Key(r[i]), Key(r[j])) {
      assert r[j] == rest[j - 1];
      if i > 0 {
        assert r[i] == rest[i - 1];
      }
    }
  }

  lemma AllAbove(k: string, a: seq<Entry>)
    requires Sorted(a) && a != [] && (k == Key(a[0]) || Lt(k, Key(a[0])))
    ensures forall x | x in a[1..] :: Lt(k, Key(x))
    ensures k != Key(a[0]) ==> forall x | x in a :: Lt(k, Key(x))
  {
    forall x | x in a && x != a[0] ensures Lt(k, Key(x)) {
      var i :| 0 <= i < |a| && a[i] == x;
      assert i > 0;
      if k != Key(a[0]) {
        LtTransitive(k, Key(a[0]), Key(x));
      }
    }
    forall x | x in a[1..] ensures Lt(k, Key(x)) {
      var i :| 0 <= i < |a| - 1 && a[1..][i] == x;
      assert a[i + 1] == x;
      if k != Key(a[0]) {
        LtTransitive(k, Key(a[0]), Key(x));
      }
    }
  }

  lemma {:induction false} MergeKeepsSorted(a: seq<Entry>, b: seq<Entry>, folder: string)
    requires Sorted(a) && Sorted(b)
    ensures Sorted(Merge(a, b, folder))
    decreases |a| + |b|
  {
    if a != [] && b != [] {
      LtOrder(Key(a[0]), Key(b[0]));
      var rest :=
        if Key(a[0]) == Key(b[0]) then Merge(a[1..], b[1..], folder)
        else if Lt(Key(b[0]), Key(a[0])) then Merge(a, b[1..], folder)
        else Merge(a[1..], b, folder);
      var least := if Lt(Key(b[0]), Key(a[0])) then Key(b[0]) else Key(a[0]);
      AllAbove(least, a);
      AllAbove(least, b);
      if Key(a[0]) == Key(b[0]) {
        MergeKeepsSorted(a[1..], b[1..], folder);
        RestAbove(least, a[1..], b[1..], folder);
        Prepend(a[0], rest);
      } else if Lt(Key(b[0]), Key(a[0])) {
        MergeKeepsSorted(a, b[1..], folder);
        RestAbove(least, a, b[1..], folder);
        Prepend(Absolute(folder, b[0]), rest);
      } else {
        MergeKeepsSorted(a[1..], b, folder);
        RestAbove(least, a[1..], b, folder);
        Prepend(a[0], rest);
      }
    }
  }

  lemma RestAbove(k: string, a: seq<Entry>, b: seq<Entry>, folder: string)
    requires forall x | x in a || x in b :: Lt(k, Key(x))
    ensures forall x | x in Merge(a, b, folder) :: Lt(k, Key(x))
  {
    forall x | x in Merge(a, b, folder) ensures Lt(k, Key(x)) {
      MergeKeys(a, b, folder, x);
    }
  }

  lemma {:induction false} FindAbsolute(b: seq<Entry>, folder: string, k: string)
    ensures Find(AllAbsolute(folder, b), k) ==
            match Find(b, k) case None => None case Some(e) => Some(Absolute(folder, e))
  {
    if b != [] {
      assert AllAbsolute(folder, b)[1..] == AllAbsolute(folder, b[1..]);
      FindAbsolute(b[1..], folder, k);
    }
  }

  /** Each term stands before the next one, in small letters and character by character. */
  ghost predicate Ascending(a: seq<Entry>) {
    forall i | 0 < i < |a| :: TermsAscend(a[i - 1], a[i])
  }

  ghost predicate TermsAscend(x: Entry, y: Entry) {
    Ascends(InSmall(x.term), InSmall(y.term))
  }

  lemma KeysAscend(x: Entry, y: Entry)
    ensures Lt(Key(x), Key(y)) <==> TermsAscend(x, y)
  {
    LowerIsSmall(x.term);
    LowerIsSmall(y.term);
    LtExactly(Key(x), Key(y));
  }

  /** Sorted glossaries are the ascending ones. */
  lemma SortedAscends(a: seq<Entry>)
    ensures Sorted(a) <==> Ascending(a)
  {
    forall i | 0 < i < |a| ensures Lt(Key(a[i - 1]), Key(a[i])) <==> TermsAscend(a[i - 1], a[i]) {
      KeysAscend(a[i - 1], a[i]);
    }
    if Ascending(a) {
      forall i, j | 0 <= i < j < |a| ensures Lt(Key(a[i]), Key(a[j])) {
        LaterIsAbove(a, i, j);
      }
    }
  }

  lemma {:induction false} LaterIsAbove(a: seq<Entry>, i: nat, j: nat)
    requires i < j < |a| && forall k | 0 < k < |a| :: Lt(Key(a[k - 1]), Key(a[k]))
    ensures Lt(Key(a[i]), Key(a[j]))
    decreases j
  {
    if i < j - 1 {
      LaterIsAbove(a, i, j - 1);
      LtTransitive(Key(a[i]), Key(a[j - 1]), Key(a[j]));
    }
  }

  /** Merging sorted glossaries gives a sorted one, with the terms in ascending order. */
  lemma MergeSorted(a: seq<Entry>, b: seq<Entry>, folder: string)
    requires Sorted(a) && Sorted(b)
    ensures Sorted(Merge(a, b, folder)) && Ascending(Merge(a, b, folder))
  {
    MergeKeepsSorted(a, b, folder);
    SortedAscends(Merge(a, b, folder));
  }

  /** The merge has the first glossary's entry for a term, else the second's with its address made
      absolute, once. */
  lemma {:induction false} FindMerge(a: seq<Entry>, b: seq<Entry>, folder: string, k: string)
    requires Sorted(a) && Sorted(b)
    ensures Find(Merge(a, b, folder), k) ==
      match (Find(a, k), Find(b, k))
      case (Some(x), _) => Some(x)
      case (None, Some(y)) => Some(y.(href := folder + y.href))
      case (None, None) => None
    decreases |a| + |b|
  {
    if a == [] {
      FindAbsolute(b, folder, k);
    } else if b != [] {
      LtOrder(Key(a[0]), Key(b[0]));
      LtOrder(k, k);
      if Key(a[0]) == Key(b[0]) {
        FindMerge(a[1..], b[1..], folder, k);
      } else if Lt(Key(b[0]), Key(a[0])) {
        FindMerge(a, b[1..], folder, k);
        AllAbove(Key(b[0]), a);
      } else {
        FindMerge(a[1..], b, folder, k);
      }
    }
  }

  /** An entry of a merge is one of the first list, or one of the second with its address made absolute. */
  lemma {:induction false} MergeMembers(a: seq<Entry>, b: seq<Entry>, folder: string, e: Entry)
    requires e in Merge(a, b, folder)
    ensures e in a || exists y :: y in b && e == y.(href := folder + y.href)
    decreases |a| + |b|
  {
    if a == [] {
      var i :| 0 <= i < |b| && e == Absolute(folder, b[i]);
      assert b[i] in b;
    } else if b != [] {
      match Compare(a[0], b[0])
      case Same => if e != a[0] { MergeMembers(a[1..], b[1..], folder, e); }
      case Second => if e != Absolute(folder, b[0]) { MergeMembers(a, b[1..], folder, e); }
      case First => if e != a[0] { MergeMembers(a[1..], b, folder, e); }
    }
  }

  /** An entry that comes up through two levels has both folders before its address, although each
      glossary address already starts at the root: that is its own folder only when the other is empty. */
  lemma {:induction false} TwoLevelsPrefixTwice(top: seq<Entry>, mid: seq<Entry>, low: seq<Entry>,
                                                f1: string, f2: string, k: string)
    requires Sorted(top) && Sorted(mid) && Sorted(low)
    requires Find(top, k).None? && Find(mid, k).None? && Find(low, k).Some?
    ensures var href := Find(low, k).value.href;
      var found := Find(Merge(top, Merge(mid, low, f2), f1), k);
      && found == Some(Find(low, k).value.(href := f1 + (f2 + href)))
      && (found.value.href == f2 + href <==> f1 == "")
  {
    MergeSorted(mid, low, f2);
    FindMerge(mid, low, f2, k);
    FindMerge(top, Merge(mid, low, f2), f1, k);
    var own := f2 + Find(low, k).value.href;
    assert |f1 + own| == |f1| + |own|;
    assert f1 == "" ==> f1 + own == own;
  }
}
