/** The glossary of a tree of help systems: each system merges the whole glossaries of its existing
    subsystems into its own, in whatever order they arrive. */
module GlossaryTree {
  import opened SystemTree
  import opened GlossaryMerge

  /** What is of interest about a help system: whether it exists, the address of its glossary page, and the
      entries of that page. */
  datatype Info = Info(present: bool, url: string, page: seq<Entry>)

  type System = Tree<Info>

  // ----- The code -----

  function Existing(s: System): set<nat> {
    set k: nat | k < |s.subs| && s.subs[k].data.present
  }

  /** The page of the system, with the glossary of each existing subsystem merged into it. */
  method GetGlossary(s: System) returns (body: seq<Entry>)
    ensures ComesFrom(s, body, Existing(s))
    ensures AllSorted(s) ==> Answers(s, body, Existing(s))
    decreases s
  {
    body := s.data.page;
    var remaining := Existing(s);
    PageAlone(s);
    while remaining != {}
      invariant remaining <= Existing(s)
      invariant ComesFrom(s, body, Existing(s) - remaining)
      invariant AllSorted(s) ==> Answers(s, body, Existing(s) - remaining)
      decreases remaining
    {
      var k :| k in remaining;
      var sub := GetGlossary(s.subs[k]);
      ghost var before := body;
      body := MergeGlossaries(body, sub, s.subs[k].data.url);
      MergeComesFrom(s, before, sub, Existing(s) - remaining, k);
      if AllSorted(s) {
        MergeAnswers(s, before, sub, Existing(s) - remaining, k);
      }
      assert Existing(s) - remaining + {k} == Existing(s) - (remaining - {k});
      remaining := remaining - {k};
    }
    assert Existing(s) - {} == Existing(s);
  }

  // ----- Where the entries come from -----

  /** Every subsystem on the way to `at` exists, and the first of them is one of `done`. */
  predicate Reached(s: System, done: set<nat>, at: Place) {
    at == []
    || (at[0] in done && at[0] < |s.subs| && Reached(s.subs[at[0]], Existing(s.subs[at[0]]), at[1..]))
  }

  lemma {:induction false} ReachedIn(s: System, done: set<nat>, at: Place)
    requires Reached(s, done, at)
    ensures In(s, at)
    decreases at
  {
    if at != [] {
      ReachedIn(s.subs[at[0]], Existing(s.subs[at[0]]), at[1..]);
    }
  }

  function FolderOf(s: System): string {
    Folder(s.data.url)
  }

  /** The folders on the way from `s` to `at`, one after the other. */
  function FoldersTo(s: System, at: Place): string
    requires In(s, at)
  {
    if at == [] then "" else FolderOf(s.subs[at[0]]) + FoldersTo(s.subs[at[0]], at[1..])
  }

  /** `e` is an entry of the page of the system at `at`, with the folders on the way before its address. */
  predicate From(s: System, done: set<nat>, at: Place, e: Entry) {
    && Reached(s, done, at) && (ReachedIn(s, done, at); true)
    && exists i :: 0 <= i < |At(s, at).data.page|
         && e == At(s, at).data.page[i].(href := FoldersTo(s, at) + At(s, at).data.page[i].href)
  }

  /** Every entry comes from some system, with exactly the folders on the way before its address. */
  ghost predicate ComesFrom(s: System, body: seq<Entry>, done: set<nat>) {
    forall e | e in body :: exists at :: From(s, done, at, e)
  }

  // ----- Which terms there are -----

  predicate AllSorted(s: System) {
    Sorted(s.data.page) && forall k | 0 <= k < |s.subs| :: AllSorted(s.subs[k])
  }

  /** The page of the system at `at` has the term. */
  predicate HasTerm(s: System, done: set<nat>, at: Place, k: string) {
    Reached(s, done, at) && (ReachedIn(s, done, at); Find(At(s, at).data.page, k).Some?)
  }

  /** The glossary is sorted, has exactly the terms of the pages reached, and has the system's own entry for a
      term where there is one. */
  ghost predicate Answers(s: System, body: seq<Entry>, done: set<nat>) {
    && Sorted(body)
    && (forall k :: Find(body, k).Some? <==> exists at :: HasTerm(s, done, at, k))
    && (forall k | Find(s.data.page, k).Some? :: Find(body, k) == Find(s.data.page, k))
  }

  // ----- Merging -----

  lemma {:induction false} PageAlone(s: System)
    ensures ComesFrom(s, s.data.page, Existing(s) - Existing(s))
    ensures AllSorted(s) ==> Answers(s, s.data.page, Existing(s) - Existing(s))
  {
    var none := Existing(s) - Existing(s);
    var here: Place := [];
    forall e | e in s.data.page ensures exists at :: From(s, none, at, e) {
      var i :| 0 <= i < |s.data.page| && s.data.page[i] == e;
      assert At(s, here).data.page[i].(href := FoldersTo(s, here) + e.href) == e;
      assert From(s, none, here, e);
    }
    forall k ensures Find(s.data.page, k).Some? <==> exists at :: HasTerm(s, none, at, k) {
      assert HasTerm(s, none, here, k) <==> Find(s.data.page, k).Some?;
    }
  }

  /** What a subsystem's glossary says of a place is said of the place below the subsystem's number, with the
      subsystem's folder before the address. */
  lemma {:induction false} FromBelow(s: System, done: set<nat>, k: nat, at: Place, y: Entry)
    requires k < |s.subs| && From(s.subs[k], Existing(s.subs[k]), at, y)
    ensures From(s, done + {k}, [k] + at, Absolute(FolderOf(s.subs[k]), y))
  {
    var there: Place := [k] + at;
    assert there[0] == k && there[1..] == at;
    ReachedIn(s, done + {k}, there);
    var page := At(s, there).data.page;
    assert page == At(s.subs[k], at).data.page;
    var i :| 0 <= i < |page| && y == page[i].(href := FoldersTo(s.subs[k], at) + page[i].href);
    assert FolderOf(s.subs[k]) + (FoldersTo(s.subs[k], at) + page[i].href)
        == FoldersTo(s, there) + page[i].href;
  }

  lemma {:induction false} ReachedMore(s: System, done: set<nat>, more: set<nat>, at: Place)
    requires Reached(s, done, at)
    ensures Reached(s, done + more, at)
  {
  }

  lemma {:induction false} MergeComesFrom(s: System, body: seq<Entry>, sub: seq<Entry>, done: set<nat>, k: nat)
    requires ComesFrom(s, body, done) && k < |s.subs| && ComesFrom(s.subs[k], sub, Existing(s.subs[k]))
    ensures ComesFrom(s, Merge(body, sub, FolderOf(s.subs[k])), done + {k})
  {
    forall e | e in Merge(body, sub, FolderOf(s.subs[k])) ensures exists at :: From(s, done + {k}, at, e) {
      MergeMembers(body, sub, FolderOf(s.subs[k]), e);
      if e in body {
        var at :| From(s, done, at, e);
        ReachedMore(s, done, {k}, at);
        assert From(s, done + {k}, at, e);
      } else {
        var y :| y in sub && e == Absolute(FolderOf(s.subs[k]), y);
        var at :| From(s.subs[k], Existing(s.subs[k]), at, y);
        FromBelow(s, done, k, at, y);
      }
    }
  }

  lemma {:induction false} MergeAnswers(s: System, body: seq<Entry>, sub: seq<Entry>, done: set<nat>, k: nat)
    requires AllSorted(s) && k < |s.subs| && s.subs[k].data.present
    requires Answers(s, body, done) && (AllSorted(s.subs[k]) ==> Answers(s.subs[k], sub, Existing(s.subs[k])))
    ensures Answers(s, Merge(body, sub, FolderOf(s.subs[k])), done + {k})
  {
    var folder := FolderOf(s.subs[k]);
    MergeSorted(body, sub, folder);
    forall t ensures Find(Merge(body, sub, folder), t).Some? <==> exists at :: HasTerm(s, done + {k}, at, t) {
      FindMerge(body, sub, folder, t);
      TermsBelow(s, done, k, t);
    }
    forall t | Find(s.data.page, t).Some? ensures Find(Merge(body, sub, folder), t) == Find(s.data.page, t) {
      FindMerge(body, sub, folder, t);
    }
  }

  /** The terms reached with one more subsystem are those reached before and the subsystem's. */
  lemma {:induction false} TermsBelow(s: System, done: set<nat>, k: nat, t: string)
    requires k < |s.subs|
    ensures (exists at :: HasTerm(s, done + {k}, at, t)) <==>
      (exists at :: HasTerm(s, done, at, t)) || (exists at :: HasTerm(s.subs[k], Existing(s.subs[k]), at, t))
  {
    forall at | HasTerm(s, done, at, t) ensures HasTerm(s, done + {k}, at, t) {}
    forall at | HasTerm(s.subs[k], Existing(s.subs[k]), at, t) ensures HasTerm(s, done + {k}, [k] + at, t) {
      var there: Place := [k] + at;
      assert there[0] == k && there[1..] == at;
    }
    forall at | HasTerm(s, done + {k}, at, t)
      ensures HasTerm(s, done, at, t) || (at != [] && HasTerm(s.subs[k], Existing(s.subs[k]), at[1..], t))
    {
    }
  }

  // ----- When the address is right -----

  lemma {:induction false} FoldersSnoc(s: System, p: Place, k: nat)
    requires In(s, p + [k])
    ensures In(s, p) && k < |At(s, p).subs| && At(s, p + [k]) == At(s, p).subs[k]
    ensures FoldersTo(s, p + [k]) == FoldersTo(s, p) + FolderOf(At(s, p + [k]))
    decreases p
  {
    if p == [] {
      assert p + [k] == [k];
    } else {
      assert (p + [k])[1..] == p[1..] + [k] && (p + [k])[0] == p[0];
      FoldersSnoc(s.subs[p[0]], p[1..], k);
    }
  }

  /** The folders of the systems strictly between `s` and `at` are all empty. */
  predicate NothingAbove(s: System, at: Place)
    requires In(s, at)
  {
    |at| <= 1 || (FolderOf(s.subs[at[0]]) == "" && NothingAbove(s.subs[at[0]], at[1..]))
  }

  /** The folder of a system's glossary page starts at the root, so an address is right with its own folder
      before it and no other. An entry from below the first level has its own folder before its address, and no
      other, exactly when the folders on the way to its system are all empty; one from the first level always. */
  lemma {:induction false} AddressIsRight(s: System, at: Place, href: string)
    requires In(s, at) && at != []
    ensures FoldersTo(s, at) + href == FolderOf(At(s, at)) + href <==> NothingAbove(s, at)
    decreases at
  {
    SameBefore(FoldersTo(s, at), FolderOf(At(s, at)), href);
    var first, rest := FolderOf(s.subs[at[0]]), FoldersTo(s.subs[at[0]], at[1..]);
    if |at| == 1 {
      assert rest == "" && FoldersTo(s, at) == first;
    } else {
      AddressIsRight(s.subs[at[0]], at[1..], href);
      SameBefore(rest, FolderOf(At(s, at)), href);
      OwnFolderIsLast(s.subs[at[0]], at[1..]);
    }
  }

  lemma SameBefore(a: string, b: string, c: string)
    ensures a + c == b + c <==> a == b
  {
    if a + c == b + c {
      assert |a| == |b| && a == (a + c)[..|a|] && b == (b + c)[..|b|];
    }
  }

  /** The folders on the way to a system end with its own, so they are no shorter. */
  lemma {:induction false} OwnFolderIsLast(s: System, at: Place)
    requires In(s, at) && at != []
    ensures |FoldersTo(s, at)| >= |FolderOf(At(s, at))|
    ensures FoldersTo(s, at) == FolderOf(At(s, at)) || |FoldersTo(s, at)| > |FolderOf(At(s, at))|
  {
    var p, k := at[..|at| - 1], at[|at| - 1];
    assert at == p + [k];
    FoldersSnoc(s, p, k);
  }
}
