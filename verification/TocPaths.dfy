/** Printed TOC paths: how one is resolved on the fully expanded tree, how one is printed from the
    tree in memory, and when resolving what was printed returns to the same element. */
module TocPaths {
  import opened Options
  import opened Preorder
  import opened TocTree
  import opened TocExpansion
  import opened Text
  import Url

  /** What resolving a path comes to; `Throws` is the error raised when a step that is not the
      last one names no book. */
  datatype Outcome = Found(p: Path) | NotFound | Throws

  // ----- Resolving -----

  /** The steps of a printed path and the number of its final "$$$$$" step, or -1. */
  function ParsePath(tocPath: string): (r: (seq<string>, int)) {
    var steps := if tocPath == "" then [] else Split(tocPath, '|');
    if steps != [] && StartsWithIgnoreCase(steps[|steps| - 1], "$$$$$")
    then (steps[..|steps| - 1], ParseInt(steps[|steps| - 1][5..]))
    else (steps, -1)
  }

  /** The first of the elements with the title `step`. */
  function FirstBook(elements: seq<Attrs>, step: string): (r: Option<nat>)
    ensures r.Some? ==> r.value < |elements| && Read(elements[r.value].title) == Some(step)
    ensures r.Some? ==> forall j | 0 <= j < r.value :: Read(elements[j].title) != Some(step)
    ensures r.None? ==> forall j | 0 <= j < |elements| :: Read(elements[j].title) != Some(step)
  {
    if elements == [] then None
    else if Read(elements[0].title) == Some(step) then Some(0)
    else match FirstBook(elements[1..], step)
         case None => None
         case Some(i) => Some(i + 1)
  }

  /** Follows book titles down from `at`. */
  function Descend(n: Node, at: Path, steps: seq<string>): (r: Outcome)
    requires InFull(n, at)
    ensures r.Found? ==> InFull(n, r.p) && at <= r.p && |r.p| == |at| + |steps|
    decreases |steps|
  {
    if steps == [] then Found(at)
    else match FirstBook(KidAttrs(AtFull(n, at)), steps[0])
         case None => if |steps| == 1 then NotFound else Throws
         case Some(i) => FullChild(n, at, i); Descend(n, at + [i], steps[1..])
  }

  /** `replace(/%20/g, " ")`. */
  function Unescape(s: string): string {
    if |s| < 3 then s
    else if s[..3] == "%20" then " " + Unescape(s[3..])
    else s[..1] + Unescape(s[1..])
  }

  function LinkText(link: string, htmlHelp: bool): string {
    Lower(Unescape(Drop(link, if htmlHelp then |"/Content/"| else |"/"|)))
  }

  function Before1(s: string, c: char): string {
    Take(s, if IndexOf(s, c) < 0 then |s| else IndexOf(s, c))
  }

  /** Whether an element's link is the wanted one; when the match need not be exact, the link's
      fragment and query do not count. */
  predicate LinkMatches(a: Attrs, href: string, exact: bool, htmlHelp: bool) {
    var link := Read(a.link);
    && link.Some?
    && (var text := LinkText(link.value, htmlHelp);
        (if exact then text else Before1(Before1(text, '#'), '?')) == href)
  }

  function FirstLink(elements: seq<Attrs>, href: string, exact: bool, htmlHelp: bool): (r: Option<nat>)
    ensures r.Some? ==> r.value < |elements| && LinkMatches(elements[r.value], href, exact, htmlHelp)
    ensures r.Some? ==> forall j | 0 <= j < r.value :: !LinkMatches(elements[j], href, exact, htmlHelp)
    ensures r.None? ==> forall j | 0 <= j < |elements| :: !LinkMatches(elements[j], href, exact, htmlHelp)
  {
    if elements == [] then None
    else if LinkMatches(elements[0], href, exact, htmlHelp) then Some(0)
    else match FirstLink(elements[1..], href, exact, htmlHelp)
         case None => None
         case Some(i) => Some(i + 1)
  }

  /** The element itself (`[]`), else its first child (`[i]`), with the wanted link. The element's
      own link is always compared whole. */
  function FindLink(own: Attrs, kids: seq<Attrs>, href: string, exact: bool, htmlHelp: bool): Option<Path> {
    if LinkMatches(own, href, true, htmlHelp) then Some([])
    else match FirstLink(kids, href, exact, htmlHelp)
         case None => None
         case Some(i) => Some([i])
  }

  /** The element that a path's last part, or else the topic's address, picks once the book with
      attributes `own`, children `kids` and owner folder `ownerPath` is reached. */
  function Pick(own: Attrs, kids: seq<Attrs>, ownerPath: string, k: int, href: string, htmlHelp: bool)
    : (r: Option<Path>)
    ensures r.Some? ==> r.value == [] || (|r.value| == 1 && r.value[0] < |kids|)
    ensures r.Some? && k >= 0 ==> r.value == (if k == 0 then [] else [k - 1])
  {
    if k == 0 then Some([])
    else if k > 0 then if k - 1 < |kids| then Some([k - 1]) else None
    else
      var rel := Url.ToRelative(href, ownerPath);
      var exact := FindLink(own, kids, Lower(rel), true, htmlHelp);
      if exact.Some? then exact
      else FindLink(own, kids, Lower(Url.PlainPath(rel)), false, htmlHelp)
  }

  /** What a printed path and a topic address resolve to on the fully expanded tree. */
  function Resolve(n: Node, tocPath: string, href: string, htmlHelp: bool): Outcome {
    var (steps, k) := ParsePath(tocPath);
    match Descend(n, [], steps)
    case Found(at) =>
      var b := AtFull(n, at);
      (match Pick(b.attrs, KidAttrs(b), b.owner.data.path, k, href, htmlHelp)
       case None => NotFound
       case Some(q) => Found(at + q))
    case other => other
  }

  // ----- Printing -----

  /** The text of a title in a concatenation: a missing one prints as "null". */
  function TitleText(a: Attrs): string {
    if Read(a.title).Some? then Read(a.title).value else "null"
  }

  /** The titles of the elements from below the root down to depth `m` on the way to `p`. */
  function Books(e: Entry, p: Path, m: nat): seq<string>
    requires In(e, p) && m <= |p|
  {
    PrefixesIn(e, p);
    seq(m, i requires 0 <= i < m && In(e, p[..i + 1]) => TitleText(At(e, p[..i + 1]).attrs))
  }

  lemma PrefixesIn(e: Entry, p: Path)
    requires In(e, p)
    ensures forall i | 0 <= i <= |p| :: In(e, p[..i])
  {
    forall i | 0 <= i <= |p| ensures In(e, p[..i]) {
      PrefixIn(e, p, i);
    }
  }

  lemma {:induction false} PrefixIn(e: Entry, p: Path, m: nat)
    requires In(e, p) && m <= |p|
    ensures In(e, p[..m])
    decreases m
  {
    if m > 0 {
      PrefixIn(e.kids[p[0]], p[1..], m - 1);
      assert p[..m][1..] == p[1..][..m - 1];
    }
  }

  /** The number of titles in the path printed for `p`: its own counts when it shows children. */
  function BookCount(e: Entry, p: Path): (m: nat)
    requires In(e, p) && p != []
    ensures |p| - 1 <= m <= |p|
  {
    if At(e, p).kids != [] then |p| else |p| - 1
  }

  /** The final step: 0 for the book itself, else the place among the parent's children. */
  function FinalStep(e: Entry, p: Path): nat
    requires In(e, p) && p != []
  {
    if At(e, p).kids != [] then 0 else Last(p) + 1
  }

  /** The path printed for the element at `p`, or nothing when printing throws. */
  function PrintedPath(e: Entry, p: Path): Option<string>
    requires In(e, p) && p != []
  {
    if At(e, p).kids != [] && Read(At(e, p).attrs.title).None? then None
    else Some(Join(Books(e, p, BookCount(e, p)) + ["$$$$$" + Decimal(FinalStep(e, p))], '|'))
  }

  // ----- The round trip -----

  /** What makes a book on the way to `p` findable: it is titled, its title has no bar, and no earlier
      sibling has the same title. */
  predicate BookFindable(n: Node, p: Path, i: nat)
    requires i < |p|
  {
    && InFull(n, p[..i]) && p[i] < |AtFull(n, p[..i]).kids|
    && var siblings := KidAttrs(AtFull(n, p[..i]));
       var title := Read(siblings[p[i]].title);
       && title.Some? && '|' !in title.value
       && forall j | 0 <= j < p[i] :: Read(siblings[j].title) != title
  }

  predicate BooksFindable(n: Node, p: Path, m: nat)
    requires m <= |p|
  {
    forall i | 0 <= i < m :: BookFindable(n, p, i)
  }

  /** Each step from depth `i` to depth `m` names the child on the way to `p` before any other. */
  predicate StepsLead(n: Node, p: Path, i: nat, m: nat, steps: seq<string>)
    requires InFull(n, p) && i <= m <= |p| && |steps| == m
    decreases m - i
  {
    i == m || (InFull(n, p[..i]) && FirstBook(KidAttrs(AtFull(n, p[..i])), steps[i]) == Some(p[i])
               && StepsLead(n, p, i + 1, m, steps))
  }

  /** A descent that takes another child than the one on the way to `p` ends elsewhere. */
  lemma DescendsElsewhere(n: Node, p: Path, i: nat, m: nat, b: nat, steps: seq<string>)
    requires i < m <= |p| && b != p[i] && InFull(n, p[..i] + [b])
    ensures Descend(n, p[..i] + [b], steps) != Found(p[..m])
  {
    var r := Descend(n, p[..i] + [b], steps);
    if r.Found? {
      assert r.p[i] == (p[..i] + [b])[i] == b;
      assert p[..m][i] == p[i];
    }
  }

  /** Following titles finds `p`'s ancestor at depth `m` exactly when each step finds the child on
      the way. */
  lemma {:induction false} DescendFinds(n: Node, p: Path, i: nat, m: nat, steps: seq<string>)
    requires InFull(n, p) && i <= m <= |p| && |steps| == m && InFull(n, p[..i])
    ensures Descend(n, p[..i], steps[i..]) == Found(p[..m]) <==> StepsLead(n, p, i, m, steps)
    decreases m - i
  {
    if i < m {
      FullAncestor(n, p[..i + 1], p);
      assert p[..i + 1] == p[..i] + [p[i]];
      DescendOne(n, p[..i], i, steps);
      var b := FirstBook(KidAttrs(AtFull(n, p[..i])), steps[i]);
      if b == Some(p[i]) {
        DescendFinds(n, p, i + 1, m, steps);
      } else if b.Some? {
        DescendsElsewhere(n, p, i, m, b.value, steps[i + 1..]);
      }
    }
  }

  /** One step of a descent. */
  lemma DescendOne(n: Node, at: Path, i: nat, steps: seq<string>)
    requires InFull(n, at) && i < |steps|
    ensures var b := FirstBook(KidAttrs(AtFull(n, at)), steps[i]);
      && (b.Some? ==> InFull(n, at + [b.value]))
      && (b.Some? ==> Descend(n, at, steps[i..]) == Descend(n, at + [b.value], steps[i + 1..]))
      && (b.None? ==> !Descend(n, at, steps[i..]).Found?)
  {
    assert steps[i..][0] == steps[i] && steps[i..][1..] == steps[i + 1..];
    var b := FirstBook(KidAttrs(AtFull(n, at)), steps[i]);
    if b.Some? {
      FullChild(n, at, b.value);
    }
  }

  lemma {:induction false} JoinLast(pieces: seq<string>, last: string, c: char)
    requires pieces != []
    ensures Join(pieces + [last], c) == Join(pieces, c) + [c] + last
  {
    if |pieces| == 1 {
      assert (pieces + [last])[1..] == [last];
    } else {
      assert (pieces + [last])[1..] == pieces[1..] + [last];
      JoinLast(pieces[1..], last, c);
    }
  }

  /** A printed path parses back to its final number and at least its titles; to its titles
      exactly when none contains a bar. */
  lemma ParsePrinted(titles: seq<string>, k: nat)
    ensures var r := ParsePath(Join(titles + ["$$$$$" + Decimal(k)], '|'));
            && r.1 == k && |r.0| >= |titles|
            && ((forall i | 0 <= i < |titles| :: '|' !in titles[i]) ==> r.0 == titles)
            && ((exists i | 0 <= i < |titles| :: '|' in titles[i]) ==> |r.0| > |titles|)
  {
    var last := "$$$$$" + Decimal(k);
    var text := Join(titles + [last], '|');
    assert '|' !in last;
    assert last[..5] == "$$$$$" && last[5..] == Decimal(k);
    assert StartsWithIgnoreCase(last, "$$$$$") by {
      assert Lower(last)[..5] == Lower("$$$$$");
    }
    ParseDecimal(k);
    if titles == [] {
      assert titles + [last] == [last] && text == last;
    } else {
      JoinLast(titles, last, '|');
      SplitConcat(Join(titles, '|'), '|', last);
      assert Split(last, '|') == [last];
      SplitCount(titles, '|');
      if forall i | 0 <= i < |titles| :: '|' !in titles[i] {
        SplitJoin(titles, '|');
      }
      var steps := Split(text, '|');
      assert steps[..|steps| - 1] == Split(Join(titles, '|'), '|');
    }
  }

  lemma TitlesInFull(v: View, t: Table, above: System, e: Entry, p: Path, m: nat)
    requires Sound(t, above, e) && In(e, p) && m <= |p|
    ensures var n := Full(v, t, above, e);
      InFull(n, p) && forall i | 0 <= i < m ::
        && InFull(n, p[..i]) && p[i] < |AtFull(n, p[..i]).kids|
        && Books(e, p, m)[i] == TitleText(KidAttrs(AtFull(n, p[..i]))[p[i]])
  {
    var n := Full(v, t, above, e);
    InMemoryInFull(v, t, above, e, p);
    PrefixesIn(e, p);
    forall i | 0 <= i < m
      ensures InFull(n, p[..i]) && p[i] < |AtFull(n, p[..i]).kids|
      ensures Books(e, p, m)[i] == TitleText(KidAttrs(AtFull(n, p[..i]))[p[i]])
    {
      TitleInFull(v, t, above, e, p, i);
    }
  }

  lemma {:induction false} TitleInFull(v: View, t: Table, above: System, e: Entry, p: Path, i: nat)
    requires Sound(t, above, e) && In(e, p) && i < |p| && In(e, p[..i + 1])
    ensures var n := Full(v, t, above, e);
      && InFull(n, p[..i]) && p[i] < |AtFull(n, p[..i]).kids|
      && KidAttrs(AtFull(n, p[..i]))[p[i]] == At(e, p[..i + 1]).attrs
  {
    InMemoryInFull(v, t, above, e, p[..i + 1]);
    KidAtStep(Full(v, t, above, e), p, i);
  }

  lemma {:induction false} KidAtStep(n: Node, p: Path, i: nat)
    requires i < |p| && InFull(n, p[..i + 1])
    ensures InFull(n, p[..i]) && p[i] < |AtFull(n, p[..i]).kids|
    ensures KidAttrs(AtFull(n, p[..i]))[p[i]] == AtFull(n, p[..i + 1]).attrs
  {
    assert p[..i + 1] == p[..i] + [p[i]];
    FullAncestor(n, p[..i], p[..i + 1]);
    FullChild(n, p[..i], p[i]);
  }

  lemma FirstIsFindable(n: Node, p: Path, i: nat, title: string)
    requires i < |p| && InFull(n, p[..i]) && p[i] < |AtFull(n, p[..i]).kids| && '|' !in title
    requires title == TitleText(KidAttrs(AtFull(n, p[..i]))[p[i]])
    ensures FirstBook(KidAttrs(AtFull(n, p[..i])), title) == Some(p[i]) <==> BookFindable(n, p, i)
  {
    var first := FirstBook(KidAttrs(AtFull(n, p[..i])), title);
  }

  /** Each title leads to the right child exactly when the books are findable. */
  lemma {:induction false} FindableSteps(n: Node, p: Path, i: nat, m: nat, titles: seq<string>)
    requires InFull(n, p) && |titles| == m <= |p| && i <= m
    requires forall j | 0 <= j < m ::
      && InFull(n, p[..j]) && p[j] < |AtFull(n, p[..j]).kids| && '|' !in titles[j]
      && titles[j] == TitleText(KidAttrs(AtFull(n, p[..j]))[p[j]])
    ensures StepsLead(n, p, i, m, titles) <==> forall j | i <= j < m :: BookFindable(n, p, j)
    decreases m - i
  {
    if i < m {
      FirstIsFindable(n, p, i, titles[i]);
      FindableSteps(n, p, i + 1, m, titles);
    }
  }

  /** A path ends at `p` exactly when its titles end at `p`'s book. */
  lemma PathEndsAt(n: Node, p: Path, m: nat, k: nat, tocPath: string, href: string, htmlHelp: bool)
    requires InFull(n, p) && p != [] && ParsePath(tocPath).1 == k
    requires (m == |p| && k == 0) || (m == |p| - 1 && k == Last(p) + 1)
    ensures Resolve(n, tocPath, href, htmlHelp) == Found(p)
       <==> Descend(n, [], ParsePath(tocPath).0) == Found(p[..m])
  {
    var d := Descend(n, [], ParsePath(tocPath).0);
    if m < |p| {
      FullAncestor(n, Parent(p), p);
    }
    if d.Found? {
      var b := AtFull(n, d.p);
      PickedEndsAt(d.p, p, m, k, Pick(b.attrs, KidAttrs(b), b.owner.data.path, k, href, htmlHelp), |b.kids|);
    }
  }

  lemma PickedEndsAt(at: Path, p: Path, m: nat, k: nat, picked: Option<Path>, kids: nat)
    requires p != [] && ((m == |p| && k == 0) || (m == |p| - 1 && k == Last(p) + 1))
    requires k == 0 ==> picked == Some([])
    requires k > 0 ==> picked == if k - 1 < kids then Some([k - 1]) else None
    requires at == p[..m] && k > 0 ==> Last(p) < kids
    ensures (picked.Some? && at + picked.value == p) <==> at == p[..m]
  {
    if k == 0 {
      assert at + [] == at && p[..m] == p;
    } else {
      assert p == p[..m] + [Last(p)];
      if picked.Some? && at + picked.value == p {
        assert at == p[..|at|];
      }
    }
  }

  /** `titles` are the titles that the elements on the way to `p` print, down to depth `m`. */
  predicate TitlesOf(n: Node, p: Path, m: nat, titles: seq<string>)
    requires m <= |p|
  {
    |titles| == m && forall j | 0 <= j < m ::
      InFull(n, p[..j]) && p[j] < |AtFull(n, p[..j]).kids| && titles[j] == TitleText(KidAttrs(AtFull(n, p[..j]))[p[j]])
  }

  /** Without bars in them, the titles lead to `p`'s ancestor exactly when the books are findable. */
  lemma {:induction false} TitlesLead(n: Node, p: Path, m: nat, titles: seq<string>)
    requires InFull(n, p) && m <= |p| && TitlesOf(n, p, m, titles) && forall j | 0 <= j < m :: '|' !in titles[j]
    ensures Descend(n, [], titles) == Found(p[..m]) <==> BooksFindable(n, p, m)
  {
    assert p[..0] == [] && titles[0..] == titles;
    DescendFinds(n, p, 0, m, titles);
    FindableSteps(n, p, 0, m, titles);
  }

  /** A path that is split at a bar in a title ends deeper than `p`'s ancestor. */
  lemma {:induction false} TooManySteps(n: Node, p: Path, m: nat, steps: seq<string>)
    requires m <= |p| && |steps| > m
    ensures Descend(n, [], steps) != Found(p[..m])
  {
    assert |p[..m]| == m;
  }

  /** The titles down to depth `m` and the number `k` resolve to `p` exactly when the books with these
      titles are findable. */
  lemma {:induction false} PathReturns(v: View, t: Table, above: System, e: Entry, p: Path, m: nat, k: nat,
                                       href: string, htmlHelp: bool)
    requires Sound(t, above, e) && In(e, p) && p != []
    requires (m == |p| && k == 0) || (m == |p| - 1 && k == Last(p) + 1)
    ensures var n := Full(v, t, above, e);
      && InFull(n, p)
      && (Resolve(n, Join(Books(e, p, m) + ["$$$$$" + Decimal(k)], '|'), href, htmlHelp) == Found(p)
          <==> BooksFindable(n, p, m))
  {
    TitlesInFull(v, t, above, e, p, m);
    TitlesReturn(Full(v, t, above, e), p, m, k, Books(e, p, m), href, htmlHelp);
  }

  lemma {:induction false} TitlesReturn(n: Node, p: Path, m: nat, k: nat, titles: seq<string>,
                                        href: string, htmlHelp: bool)
    requires InFull(n, p) && p != [] && ((m == |p| && k == 0) || (m == |p| - 1 && k == Last(p) + 1))
    requires TitlesOf(n, p, m, titles)
    ensures Resolve(n, Join(titles + ["$$$$$" + Decimal(k)], '|'), href, htmlHelp) == Found(p)
       <==> BooksFindable(n, p, m)
  {
    var text := Join(titles + ["$$$$$" + Decimal(k)], '|');
    ParsePrinted(titles, k);
    PathEndsAt(n, p, m, k, text, href, htmlHelp);
    if i :| 0 <= i < m && '|' in titles[i] {
      BarInTitle(n, p, m, titles, i);
      TooManySteps(n, p, m, ParsePath(text).0);
    } else {
      TitlesLead(n, p, m, titles);
    }
  }

  lemma BarInTitle(n: Node, p: Path, m: nat, titles: seq<string>, i: nat)
    requires m <= |p| && TitlesOf(n, p, m, titles) && i < m && '|' in titles[i]
    ensures !BooksFindable(n, p, m)
  {
    assert !BookFindable(n, p, i);
  }
}
