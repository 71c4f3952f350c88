/** Which elements a topic's address finds below a book of the table of contents. */
module TocLinks {
  import opened Options
  import opened Preorder
  import opened TocTree
  import opened TocPaths
  import opened Text
  import Url

  // ----- Spaces in links -----

  /** The pieces with `between` in the gaps. */
  function Glue(pieces: seq<string>, between: string): string
    requires pieces != []
  {
    if |pieces| == 1 then pieces[0] else pieces[0] + between + Glue(pieces[1..], between)
  }

  /** "%20" stands at `k`. */
  predicate EscapeAt(s: string, k: nat) {
    k + 2 < |s| && s[k] == '%' && s[k + 1] == '2' && s[k + 2] == '0'
  }

  predicate NoEscape(s: string) {
    forall k: nat | k < |s| :: !EscapeAt(s, k)
  }

  predicate NoEscapes(pieces: seq<string>) {
    forall i | 0 <= i < |pieces| :: NoEscape(pieces[i])
  }

  lemma TailHasNone(p: string)
    requires NoEscape(p) && p != ""
    ensures NoEscape(p[1..])
  {
    forall k: nat | k < |p| - 1 ensures !EscapeAt(p[1..], k) {
      assert !EscapeAt(p, k + 1);
    }
  }

  lemma NoEscapeFirst(p: string, t: string)
    requires NoEscape(p) && p != ""
    ensures !EscapeAt(p + "%20" + t, 0)
  {
    var s := p + "%20" + t;
    assert !EscapeAt(p, 0) && s[|p|] == '%';
    assert forall i | 0 <= i < |p| :: s[i] == p[i];
  }

  lemma UnescapeStep(s: string)
    requires |s| >= 3
    ensures Unescape(s) == if EscapeAt(s, 0) then " " + Unescape(s[3..]) else s[..1] + Unescape(s[1..])
  {
    assert s[..3] == "%20" <==> EscapeAt(s, 0);
  }

  lemma {:induction false} UnescapePiece(p: string, t: string)
    requires NoEscape(p)
    ensures Unescape(p + "%20" + t) == p + " " + Unescape(t)
  {
    var s := p + "%20" + t;
    UnescapeStep(s);
    if p == "" {
      assert s[3..] == t;
    } else {
      NoEscapeFirst(p, t);
      TailHasNone(p);
      UnescapePiece(p[1..], t);
      FirstOff(p, "%20", t);
      FirstOff(p, " ", Unescape(t));
    }
  }

  lemma FirstOff(p: string, b: string, t: string)
    requires p != ""
    ensures var s := p + b + t; s[..1] == p[..1] && s[1..] == p[1..] + b + t && s == p[..1] + (p[1..] + b + t)
  {
  }

  lemma {:induction false} UnescapeLast(p: string)
    requires NoEscape(p)
    ensures Unescape(p) == p
  {
    if |p| >= 3 {
      TailHasNone(p);
      UnescapeLast(p[1..]);
      assert !EscapeAt(p, 0);
      assert p == p[..1] + p[1..];
    }
  }

  /** A space is put for each "%20". */
  lemma {:induction false} UnescapeGlue(pieces: seq<string>)
    requires pieces != [] && NoEscapes(pieces)
    ensures Unescape(Glue(pieces, "%20")) == Glue(pieces, " ")
  {
    if |pieces| == 1 {
      UnescapeLast(pieces[0]);
    } else {
      UnescapePiece(pieces[0], Glue(pieces[1..], "%20"));
      UnescapeGlue(pieces[1..]);
    }
  }

  lemma {:induction false} PiecesOf(s: string) returns (pieces: seq<string>)
    ensures pieces != [] && NoEscapes(pieces) && Glue(pieces, "%20") == s
  {
    if |s| < 3 {
      pieces := [s];
    } else if s[..3] == "%20" {
      var rest := PiecesOf(s[3..]);
      pieces := [""] + rest;
      assert pieces[1..] == rest && s == "%20" + s[3..];
    } else {
      var rest := PiecesOf(s[1..]);
      pieces := LongerFirst(s, rest);
    }
  }

  lemma LongerFirst(s: string, rest: seq<string>) returns (pieces: seq<string>)
    requires |s| >= 3 && s[..3] != "%20" && rest != [] && NoEscapes(rest) && Glue(rest, "%20") == s[1..]
    ensures pieces != [] && NoEscapes(pieces) && Glue(pieces, "%20") == s
  {
    var first := [s[0]] + rest[0];
    pieces := [first] + rest[1..];
    assert pieces[1..] == rest[1..] && s == [s[0]] + s[1..];
    assert rest[0] <= s[1..];
    forall k: nat | k < |first| ensures !EscapeAt(first, k) {
      if k > 0 {
        assert !EscapeAt(rest[0], k - 1);
      } else if |first| > 2 {
        assert first[1] == s[1..][0] && first[2] == s[1..][1];
      }
    }
  }

  // ----- Links -----

  /** What a link starts with does not count: one character, the "/", or in HTML Help nine, "/Content/". */
  predicate IsBehind(link: string, front: string, rest: string, htmlHelp: bool) {
    link == front + rest && |front| <= Ignored(htmlHelp) && (rest != "" ==> |front| == Ignored(htmlHelp))
  }

  function Ignored(htmlHelp: bool): nat {
    if htmlHelp then 9 else 1
  }

  /** `address` is the text, or else the text up to its first fragment or query, in capital or small letters. */
  predicate IsAddress(text: string, address: string, exact: bool) {
    if exact then SameLetters(text, address)
    else
      && |address| <= |text| && SameLetters(text[..|address|], address)
      && '#' !in text[..|address|] && '?' !in text[..|address|]
      && (|address| == |text| || text[|address|] in {'#', '?'})
  }

  predicate IsLinkTo(link: string, front: string, pieces: seq<string>, address: string, exact: bool, htmlHelp: bool) {
    && pieces != [] && NoEscapes(pieces) && IsBehind(link, front, Glue(pieces, "%20"), htmlHelp)
    && IsAddress(Glue(pieces, " "), address, exact)
  }

  /** The element links to the topic at `address`, relative to the folder of its system. */
  ghost predicate LeadsTo(a: Attrs, address: string, exact: bool, htmlHelp: bool) {
    && a.link.Some? && a.link.value != ""
    && exists front, pieces :: IsLinkTo(a.link.value, front, pieces, address, exact, htmlHelp)
  }

  lemma BehindExactly(link: string, front: string, rest: string, htmlHelp: bool)
    requires IsBehind(link, front, rest, htmlHelp)
    ensures Drop(link, if htmlHelp then |"/Content/"| else |"/"|) == rest
  {
    assert link[|front|..] == rest;
  }

  lemma BehindExists(link: string, htmlHelp: bool) returns (front: string, rest: string)
    ensures IsBehind(link, front, rest, htmlHelp)
  {
    if |link| <= Ignored(htmlHelp) {
      front, rest := link, "";
    } else {
      front, rest := link[..Ignored(htmlHelp)], link[Ignored(htmlHelp)..];
    }
  }

  /** Up to the first '#' and then up to the first '?' is up to whichever comes first. */
  lemma UpToMark(text: string, k: nat)
    requires k <= |text|
    ensures Before1(Before1(text, '#'), '?') == text[..k] <==>
      '#' !in text[..k] && '?' !in text[..k] && (k == |text| || text[k] in {'#', '?'})
  {
    var t := Before1(text, '#');
    assert t == text[..|t|] && '#' !in t;
    var u := Before1(t, '?');
    assert u == text[..|u|] && '#' !in u && '?' !in u;
    assert |u| < |text| ==> text[|u|] in {'#', '?'};
    if |u| < k {
      assert text[..k][|u|] == text[|u|];
    } else if k < |u| {
      assert u[k] == text[k];
    }
    assert text[..k] == u ==> |u| == k;
  }

  lemma LowerPrefix(s: string, k: nat)
    requires k <= |s|
    ensures Lower(s)[..k] == Lower(s[..k])
    ensures k < |s| ==> Lower(s)[k] == Small(s[k])
  {
    LowerExactly(s, Lower(s));
  }

  /** Marks are no letters. */
  lemma LowerKeepsMarks(s: string)
    ensures '#' in Lower(s) <==> '#' in s
    ensures '?' in Lower(s) <==> '?' in s
  {
    LowerExactly(s, Lower(s));
    forall i | 0 <= i < |s| ensures (Lower(s)[i] == '#' <==> s[i] == '#') && (Lower(s)[i] == '?' <==> s[i] == '?') {
      SmallKeepsMarks(s[i]);
    }
  }

  lemma SmallKeepsMarks(c: char)
    ensures (Small(c) == '#' <==> c == '#') && (Small(c) == '?' <==> c == '?')
  {
  }

  lemma AddressExactly(text: string, address: string, exact: bool)
    ensures IsAddress(text, address, exact) <==>
      (if exact then Lower(text) else Before1(Before1(Lower(text), '#'), '?')) == Lower(address)
  {
    if exact {
      SameLowerExactly(text, address);
    } else if |address| <= |text| {
      var k := |address|;
      UpToMark(Lower(text), k);
      LowerPrefix(text, k);
      SameLowerExactly(text[..k], address);
      LowerKeepsMarks(text[..k]);
      if k < |text| {
        SmallKeepsMarks(text[k]);
      }
    }
  }

  /** The comparison that the code makes tells exactly the links to an address. */
  lemma LinksExactly(a: Attrs, address: string, exact: bool, htmlHelp: bool)
    ensures LinkMatches(a, Lower(address), exact, htmlHelp) <==> LeadsTo(a, address, exact, htmlHelp)
  {
    if a.link.Some? && a.link.value != "" {
      var link := a.link.value;
      var front, rest := BehindExists(link, htmlHelp);
      var pieces := PiecesOf(rest);
      LinkExactly(link, front, pieces, address, exact, htmlHelp);
      forall f, p | IsLinkTo(link, f, p, address, exact, htmlHelp)
        ensures LinkMatches(a, Lower(address), exact, htmlHelp)
      {
        LinkExactly(link, f, p, address, exact, htmlHelp);
      }
    }
  }

  lemma LinkExactly(link: string, front: string, pieces: seq<string>, address: string, exact: bool, htmlHelp: bool)
    requires link != "" && pieces != [] && NoEscapes(pieces) && IsBehind(link, front, Glue(pieces, "%20"), htmlHelp)
    ensures LinkMatches(Attrs(None, Some(link), None), Lower(address), exact, htmlHelp)
       <==> IsLinkTo(link, front, pieces, address, exact, htmlHelp)
  {
    BehindExactly(link, front, Glue(pieces, "%20"), htmlHelp);
    UnescapeGlue(pieces);
    AddressExactly(Glue(pieces, " "), address, exact);
  }

  /** A link as it is written leads to the address behind its "/", or in HTML Help behind its "/Content/", with a space
      for each "%20", and to no other. */
  lemma WrittenLink(a: Attrs, pieces: seq<string>, address: string, exact: bool, htmlHelp: bool)
    requires pieces != [] && NoEscapes(pieces)
    requires a.link == Some((if htmlHelp then "/Content/" else "/") + Glue(pieces, "%20"))
    ensures LeadsTo(a, address, exact, htmlHelp) <==> IsAddress(Glue(pieces, " "), address, exact)
  {
    var front := if htmlHelp then "/Content/" else "/";
    LinksExactly(a, address, exact, htmlHelp);
    LinkExactly(a.link.value, front, pieces, address, exact, htmlHelp);
  }

  /** What follows a '#' or '?' does not matter to a match that need not be exact. */
  lemma TailDoesNotMatter(text: string, tail: string, address: string)
    requires '#' !in text && '?' !in text && (tail == "" || tail[0] in {'#', '?'})
    ensures IsAddress(text + tail, address, false) <==> SameLetters(text, address)
  {
    var all, k := text + tail, |address|;
    assert forall i | 0 <= i < |text| :: all[i] == text[i];
    if k <= |all| {
      if k > |text| {
        assert all[..k][|text|] == tail[0];
      } else {
        assert all[..k] == text[..k];
      }
    }
    if k == |text| {
      assert all[..k] == text;
    }
  }

  // ----- Finding an element by its link -----

  /** The element itself (`[]`), else the first of its children (`[i]`), that leads to the address; nothing when none
      does. The element's own link is always compared whole. */
  ghost predicate IsFirstLinked(own: Attrs, kids: seq<Attrs>, address: string, exact: bool, htmlHelp: bool,
                                found: Option<Path>)
  {
    match found
    case Some(p) =>
      if LeadsTo(own, address, true, htmlHelp) then p == []
      else
        && |p| == 1 && p[0] < |kids| && LeadsTo(kids[p[0]], address, exact, htmlHelp)
        && forall j | 0 <= j < p[0] :: !LeadsTo(kids[j], address, exact, htmlHelp)
    case None =>
      && !LeadsTo(own, address, true, htmlHelp)
      && forall j | 0 <= j < |kids| :: !LeadsTo(kids[j], address, exact, htmlHelp)
  }

  lemma FindLinkIsFirst(own: Attrs, kids: seq<Attrs>, address: string, exact: bool, htmlHelp: bool)
    ensures IsFirstLinked(own, kids, address, exact, htmlHelp, FindLink(own, kids, Lower(address), exact, htmlHelp))
  {
    LinksExactly(own, address, true, htmlHelp);
    forall j | 0 <= j < |kids|
      ensures LinkMatches(kids[j], Lower(address), exact, htmlHelp) <==> LeadsTo(kids[j], address, exact, htmlHelp)
    {
      LinksExactly(kids[j], address, exact, htmlHelp);
    }
  }

  /** `rel` is the address relative to a folder: without the folder where it starts with it, else as it is. */
  predicate IsRelative(href: string, folder: string, rel: string) {
    href == folder + rel || (!(folder <= href) && rel == href)
  }

  lemma RelativeExactly(href: string, folder: string, rel: string)
    ensures Url.ToRelative(href, folder) == rel <==> IsRelative(href, folder, rel)
  {
    if folder <= href {
      assert href == folder + href[|folder|..];
    }
    if href == folder + rel {
      assert href[|folder|..] == rel;
    }
  }

  /** Titles without bars, the last of which is no numbered step. */
  predicate AreTitles(steps: seq<string>) {
    && (forall i | 0 <= i < |steps| :: '|' !in steps[i])
    && (steps != [] ==> !("$$$$$" <= steps[|steps| - 1]))
  }

  /** A path of titles alone has no numbered step; no title at all is the empty path. */
  lemma ParseTitles(steps: seq<string>)
    requires AreTitles(steps) && steps != [""]
    ensures ParsePath(if steps == [] then "" else Join(steps, '|')) == (steps, -1)
  {
    if steps != [] {
      SplitJoin(steps, '|');
      NotNumbered(steps[|steps| - 1]);
      if |steps| > 1 {
        assert Join(steps, '|') == steps[0] + ['|'] + Join(steps[1..], '|');
      }
    }
  }

  lemma NotNumbered(step: string)
    requires !("$$$$$" <= step)
    ensures !StartsWithIgnoreCase(step, "$$$$$")
  {
    StartsExactly(step, "$$$$$");
    if |step| >= 5 {
      OnlyItself(step[..5]);
    }
  }

  lemma OnlyItself(s: string)
    requires |s| == 5
    ensures SameLetters(s, "$$$$$") ==> s == "$$$$$"
  {
    forall i | 0 <= i < 5 ensures Small(s[i]) == Small("$$$$$"[i]) ==> s[i] == '$' {
      SmallOfDollar(s[i]);
    }
  }

  lemma SmallOfDollar(c: char)
    ensures Small(c) == Small('$') <==> c == '$'
  {
  }

  /** With a path of titles, the topic's address decides at the book they lead to: relative to the folder of the
      book's system, the book or its first child that links to it; else, without regard to fragments and queries, the
      book or its first child that links there; else nothing. */
  lemma AddressResolves(n: Node, steps: seq<string>, at: Path, href: string, rel: string, plain: string, htmlHelp: bool)
    returns (first: Option<Path>, second: Option<Path>)
    requires AreTitles(steps) && steps != [""] && Descend(n, [], steps) == Found(at)
    requires IsRelative(href, AtFull(n, at).owner.data.path, rel) && Url.IsPlain(rel, plain)
    ensures var b := AtFull(n, at);
      && IsFirstLinked(b.attrs, KidAttrs(b), rel, true, htmlHelp, first)
      && IsFirstLinked(b.attrs, KidAttrs(b), plain, false, htmlHelp, second)
    ensures Resolve(n, if steps == [] then "" else Join(steps, '|'), href, htmlHelp) ==
      if first.Some? then Found(at + first.value)
      else if second.Some? then Found(at + second.value)
      else NotFound
  {
    var b := AtFull(n, at);
    ParseTitles(steps);
    RelativeExactly(href, b.owner.data.path, rel);
    Url.PlainPathExactly(rel, plain);
    FindLinkIsFirst(b.attrs, KidAttrs(b), rel, true, htmlHelp);
    FindLinkIsFirst(b.attrs, KidAttrs(b), plain, false, htmlHelp);
    first := FindLink(b.attrs, KidAttrs(b), Lower(rel), true, htmlHelp);
    second := FindLink(b.attrs, KidAttrs(b), Lower(plain), false, htmlHelp);
  }
}
