/** What "next" and "previous" mean on the fully expanded tree, and the steps that establish it. */
module TocNavigation {
  import opened Options
  import opened Preorder
  import opened TocTree
  import opened TocExpansion
  import Text
  import Url

  datatype Move = Previous | Next

  /** The extension that marks topics: the configured one, else htm and html. */
  datatype TopicRule = TopicRule(custom: Option<string>)

  /** The test that the code makes. */
  predicate HasTopicExtension(rule: TopicRule, attrs: Attrs) {
    var link := Read(attrs.link);
    && link.Some?
    && (var ext := Text.Lower(Url.Extension(link.value));
        if rule.custom.Some? then ext == rule.custom.value else ext in {"htm", "html"})
  }

  // ----- Topics -----

  /** The extension of a topic, in capital or small letters. */
  predicate IsTopicExtension(rule: TopicRule, ext: string) {
    match rule.custom
    case None => Text.SmallSpelling(ext, "htm") || Text.SmallSpelling(ext, "html")
    case Some(custom) => Text.SmallSpelling(ext, custom)
  }

  /** A link that is `head + ext`, not counting what is cut from its end, with a topic's extension behind the last
      dot or slash. */
  predicate IsTopicLink(rule: TopicRule, link: string, head: string, ext: string) {
    Url.IsPlain(link, head + ext) && Url.IsEnding(head, ext) && IsTopicExtension(rule, ext)
  }

  /** Whether an element leads to a topic. */
  ghost predicate IsTopic(rule: TopicRule, attrs: Attrs) {
    attrs.link.Some? && attrs.link.value != "" && exists head, ext :: IsTopicLink(rule, attrs.link.value, head, ext)
  }

  lemma ExtensionsExactly(rule: TopicRule, ext: string)
    ensures IsTopicExtension(rule, ext) <==>
      if rule.custom.Some? then Text.Lower(ext) == rule.custom.value else Text.Lower(ext) in {"htm", "html"}
  {
    Text.LowerExactly(ext, "htm");
    Text.LowerExactly(ext, "html");
    if rule.custom.Some? {
      Text.LowerExactly(ext, rule.custom.value);
    }
  }

  /** Whatever is cut, what is left decides by what stands behind its last dot or slash. */
  lemma TopicByEnding(rule: TopicRule, attrs: Attrs, head: string, ext: string)
    requires attrs.link.Some? && attrs.link.value != ""
    requires Url.IsPlain(attrs.link.value, head + ext) && Url.IsEnding(head, ext)
    ensures IsTopic(rule, attrs) <==> IsTopicExtension(rule, ext)
  {
    Url.ExtensionOf(attrs.link.value, head, ext);
    if IsTopicExtension(rule, ext) {
      assert IsTopicLink(rule, attrs.link.value, head, ext);
    }
    if h, e :| IsTopicLink(rule, attrs.link.value, h, e) {
      Url.ExtensionOf(attrs.link.value, h, e);
    }
  }

  /** The test tells exactly the topics. */
  lemma TopicsExactly(rule: TopicRule, attrs: Attrs)
    ensures HasTopicExtension(rule, attrs) <==> IsTopic(rule, attrs)
  {
    if attrs.link.Some? && attrs.link.value != "" {
      var head := Url.EndingExists(attrs.link.value);
      TopicByEnding(rule, attrs, head, Url.Extension(attrs.link.value));
      ExtensionsExactly(rule, Url.Extension(attrs.link.value));
    }
  }

  /** A fragment or a query, but not both. */
  predicate IsTail(tail: string) {
    tail == "" || (tail[0] == '#' && '?' !in tail) || (tail[0] == '?' && '#' !in tail)
  }

  lemma TailIsCut(text: string, tail: string)
    requires '#' !in text && '?' !in text && IsTail(tail)
    ensures Url.IsPlain(text + tail, text)
  {
    var link := text + tail;
    assert forall c | c in link :: c in text || c in tail;
    if tail == "" {
      assert link == text;
    } else {
      assert link[|text|] == tail[0] && link[..|text|] == text;
    }
  }

  /** The file an element links to, with a fragment or a query behind it or neither, decides by its extension alone. */
  lemma TopicByExtension(rule: TopicRule, attrs: Attrs, stem: string, ext: string, tail: string)
    requires '#' !in stem && '?' !in stem && IsTail(tail)
    requires '#' !in ext && '?' !in ext && '.' !in ext && '/' !in ext
    requires attrs.link == Some(stem + "." + ext + tail)
    ensures IsTopic(rule, attrs) <==> IsTopicExtension(rule, ext)
  {
    TailIsCut(stem + "." + ext, tail);
    TopicByEnding(rule, attrs, stem + ".", ext);
  }

  /** One mark with what follows it, and then the other one. */
  predicate IsDividedTail(kept: string, rest: string) {
    && kept != "" && rest != ""
    && ((kept[0] == '#' && '?' !in kept && rest[0] == '?') || (kept[0] == '?' && '#' !in kept && rest[0] == '#'))
  }

  lemma TailIsCutLater(text: string, kept: string, rest: string)
    requires '#' !in text && '?' !in text && IsDividedTail(kept, rest)
    ensures Url.IsPlain(text + kept + rest, text + kept)
  {
    var link, plain := text + kept + rest, text + kept;
    assert link[|plain|] == rest[0] && link[..|plain|] == plain;
    assert plain[|text|] == kept[0];
    assert forall c | c in plain :: c in text || c in kept;
    assert rest[0] in link && kept[0] in link;
  }

  /** With a query and a fragment, what follows the first of the two marks is not cut, and its end decides. So the
      file decides, as it does with one mark, exactly when both say the same. */
  lemma TopicByKeptPart(attrs: Attrs, stem: string, ext: string, kept: string, rest: string, head: string, last: string)
    requires '#' !in stem && '?' !in stem && '#' !in ext && '?' !in ext && '.' !in ext && '/' !in ext
    requires attrs.link == Some(stem + "." + ext + kept + rest) && IsDividedTail(kept, rest)
    requires kept == head + last && Url.IsEnding(head, last)
    ensures IsTopic(TopicRule(None), attrs) <==> head != "" && IsTopicExtension(TopicRule(None), last)
  {
    var file := stem + "." + ext;
    TailIsCutLater(file, kept, rest);
    if head == "" {
      MarkedIsNoExtension(ext, kept);
      assert file + kept == stem + "." + (ext + kept);
      TopicByEnding(TopicRule(None), attrs, stem + ".", ext + kept);
    } else {
      assert file + kept == file + head + last;
      TopicByEnding(TopicRule(None), attrs, file + head, last);
    }
  }

  /** A page that is taken for no topic: it has a query and a fragment. */
  lemma PageMissed(attrs: Attrs, stem: string)
    requires '#' !in stem && '?' !in stem && attrs.link == Some(stem + "." + "htm" + "?x" + "#y")
    ensures IsTopicExtension(TopicRule(None), "htm") && !IsTopic(TopicRule(None), attrs)
  {
    TopicByKeptPart(attrs, stem, "htm", "?x", "#y", "", "?x");
  }

  lemma MarkedIsNoExtension(ext: string, kept: string)
    requires kept != "" && kept[0] in {'#', '?'}
    ensures !IsTopicExtension(TopicRule(None), ext + kept)
  {
    assert (ext + kept)[|ext|] == kept[0];
  }

  /** `r` lies ahead of `p` in the direction of the move. */
  predicate Ahead(move: Move, p: Path, r: Path) {
    match move
    case Next => Before(p, r)
    case Previous => Before(r, p)
  }

  /** `q` is the node of the expanded tree nearest to `p` in the direction of the move. */
  ghost predicate Adjacent(n: Node, move: Move, p: Path, q: Option<Path>) {
    match q
    case None => forall r | InFull(n, r) :: !Ahead(move, p, r)
    case Some(s) =>
      && InFull(n, s) && Ahead(move, p, s)
      && forall r | InFull(n, r) && Ahead(move, p, r) :: r == s || Ahead(move, s, r)
  }

  /** `q` is the topic of the expanded tree nearest to `p` in the direction of the move. */
  ghost predicate NearestTopic(n: Node, rule: TopicRule, move: Move, p: Path, q: Option<Path>) {
    match q
    case None => forall r | InFull(n, r) && Ahead(move, p, r) :: !IsTopic(rule, AtFull(n, r).attrs)
    case Some(s) =>
      && InFull(n, s) && Ahead(move, p, s) && IsTopic(rule, AtFull(n, s).attrs)
      && forall r | InFull(n, r) && Ahead(move, p, r) && IsTopic(rule, AtFull(n, r).attrs) ::
           r == s || Ahead(move, s, r)
  }

  /** The nodes still ahead of `p`. */
  function Remaining(n: Node, move: Move, p: Path): set<Path> {
    set r | r in Positions(n) && Ahead(move, p, r)
  }

  lemma AheadOrder(move: Move, p: Path, q: Path, r: Path)
    ensures !Ahead(move, p, p)
    ensures Ahead(move, p, q) && Ahead(move, q, r) ==> Ahead(move, p, r)
    ensures p == q || Ahead(move, p, q) || Ahead(move, q, p)
    ensures !(Ahead(move, p, q) && Ahead(move, q, p))
  {
    BeforeIrreflexive(p);
    BeforeTotal(p, q);
    if Ahead(move, p, q) && Ahead(move, q, r) {
      match move
      case Next => BeforeTransitive(p, q, r);
      case Previous => BeforeTransitive(r, q, p);
    }
  }

  /** A step leaves fewer nodes ahead. */
  lemma StepShrinks(n: Node, move: Move, p: Path, q: Path)
    requires InFull(n, q) && Ahead(move, p, q)
    ensures Remaining(n, move, q) < Remaining(n, move, p)
  {
    forall r | r in Remaining(n, move, q) ensures r in Remaining(n, move, p) {
      AheadOrder(move, p, q, r);
    }
    AheadOrder(move, q, q, q);
    assert q in Remaining(n, move, p) && q !in Remaining(n, move, q);
  }

  /** Skipping a node that is not a topic loses no topic. */
  lemma SkipNonTopic(n: Node, rule: TopicRule, move: Move, p: Path, s: Path, q: Option<Path>)
    requires Adjacent(n, move, p, Some(s)) && !IsTopic(rule, AtFull(n, s).attrs)
    requires NearestTopic(n, rule, move, s, q)
    ensures NearestTopic(n, rule, move, p, q)
  {
    if q.Some? {
      AheadOrder(move, p, s, q.value);
    }
  }

  /** The topic reached is determined by the expanded tree alone. */
  lemma {:induction false} NearestTopicUnique(n: Node, rule: TopicRule, move: Move, p: Path,
                                              q: Option<Path>, q': Option<Path>)
    requires NearestTopic(n, rule, move, p, q) && NearestTopic(n, rule, move, p, q')
    ensures q == q'
  {
    if q.Some? && q'.Some? {
      AheadOrder(move, q.value, q'.value, q'.value);
    }
  }

  /** Going to the next topic and back returns to the topic started from, and likewise the other
      way round. */
  lemma {:induction false} ThereAndBack(n: Node, rule: TopicRule, p: Path, q: Path, back: Option<Path>, move: Move)
    requires InFull(n, p) && IsTopic(rule, AtFull(n, p).attrs)
    requires NearestTopic(n, rule, move, p, Some(q))
    requires NearestTopic(n, rule, if move.Next? then Previous else Next, q, back)
    ensures back == Some(p)
  {
    var reverse := if move.Next? then Previous else Next;
    if back.Some? && back.value != p {
      AheadOrder(reverse, q, p, back.value);
      AheadOrder(move, p, back.value, q);
      AheadOrder(move, q, back.value, q);
    }
  }

  // ----- Next -----

  /** Everything of the expanded tree that lies after `p` lies outside `c`. */
  ghost predicate NothingLeftIn(n: Node, p: Path, c: Path) {
    c <= p && forall r | InFull(n, r) && Before(p, r) :: !(c <= r)
  }

  lemma FirstChildIsNext(n: Node, p: Path)
    requires InFull(n, p)
    ensures InFull(n, p + [0]) ==> Adjacent(n, Next, p, Some(p + [0]))
    ensures !InFull(n, p + [0]) ==> NothingLeftIn(n, p, p)
  {
    FullChild(n, p, 0);
    AncestorBefore(p, p + [0]);
    BeforeIrreflexive(p);
    forall r | InFull(n, r) && Before(p, r)
      ensures p <= r ==> InFull(n, p + [0])
      ensures r == p + [0] || Before(p + [0], r) || !InFull(n, p + [0])
    {
      if p <= r {
        assert r != p;
        FullAncestor(n, p, r);
      }
      BeforeTotal(p + [0], r);
      if Before(r, p + [0]) {
        AfterParentNotBeforeFirst(p, r);
      }
    }
  }

  lemma {:induction false} AfterParentNotBeforeFirst(p: Path, r: Path)
    ensures !(Before(p, r) && Before(r, p + [0]))
  {
    if p != [] && r != [] {
      assert (p + [0])[1..] == p[1..] + [0];
      AfterParentNotBeforeFirst(p[1..], r[1..]);
    }
  }

  /** With nothing left in `c`, the next node is `c`'s next sibling, or else nothing is left in
      `c`'s parent either. */
  lemma ClimbNext(n: Node, p: Path, c: Path)
    requires InFull(n, p) && NothingLeftIn(n, p, c) && c != []
    ensures InFull(n, NextSibling(c)) ==> Adjacent(n, Next, p, Some(NextSibling(c)))
    ensures !InFull(n, NextSibling(c)) ==> NothingLeftIn(n, p, Parent(c))
  {
    var s, a := NextSibling(c), Parent(c);
    assert c == a + [Last(c)];
    EarlierChildBefore(a, Last(c), Last(c) + 1, p[|c|..], []);
    assert p == a + [Last(c)] + p[|c|..] && s == a + [Last(c) + 1] + [];
    forall r | InFull(n, r) && Before(p, r)
      ensures r == s || Before(s, r)
      ensures a <= r ==> InFull(n, s)
    {
      BeforeTotal(r, s);
      if Before(r, s) {
        BetweenSiblings(c, p, r);
      }
      if a <= r {
        LaterChild(a, Last(c), p, r);
        FullAncestor(n, a, r);
        FullChild(n, a, Last(c) + 1);
      }
    }
  }

  // ----- Previous -----

  /** Every node before `p` and after `c` lies under `c`. */
  ghost predicate GapIsUnder(n: Node, p: Path, c: Path) {
    && InFull(n, c) && (forall u | c <= u :: Before(u, p))
    && forall r | InFull(n, r) && Before(r, p) :: Before(r, c) || c <= r
  }

  lemma PreviousSiblingGap(n: Node, p: Path, c: Path)
    requires InFull(n, p) && InFull(n, c) && c != [] && p == NextSibling(c)
    ensures GapIsUnder(n, p, c)
  {
    forall u | c <= u ensures Before(u, p) {
      EarlierChildBefore(Parent(c), Last(c), Last(c) + 1, u[|c|..], []);
      assert u == Parent(c) + [Last(c)] + u[|c|..] && p == p + [];
    }
    forall r | InFull(n, r) && Before(r, p) ensures Before(r, c) || c <= r {
      BeforeTotal(r, c);
      if Before(c, r) {
        BetweenSiblings(c, c, r);
      }
    }
  }

  lemma DescendGap(n: Node, p: Path, c: Path)
    requires GapIsUnder(n, p, c)
    ensures AtFull(n, c).kids == [] ==> Adjacent(n, Previous, p, Some(c))
    ensures AtFull(n, c).kids != [] ==> GapIsUnder(n, p, c + [|AtFull(n, c).kids| - 1])
  {
    var m := |AtFull(n, c).kids|;
    if m == 0 {
      forall r | InFull(n, r) && Before(r, p) ensures r == c || Before(r, c) {
        if c <= r {
          FullAncestor(n, c, r);
        }
      }
    } else {
      var d: Path := c + [m - 1];
      FullChild(n, c, m - 1);
      forall r | InFull(n, r) && Before(r, p) ensures Before(r, d) || d <= r {
        AncestorBefore(c, d);
        if Before(r, c) {
          BeforeTransitive(r, c, d);
        } else if r != c {
          FullAncestor(n, c, r);
          var j := r[|c|];
          assert r == c + [j] + r[|c| + 1..] && d == d + [];
          if j < m - 1 {
            EarlierChildBefore(c, j, m - 1, r[|c| + 1..], []);
          } else {
            assert d == r[..|c| + 1];
          }
        }
      }
    }
  }

  /** A first child is preceded by its parent, and the root by nothing. */
  lemma FirstIsPrecededByParent(n: Node, p: Path)
    requires InFull(n, p)
    ensures p == [] ==> Adjacent(n, Previous, p, None)
    ensures p != [] && Last(p) == 0 ==> Adjacent(n, Previous, p, Some(Parent(p)))
  {
    if p != [] && Last(p) == 0 {
      var a := Parent(p);
      assert p == a + [0];
      FullAncestor(n, a, p);
      AncestorBefore(a, p);
      forall r | InFull(n, r) && Before(r, p) ensures r == a || Before(r, a) {
        BeforeTotal(r, a);
        AfterParentNotBeforeFirst(a, r);
      }
    }
  }
}
