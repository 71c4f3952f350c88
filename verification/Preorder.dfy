/** Positions in an ordered tree and the document order on them.

    A position is the list of child indices that leads from the root to a node, so `[]` is the
    root, `p + [i]` is child `i` of `p`, and dropping the last index gives the parent. Document
    order (preorder) is the lexicographic order on positions. */
module Preorder {

  type Path = seq<nat>

  /** `p` comes strictly before `q` in document order. */
  predicate Before(p: Path, q: Path) {
    if q == [] then false
    else if p == [] then true
    else p[0] < q[0] || (p[0] == q[0] && Before(p[1..], q[1..]))
  }

  function Parent(p: Path): Path
    requires p != []
  {
    p[..|p| - 1]
  }

  function Last(p: Path): nat
    requires p != []
  {
    p[|p| - 1]
  }

  /** The position of the next sibling of `p`, whether or not a node is there. */
  function NextSibling(p: Path): Path
    requires p != []
  {
    Parent(p) + [Last(p) + 1]
  }

  /** The position of the previous sibling of `p`. */
  function PreviousSibling(p: Path): Path
    requires p != [] && Last(p) > 0
  {
    Parent(p) + [Last(p) - 1]
  }

  lemma SiblingsInverse(p: Path)
    requires p != [] && Last(p) > 0
    ensures PreviousSibling(p) != [] && NextSibling(PreviousSibling(p)) == p
    ensures Parent(PreviousSibling(p)) == Parent(p)
  {
  }

  lemma Regroup(c: Path, i: nat, u: Path)
    ensures c + ([i] + u) == (c + [i]) + u && c < c + ([i] + u)
  {
  }

  lemma {:induction false} BeforeIrreflexive(p: Path)
    ensures !Before(p, p)
  {
    if p != [] {
      BeforeIrreflexive(p[1..]);
    }
  }

  lemma {:induction false} BeforeTransitive(p: Path, q: Path, r: Path)
    requires Before(p, q) && Before(q, r)
    ensures Before(p, r)
  {
    if p != [] && p[0] == q[0] == r[0] {
      BeforeTransitive(p[1..], q[1..], r[1..]);
    }
  }

  /** Document order is total: two different positions are comparable, one way only. */
  lemma {:induction false} BeforeTotal(p: Path, q: Path)
    ensures p == q || Before(p, q) || Before(q, p)
    ensures !(Before(p, q) && Before(q, p))
  {
    if p != [] && q != [] && p[0] == q[0] {
      BeforeTotal(p[1..], q[1..]);
      assert p == [p[0]] + p[1..] && q == [q[0]] + q[1..];
    }
  }

  /** An ancestor comes before everything under it. */
  lemma {:induction false} AncestorBefore(p: Path, q: Path)
    requires p < q
    ensures Before(p, q)
  {
    if p != [] {
      AncestorBefore(p[1..], q[1..]);
    }
  }

  /** Whatever lies between a node (or something under it) and the node's next sibling lies
      under the node. */
  lemma {:induction false} BetweenSiblings(c: Path, p: Path, r: Path)
    requires c != [] && c <= p
    requires Before(p, r) && Before(r, NextSibling(c))
    ensures c <= r
  {
    assert r != [];
    var s := NextSibling(c);
    if |c| == 1 {
      assert s == [c[0] + 1];
      assert r[0] == c[0];
    } else {
      assert s[0] == c[0] && s[1..] == NextSibling(c[1..]);
      assert p[0] == c[0] && r[0] == c[0];
      BetweenSiblings(c[1..], p[1..], r[1..]);
    }
  }

  /** Positions after `p` that lie under `p`'s ancestor `a` but not under `a`'s child on the
      way to `p` go through a later child of `a`. */
  lemma {:induction false} LaterChild(a: Path, i: nat, p: Path, r: Path)
    requires a + [i] <= p && a <= r && !(a + [i] <= r) && Before(p, r)
    ensures |r| > |a| && r[|a|] > i
  {
    if a == [] {
      assert p[0] == i;
    } else {
      assert (a + [i])[1..] == a[1..] + [i];
      assert p[0] == a[0] == r[0];
      LaterChild(a[1..], i, p[1..], r[1..]);
    }
  }

  /** Under one parent, an earlier child's subtree comes before a later child's. */
  lemma {:induction false} EarlierChildBefore(a: Path, i: nat, j: nat, u: Path, v: Path)
    requires i < j
    ensures Before(a + [i] + u, a + [j] + v)
  {
    if a != [] {
      var x, y := a + [i] + u, a + [j] + v;
      assert x[1..] == a[1..] + [i] + u && y[1..] == a[1..] + [j] + v;
      EarlierChildBefore(a[1..], i, j, u, v);
    }
  }

  /** What comes before the next sibling of `c` is what comes before `c`, `c`, and what is under `c`. */
  lemma BeforeNextSibling(c: Path, r: Path)
    requires c != []
    ensures Before(r, NextSibling(c)) <==> Before(r, c) || c <= r
    ensures !(Before(r, c) && c <= r)
  {
    var a, s := Parent(c), NextSibling(c);
    BeforeTotal(r, c);
    BeforeIrreflexive(c);
    if c <= r {
      if c != r {
        AncestorBefore(c, r);
      }
      EarlierChildBefore(a, Last(c), Last(c) + 1, r[|c|..], []);
      assert r == a + [Last(c)] + r[|c|..] && s == s + [];
    } else if Before(r, c) {
      EarlierChildBefore(a, Last(c), Last(c) + 1, [], []);
      assert c == a + [Last(c)] + [] && s == s + [];
      BeforeTransitive(r, c, s);
    } else if Before(r, s) {
      BetweenSiblings(c, c, r);
    }
  }
}
