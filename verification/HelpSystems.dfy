/** Finding the help system that an address belongs to, in a tree of help systems. */
module HelpSystems {
  import opened Options
  import opened SystemTree
  import opened Text

  /** A help system is of interest for its folder. */
  type System = Tree<string>

  predicate Matches(s: System, href: string) {
    StartsWithIgnoreCase(href, s.data)
  }

  /** The first subsystem that knows the address, else the system itself if it does. */
  method GetHelpSystem(s: System, href: string) returns (found: Option<seq<nat>>)
    ensures found == Lookup(s, href)
  {
    for i := 0 to |s.subs|
      invariant LookupIn(s.subs, 0, href) == LookupIn(s.subs, i, href)
    {
      var below := GetHelpSystem(s.subs[i], href);
      if below != None {
        return Some([i] + below.value);
      }
    }
    found := if StartsWithIgnoreCase(href, s.data) then Some([]) else None;
  }

  /** A system matches exactly the addresses that start with its folder, in capital or small letters. */
  lemma MatchesExactly(s: System, href: string)
    ensures Matches(s, href) <==> |s.data| <= |href| && SameLetters(href[..|s.data|], s.data)
  {
    StartsExactly(href, s.data);
  }

  function Lookup(s: System, href: string): Option<seq<nat>>
    decreases s, 0
  {
    var below := LookupIn(s.subs, 0, href);
    if below.Some? then below else if Matches(s, href) then Some([]) else None
  }

  function LookupIn(subs: seq<System>, i: nat, href: string): Option<seq<nat>>
    requires i <= |subs|
    decreases subs, |subs| - i
  {
    if i == |subs| then None
    else match Lookup(subs[i], href)
         case Some(below) => Some([i] + below)
         case None => LookupIn(subs, i + 1, href)
  }

  /** The result is a matching system without a matching system below it; there is none exactly when
      nothing in the tree matches. */
  lemma {:induction false} LookupFinds(s: System, href: string)
    ensures Lookup(s, href).None? ==> forall at | In(s, at) :: !Matches(At(s, at), href)
    ensures Lookup(s, href).Some? ==>
      var p := Lookup(s, href).value;
      && In(s, p) && Matches(At(s, p), href)
      && forall q | In(s, q) && p < q :: !Matches(At(s, q), href)
    decreases s, 0
  {
    LookupInFinds(s.subs, 0, href);
    var below := LookupIn(s.subs, 0, href);
    if below.None? {
      forall at | In(s, at) && at != [] ensures !Matches(At(s, at), href) {
        var k := at[0];
        assert Lookup(s.subs[k], href).None?;
        LookupFinds(s.subs[k], href);
        var rest: seq<nat> := at[1..];
        assert In(s.subs[k], rest) && At(s.subs[k], rest) == At(s, at);
        assert !Matches(At(s.subs[k], rest), href);
      }
      var root: seq<nat> := [];
      assert In(s, root) && At(s, root) == s;
    } else {
      var p: seq<nat> := below.value;
      LookupFinds(s.subs[p[0]], href);
      assert In(s, p) && Matches(At(s, p), href);
      forall q | In(s, q) && p < q ensures !Matches(At(s, q), href) {
        assert p[1..] < q[1..];
      }
    }
  }

  lemma {:induction false} LookupInFinds(subs: seq<System>, i: nat, href: string)
    requires i <= |subs|
    ensures var r := LookupIn(subs, i, href);
      if r.None? then forall k | i <= k < |subs| :: Lookup(subs[k], href).None?
      else r.value != [] && i <= r.value[0] < |subs| && Lookup(subs[r.value[0]], href) == Some(r.value[1..])
    decreases subs, |subs| - i
  {
    if i < |subs| {
      LookupInFinds(subs, i + 1, href);
      if Lookup(subs[i], href).Some? {
        assert ([i] + Lookup(subs[i], href).value)[1..] == Lookup(subs[i], href).value;
      }
    }
  }

  // ----- The longest prefix -----

  /** Each subsystem's folder extends its parent's, as loading makes it, and no subsystem's folder is,
      up to case, a prefix of a sibling's. */
  predicate Separate(s: System) {
    && (forall x | x in s.subs :: s.data <= x.data && Separate(x))
    && (forall i, j | 0 <= i < |s.subs| && 0 <= j < |s.subs| && i != j ::
          !StartsWithIgnoreCase(s.subs[j].data, s.subs[i].data))
  }

  lemma PrefixMatches(href: string, longer: string, shorter: string)
    requires StartsWithIgnoreCase(href, longer) && shorter <= longer
    ensures StartsWithIgnoreCase(href, shorter)
  {
    assert Lower(longer)[..|shorter|] == Lower(shorter);
  }

  lemma TwoPrefixes(href: string, a: string, b: string)
    requires StartsWithIgnoreCase(href, a) && StartsWithIgnoreCase(href, b)
    ensures StartsWithIgnoreCase(a, b) || StartsWithIgnoreCase(b, a)
  {
    if |b| <= |a| {
      assert Lower(a)[..|b|] == Lower(href)[..|b|];
    } else {
      assert Lower(b)[..|a|] == Lower(href)[..|a|];
    }
  }

  /** The folder of a system is a prefix of the folders of all systems below it. */
  lemma {:induction false} FoldersExtend(s: System, at: seq<nat>)
    requires Separate(s) && In(s, at)
    ensures s.data <= At(s, at).data && Separate(At(s, at))
    decreases at
  {
    if at != [] {
      FoldersExtend(s.subs[at[0]], at[1..]);
    }
  }

  /** Every system that matches lies on the way to the one found, so that is the one with the longest
      folder. */
  lemma {:induction false} FoundIsLongest(s: System, href: string, q: seq<nat>)
    requires Separate(s) && In(s, q) && Matches(At(s, q), href)
    ensures Lookup(s, href).Some? && In(s, Lookup(s, href).value)
    ensures q <= Lookup(s, href).value
    ensures |At(s, q).data| <= |At(s, Lookup(s, href).value).data|
    decreases s
  {
    LookupFinds(s, href);
    var p := Lookup(s, href).value;
    if q == [] {
      FoldersExtend(s, p);
    } else {
      var k := q[0];
      FoldersExtend(s.subs[k], q[1..]);
      PrefixMatches(href, At(s, q).data, s.subs[k].data);
      FoundIsLongest(s.subs[k], href, q[1..]);
      LookupInFinds(s.subs, 0, href);
      assert p != [] && p[0] < |s.subs|;
      if p[0] != k {
        FoldersExtend(s.subs[p[0]], p[1..]);
        PrefixMatches(href, At(s, p).data, s.subs[p[0]].data);
        TwoPrefixes(href, s.subs[k].data, s.subs[p[0]].data);
      }
      assert q == [k] + q[1..] && p == [p[0]] + p[1..];
    }
  }

}
