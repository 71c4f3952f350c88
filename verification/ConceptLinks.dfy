/** Looking up the links of a concept in a tree of help systems. The answer is assembled in place, in
    the very array that the concept map holds, and that array is remembered; so the question is
    whether answers stay the same once given. Arrays are shared by number. */
module ConceptLinks {
  import opened SystemTree

  /** What is of interest about a help system: whether it exists, and its concept file. */
  datatype Info = Info(present: bool, file: map<string, seq<string>>)

  type System = Tree<Info>
  type Path = Place
  type Key = (Path, string)

  /** The arrays, and which array each system holds for each concept in mConceptMap and in
      mViewedConceptMap. */
  datatype Store = Store(arrays: seq<seq<string>>, concepts: map<Key, nat>, viewed: map<Key, nat>)

  // ----- Answers -----

  function Own(s: System, c: string): seq<string> {
    if c in s.data.file then s.data.file[c] else []
  }

  /** No subsystem exists: nothing is merged or remembered. */
  predicate Leaf(s: System) {
    forall k | 0 <= k < |s.subs| :: !s.subs[k].data.present
  }

  /** The answer has been given, or never depends on anything else. */
  predicate Settled(st: Store, root: System, p: Path, c: string) {
    In(root, p) && (Leaf(At(root, p)) || (p, c) in st.viewed)
  }

  /** The answer of a settled system. */
  function Reply(st: Store, root: System, p: Path, c: string): seq<string>
    requires In(root, p)
  {
    if (p, c) in st.viewed && st.viewed[(p, c)] < |st.arrays| then st.arrays[st.viewed[(p, c)]]
    else Own(At(root, p), c)
  }

  /** All existing subsystems, each once. */
  predicate IsOrder(s: System, order: seq<nat>) {
    && (forall i, j | 0 <= i < j < |order| :: order[i] != order[j])
    && (forall i | 0 <= i < |order| :: order[i] < |s.subs| && s.subs[order[i]].data.present)
    && (forall k | 0 <= k < |s.subs| && s.subs[k].data.present :: k in order)
  }

  predicate AllSettled(st: Store, root: System, p: Path, order: seq<nat>, c: string) {
    forall i | 0 <= i < |order| :: Settled(st, root, p + [order[i]], c)
  }

  /** The answers of the subsystems of `p`, one after the other. */
  function Gather(st: Store, root: System, p: Path, order: seq<nat>, c: string): seq<string>
    requires AllSettled(st, root, p, order, c)
  {
    if order == [] then []
    else
      var last := |order| - 1;
      Gather(st, root, p, order[..last], c) + Reply(st, root, p + [order[last]], c)
  }

  // ----- What every state keeps -----

  /** No array is held for two keys, and the remembered array of a concept is the one in its map. */
  predicate Unshared(st: Store) {
    && (forall k | k in st.concepts :: st.concepts[k] < |st.arrays|)
    && (forall k | k in st.viewed :: st.viewed[k] < |st.arrays|)
    && (forall k, l | k in st.concepts && l in st.concepts && st.concepts[k] == st.concepts[l] :: k == l)
    && (forall k, l | k in st.viewed && l in st.viewed && st.viewed[k] == st.viewed[l] :: k == l)
    && (forall k, l | k in st.viewed && l in st.concepts && st.viewed[k] == st.concepts[l] :: k == l)
    && (forall k | k in st.viewed && k in st.concepts :: st.viewed[k] == st.concepts[k])
  }

  /** The remembered answer is the system's own links followed by what each existing subsystem answers,
      in the order `order`. */
  ghost predicate Composed(st: Store, root: System, p: Path, c: string, order: seq<nat>)
    requires In(root, p)
  {
    && IsOrder(At(root, p), order) && AllSettled(st, root, p, order, c)
    && Reply(st, root, p, c) == Own(At(root, p), c) + Gather(st, root, p, order, c)
  }

  /** An unasked concept has its own links in the map; a remembered one is composed. */
  ghost predicate Good(st: Store, root: System, p: Path, c: string)
    requires In(root, p)
  {
    var key := (p, c);
    && (key in st.concepts <==> c in At(root, p).data.file)
    && (key in st.viewed ==> !Leaf(At(root, p)) && exists order :: Composed(st, root, p, c, order))
    && (key !in st.viewed && key in st.concepts && st.concepts[key] < |st.arrays| ==>
          st.arrays[st.concepts[key]] == Own(At(root, p), c))
  }

  /** The concept is good at `p` and everywhere below. */
  ghost predicate GoodFrom(st: Store, root: System, p: Path, c: string) {
    forall q {:trigger Good(st, root, q, c)} | In(root, q) && p <= q :: Good(st, root, q, c)
  }

  /** The concept is good everywhere below `p`. */
  ghost predicate GoodBelow(st: Store, root: System, p: Path, c: string) {
    forall q {:trigger Good(st, root, q, c)} | In(root, q) && p < q :: Good(st, root, q, c)
  }

  /** Keys of the system at `p` and of those below it, for one concept. */
  predicate Under(p: Path, c: string, k: Key) {
    k.1 == c && p <= k.0
  }

  /** The array in the map of an unasked key under `p`. */
  ghost predicate MayChange(st: Store, p: Path, c: string, id: nat) {
    exists k :: k in st.concepts && Under(p, c, k) && k !in st.viewed && st.concepts[k] == id
  }

  /** What a lookup of `c` at `p` leaves alone: every remembered answer, and every array but the
      unasked ones below `p`. What it remembers anew is one of those or a new array. */
  ghost predicate Frame(st: Store, st': Store, p: Path, c: string) {
    && st'.concepts == st.concepts && |st.arrays| <= |st'.arrays|
    && (forall k | k in st.viewed :: k in st'.viewed && st'.viewed[k] == st.viewed[k])
    && (forall k | k in st'.viewed && k !in st.viewed ::
          Under(p, c, k) && (st'.viewed[k] >= |st.arrays| || (k in st.concepts && st'.viewed[k] == st.concepts[k])))
    && (forall id | 0 <= id < |st.arrays| && !MayChange(st, p, c, id) :: st'.arrays[id] == st.arrays[id])
  }

  /** Every remembered answer is still remembered, in the same array with the same links. */
  ghost predicate AnswersKept(st: Store, st': Store) {
    && st'.concepts == st.concepts
    && forall k | k in st.viewed && st.viewed[k] < |st.arrays| ::
         && k in st'.viewed && st'.viewed[k] == st.viewed[k] < |st'.arrays|
         && st'.arrays[st.viewed[k]] == st.arrays[st.viewed[k]]
  }

  /** Systems without existing subsystems remember nothing. */
  ghost predicate LeavesUnviewed(st: Store, root: System) {
    forall q, d | (q, d) in st.viewed :: In(root, q) && !Leaf(At(root, q))
  }

  ghost predicate Inv(st: Store, root: System) {
    Unshared(st) && LeavesUnviewed(st, root)
  }

  /** What a finished lookup of `c` at `p` guarantees. */
  ghost predicate LookedUp(st: Store, st': Store, root: System, p: Path, c: string) {
    && In(root, p) && Inv(st', root) && Frame(st, st', p, c)
    && GoodFrom(st', root, p, c) && Settled(st', root, p, c)
  }

  // ----- Facts about frames -----

  lemma FrameThen(st: Store, st1: Store, st2: Store, p: Path, k: nat, c: string)
    requires Frame(st, st1, p, c) && Frame(st1, st2, p + [k], c)
    ensures Frame(st, st2, p, c)
  {
    forall key: Key | Under(p + [k], c, key) ensures Under(p, c, key) {
      assert p == (p + [k])[..|p|];
    }
  }

  lemma FrameKeepsAnswers(st: Store, st': Store, p: Path, c: string)
    requires Frame(st, st', p, c) && Unshared(st)
    ensures AnswersKept(st, st')
  {
    forall k | k in st.viewed ensures !MayChange(st, p, c, st.viewed[k]) {}
  }

  lemma ReplyStays(st: Store, st': Store, root: System, q: Path, d: string)
    requires AnswersKept(st, st') && Inv(st, root) && LeavesUnviewed(st', root) && Settled(st, root, q, d)
    ensures Settled(st', root, q, d) && Reply(st', root, q, d) == Reply(st, root, q, d)
  {
  }

  lemma {:induction false} GatherStays(st: Store, st': Store, root: System, q: Path, order: seq<nat>, d: string)
    requires AnswersKept(st, st') && Inv(st, root) && LeavesUnviewed(st', root)
    requires AllSettled(st, root, q, order, d)
    ensures AllSettled(st', root, q, order, d)
    ensures Gather(st', root, q, order, d) == Gather(st, root, q, order, d)
    decreases |order|
  {
    forall i | 0 <= i < |order| ensures Settled(st', root, q + [order[i]], d) {
      ReplyStays(st, st', root, q + [order[i]], d);
    }
    if order != [] {
      var last := |order| - 1;
      assert forall i | 0 <= i < last :: order[..last][i] == order[i];
      GatherStays(st, st', root, q, order[..last], d);
      ReplyStays(st, st', root, q + [order[last]], d);
    }
  }

  /** A key whose own array is untouched stays good when answers are kept. */
  lemma GoodStays(st: Store, st': Store, root: System, q: Path, d: string)
    requires AnswersKept(st, st') && Inv(st, root) && Inv(st', root) && In(root, q) && Good(st, root, q, d)
    requires (q, d) in st.viewed || ((q, d) !in st'.viewed && ((q, d) in st.concepts ==>
               st.concepts[(q, d)] < |st'.arrays| && st'.arrays[st.concepts[(q, d)]] == st.arrays[st.concepts[(q, d)]]))
    ensures Good(st', root, q, d)
  {
    if (q, d) in st.viewed {
      var order :| Composed(st, root, q, d, order);
      GatherStays(st, st', root, q, order, d);
      ReplyStays(st, st', root, q, d);
      assert Composed(st', root, q, d, order);
    }
  }

  /** What a lookup is not about stays good. */
  lemma {:induction false} FrameKeepsGood(st: Store, st': Store, root: System, p: Path, c: string, q: Path, d: string)
    requires Frame(st, st', p, c) && Inv(st, root) && Inv(st', root)
    requires In(root, q) && Good(st, root, q, d) && !Under(p, c, (q, d))
    ensures Good(st', root, q, d)
  {
    FrameKeepsAnswers(st, st', p, c);
    if (q, d) in st.concepts {
      assert !MayChange(st, p, c, st.concepts[(q, d)]);
    }
    GoodStays(st, st', root, q, d);
  }

  // ----- The array being assembled -----

  /** The array that the lookup of `c` at `p` is assembling: the one in its map, or a new one. */
  ghost predicate Assembling(st: Store, p: Path, c: string, links: nat) {
    && links < |st.arrays| && (p, c) !in st.viewed
    && (forall k | k in st.viewed :: st.viewed[k] != links)
    && (forall k | k in st.concepts && st.concepts[k] == links :: k == (p, c))
    && ((p, c) in st.concepts ==> st.concepts[(p, c)] == links)
  }

  function Append(st: Store, links: nat, more: seq<string>): Store
    requires links < |st.arrays|
  {
    st.(arrays := st.arrays[links := st.arrays[links] + more])
  }

  lemma AppendOne(st: Store, links: nat, more: seq<string>, i: nat)
    requires links < |st.arrays| && i < |more|
    ensures Append(Append(st, links, more[..i]), links, [more[i]]) == Append(st, links, more[..i + 1])
  {
    assert more[..i + 1] == more[..i] + [more[i]];
    assert st.arrays[links] + more[..i] + [more[i]] == st.arrays[links] + more[..i + 1];
  }

  lemma AppendNothing(st: Store, links: nat)
    requires links < |st.arrays|
    ensures Append(st, links, []) == st
  {
    assert st.arrays[links] + [] == st.arrays[links];
  }

  lemma AppendKeeps(st: Store, root: System, p: Path, c: string, links: nat, more: seq<string>)
    requires Inv(st, root) && Assembling(st, p, c, links)
    ensures Inv(Append(st, links, more), root) && AnswersKept(st, Append(st, links, more))
    ensures Assembling(Append(st, links, more), p, c, links)
  {
  }

  lemma AppendKeepsGood(st: Store, root: System, p: Path, c: string, links: nat, more: seq<string>, q: Path, d: string)
    requires Inv(st, root) && Assembling(st, p, c, links) && In(root, q) && Good(st, root, q, d) && (q, d) != (p, c)
    ensures Good(Append(st, links, more), root, q, d)
  {
    AppendKeeps(st, root, p, c, links, more);
    GoodStays(st, Append(st, links, more), root, q, d);
  }

  /** The array being assembled is one the lookup may change. */
  lemma AppendFrame(st0: Store, st: Store, p: Path, c: string, links: nat, more: seq<string>)
    requires Frame(st0, st, p, c) && Assembling(st, p, c, links)
    requires (p, c) in st0.concepts || links >= |st0.arrays|
    ensures Frame(st0, Append(st, links, more), p, c)
  {
    if (p, c) in st0.concepts && links < |st0.arrays| {
      assert Under(p, c, (p, c));
      assert MayChange(st0, p, c, links);
    }
  }

  /** A lookup further down does not touch the array being assembled. */
  lemma AssemblingStays(st: Store, st': Store, p: Path, k: nat, c: string, links: nat)
    requires Frame(st, st', p + [k], c) && Assembling(st, p, c, links) && Unshared(st)
    ensures Assembling(st', p, c, links) && st'.arrays[links] == st.arrays[links]
  {
    assert !Under(p + [k], c, (p, c));
    assert !MayChange(st, p + [k], c, links);
  }

  /** A lookup at one subsystem leaves the concept good at the others and below them. */
  lemma {:induction false} SiblingsStayGood(before: Store, asked: Store, root: System, p: Path, k: nat, c: string)
    requires Inv(before, root) && GoodBelow(before, root, p, c) && LookedUp(before, asked, root, p + [k], c)
    ensures GoodBelow(asked, root, p, c) && AnswersKept(before, asked)
  {
    FrameKeepsAnswers(before, asked, p + [k], c);
    forall q | In(root, q) && p < q ensures Good(asked, root, q, c) {
      if !(p + [k] <= q) {
        FrameKeepsGood(before, asked, root, p + [k], c, q, c);
      }
    }
  }

  /** The subsystem's answer is appended to the array being assembled, and everything else stays. */
  lemma {:induction false} AnswerMerged(start: Store, before: Store, asked: Store, root: System, p: Path, k: nat,
                                        c: string, links: nat, more: seq<string>)
    requires Frame(start, before, p, c) && ((p, c) in start.concepts || links >= |start.arrays|)
    requires Frame(before, asked, p + [k], c) && AnswersKept(before, asked)
    requires Inv(asked, root) && Assembling(asked, p, c, links) && GoodBelow(asked, root, p, c)
    requires Settled(asked, root, p + [k], c) && more == Reply(asked, root, p + [k], c)
    ensures var st := Append(asked, links, more);
      && Inv(st, root) && Assembling(st, p, c, links) && Settled(st, root, p + [k], c)
      && st.arrays[links] == asked.arrays[links] + Reply(st, root, p + [k], c)
      && AnswersKept(before, st) && Frame(start, st, p, c) && GoodBelow(st, root, p, c)
  {
    var st := Append(asked, links, more);
    AppendKeeps(asked, root, p, c, links, more);
    ReplyStays(asked, st, root, p + [k], c);
    forall q | In(root, q) && p < q ensures Good(st, root, q, c) {
      AppendKeepsGood(asked, root, p, c, links, more, q, c);
    }
    FrameThen(start, before, asked, p, k, c);
    AppendFrame(start, asked, p, c, links, more);
  }

  /** The subsystems that answered so far, and those that did not. */
  ghost predicate Collected(s: System, order: seq<nat>, remaining: set<nat>) {
    && (forall i, j | 0 <= i < j < |order| :: order[i] != order[j])
    && (forall i | 0 <= i < |order| :: order[i] < |s.subs| && s.subs[order[i]].data.present && order[i] !in remaining)
    && (forall k | k in remaining :: k < |s.subs| && s.subs[k].data.present)
    && (forall k | 0 <= k < |s.subs| && s.subs[k].data.present :: k in remaining || k in order)
  }

  lemma CollectedGrows(s: System, order: seq<nat>, remaining: set<nat>, k: nat)
    requires Collected(s, order, remaining) && k in remaining
    ensures Collected(s, order + [k], remaining - {k})
  {
    forall x | 0 <= x < |s.subs| && s.subs[x].data.present ensures x in remaining - {k} || x in order + [k] {
      if x == k {
        assert (order + [k])[|order|] == x;
      }
    }
  }

  lemma GatherGrows(st: Store, st': Store, root: System, p: Path, order: seq<nat>, k: nat, c: string, own: seq<string>)
    requires AnswersKept(st, st') && Inv(st, root) && LeavesUnviewed(st', root)
    requires AllSettled(st, root, p, order, c) && Settled(st', root, p + [k], c)
    ensures AllSettled(st', root, p, order + [k], c)
    ensures own + Gather(st', root, p, order + [k], c)
         == own + Gather(st, root, p, order, c) + Reply(st', root, p + [k], c)
  {
    GatherStays(st, st', root, p, order, c);
    assert (order + [k])[..|order|] == order;
  }

  /** Where a lookup stands: what it started from, what it has assembled and who is still to answer. */
  ghost predicate Underway(st0: Store, st: Store, root: System, p: Path, c: string, links: nat,
                           order: seq<nat>, remaining: set<nat>)
    requires In(root, p)
  {
    && Inv(st, root) && Assembling(st, p, c, links) && GoodBelow(st, root, p, c)
    && Frame(st0, st, p, c) && ((p, c) in st0.concepts || links >= |st0.arrays|)
    && Collected(At(root, p), order, remaining) && AllSettled(st, root, p, order, c)
    && st.arrays[links] == Own(At(root, p), c) + Gather(st, root, p, order, c)
  }

  lemma UnderwayStep(st0: Store, st: Store, st': Store, root: System, p: Path, c: string, links: nat,
                     order: seq<nat>, remaining: set<nat>, k: nat)
    requires In(root, p) && Underway(st0, st, root, p, c, links, order, remaining) && k in remaining
    requires Inv(st', root) && Assembling(st', p, c, links) && GoodBelow(st', root, p, c) && Frame(st0, st', p, c)
    requires AnswersKept(st, st') && Settled(st', root, p + [k], c)
    requires st'.arrays[links] == st.arrays[links] + Reply(st', root, p + [k], c)
    ensures Underway(st0, st', root, p, c, links, order + [k], remaining - {k})
  {
    assert Collected(At(root, p), order + [k], remaining - {k}) by {
      CollectedGrows(At(root, p), order, remaining, k);
    }
    assert AllSettled(st', root, p, order + [k], c)
        && st'.arrays[links] == Own(At(root, p), c) + Gather(st', root, p, order + [k], c) by {
      GatherGrows(st, st', root, p, order, k, c, Own(At(root, p), c));
    }
  }

  function Existing(s: System): set<nat> {
    set k: nat | k < |s.subs| && s.subs[k].data.present
  }

  lemma MapArrayStarts(st: Store, root: System, p: Path, c: string)
    requires In(root, p) && Inv(st, root) && (p, c) in st.concepts && (p, c) !in st.viewed
    requires Good(st, root, p, c) && GoodBelow(st, root, p, c)
    ensures Underway(st, st, root, p, c, st.concepts[(p, c)], [], Existing(At(root, p)))
  {
    assert Own(At(root, p), c) + [] == Own(At(root, p), c);
  }

  lemma NewArrayKeeps(st: Store, root: System, p: Path, c: string)
    requires Inv(st, root) && (p, c) !in st.concepts && (p, c) !in st.viewed
    ensures var st' := st.(arrays := st.arrays + [[]]);
      Inv(st', root) && AnswersKept(st, st') && Assembling(st', p, c, |st.arrays|) && Frame(st, st', p, c)
  {
  }

  lemma NewArrayStarts(st: Store, root: System, p: Path, c: string)
    requires In(root, p) && Inv(st, root) && (p, c) !in st.concepts && (p, c) !in st.viewed
    requires Good(st, root, p, c) && GoodBelow(st, root, p, c)
    ensures Underway(st, st.(arrays := st.arrays + [[]]), root, p, c, |st.arrays|, [], Existing(At(root, p)))
  {
    var st' := st.(arrays := st.arrays + [[]]);
    NewArrayKeeps(st, root, p, c);
    NewArrayBelow(st, root, p, c);
    assert st'.arrays[|st.arrays|] == [];
    assert Own(At(root, p), c) == [];
  }

  lemma NewArrayBelow(st: Store, root: System, p: Path, c: string)
    requires Inv(st, root) && (p, c) !in st.concepts && (p, c) !in st.viewed && GoodBelow(st, root, p, c)
    ensures GoodBelow(st.(arrays := st.arrays + [[]]), root, p, c)
  {
    var st' := st.(arrays := st.arrays + [[]]);
    NewArrayKeeps(st, root, p, c);
    forall q | In(root, q) && p < q ensures Good(st', root, q, c) {
      GoodStays(st, st', root, q, c);
    }
  }

  /** Without existing subsystems the array holds the system's own links, and nothing is remembered. */
  lemma LeafReplies(st0: Store, st: Store, root: System, p: Path, c: string, links: nat)
    requires In(root, p) && Good(st0, root, p, c) && (p, c) !in st0.viewed && Inv(st0, root)
    requires Underway(st0, st, root, p, c, links, [], {})
    ensures LookedUp(st0, st, root, p, c) && st.arrays[links] == Reply(st, root, p, c)
  {
    assert st.arrays[links] == Own(At(root, p), c);
    FromHereAndBelow(st, root, p, c);
    assert Leaf(At(root, p));
  }

  lemma RememberedReplies(st: Store, root: System, p: Path, c: string)
    requires In(root, p) && Inv(st, root) && GoodFrom(st, root, p, c) && (p, c) in st.viewed
    ensures LookedUp(st, st, root, p, c) && st.viewed[(p, c)] < |st.arrays|
    ensures st.arrays[st.viewed[(p, c)]] == Reply(st, root, p, c)
  {
  }

  function Remember(st: Store, p: Path, c: string, links: nat): Store {
    st.(viewed := st.viewed[(p, c) := links])
  }

  lemma RememberUnshared(st: Store, p: Path, c: string, links: nat)
    requires Unshared(st) && Assembling(st, p, c, links)
    ensures Unshared(Remember(st, p, c, links))
  {
    var st' := Remember(st, p, c, links);
    forall k, l | k in st'.viewed && l in st'.viewed && st'.viewed[k] == st'.viewed[l] ensures k == l {
      assert k != (p, c) ==> st'.viewed[k] != links;
      assert l != (p, c) ==> st'.viewed[l] != links;
    }
  }

  lemma RememberInv(st: Store, root: System, p: Path, c: string, links: nat)
    requires In(root, p) && !Leaf(At(root, p)) && Inv(st, root) && Assembling(st, p, c, links)
    ensures Inv(Remember(st, p, c, links), root) && AnswersKept(st, Remember(st, p, c, links))
  {
    var st' := Remember(st, p, c, links);
    RememberUnshared(st, p, c, links);
    forall q, d | (q, d) in st'.viewed ensures In(root, q) && !Leaf(At(root, q)) {
      if (q, d) != (p, c) {
        assert (q, d) in st.viewed;
      }
    }
  }

  lemma RememberFrame(st0: Store, st: Store, p: Path, c: string, links: nat)
    requires Frame(st0, st, p, c) && Assembling(st, p, c, links)
    requires (p, c) in st0.concepts || links >= |st0.arrays|
    ensures Frame(st0, Remember(st, p, c, links), p, c)
  {
    assert Under(p, c, (p, c));
  }

  /** The assembled array becomes the remembered answer. */
  lemma RememberGood(st: Store, root: System, p: Path, c: string, links: nat, order: seq<nat>)
    requires In(root, p) && !Leaf(At(root, p)) && Inv(st, root) && Assembling(st, p, c, links)
    requires (p, c) in st.concepts <==> c in At(root, p).data.file
    requires IsOrder(At(root, p), order) && AllSettled(st, root, p, order, c)
    requires st.arrays[links] == Own(At(root, p), c) + Gather(st, root, p, order, c)
    ensures Good(Remember(st, p, c, links), root, p, c)
    ensures Reply(Remember(st, p, c, links), root, p, c) == st.arrays[links]
  {
    var st' := Remember(st, p, c, links);
    RememberInv(st, root, p, c, links);
    GatherStays(st, st', root, p, order, c);
    assert Composed(st', root, p, c, order);
  }

  lemma RememberOthers(st: Store, root: System, p: Path, c: string, links: nat, q: Path)
    requires In(root, p) && !Leaf(At(root, p)) && Inv(st, root) && Assembling(st, p, c, links)
    requires In(root, q) && q != p && Good(st, root, q, c)
    ensures Good(Remember(st, p, c, links), root, q, c)
  {
    RememberInv(st, root, p, c, links);
    GoodStays(st, Remember(st, p, c, links), root, q, c);
  }

  lemma RememberAll(st0: Store, st: Store, root: System, p: Path, c: string, links: nat, order: seq<nat>)
    requires In(root, p) && !Leaf(At(root, p)) && Underway(st0, st, root, p, c, links, order, {})
    requires (p, c) in st.concepts <==> c in At(root, p).data.file
    ensures LookedUp(st0, Remember(st, p, c, links), root, p, c)
    ensures Reply(Remember(st, p, c, links), root, p, c) == st.arrays[links]
  {
    RememberInv(st, root, p, c, links);
    RememberFrame(st0, st, p, c, links);
    RememberGood(st, root, p, c, links, order);
    RememberBelow(st, root, p, c, links);
    FromHereAndBelow(Remember(st, p, c, links), root, p, c);
  }

  lemma RememberBelow(st: Store, root: System, p: Path, c: string, links: nat)
    requires In(root, p) && !Leaf(At(root, p)) && Inv(st, root) && Assembling(st, p, c, links)
    requires GoodBelow(st, root, p, c)
    ensures GoodBelow(Remember(st, p, c, links), root, p, c)
  {
    forall q | In(root, q) && p < q ensures Good(Remember(st, p, c, links), root, q, c) {
      RememberOthers(st, root, p, c, links, q);
    }
  }

  lemma FromHereAndBelow(st: Store, root: System, p: Path, c: string)
    requires In(root, p)
    ensures GoodFrom(st, root, p, c) <==> Good(st, root, p, c) && GoodBelow(st, root, p, c)
  {
    if Good(st, root, p, c) && GoodBelow(st, root, p, c) {
      forall q | In(root, q) && p <= q ensures Good(st, root, q, c) {
        assert q == p || p < q;
      }
    }
  }

  // ----- Any number of lookups -----

  ghost predicate AllGood(st: Store, root: System) {
    Inv(st, root) && forall p, c {:trigger Good(st, root, p, c)} | In(root, p) :: Good(st, root, p, c)
  }

  /** `st'` is reached by these lookups, one after the other. */
  ghost predicate Run(st: Store, lookups: seq<Key>, st': Store, root: System)
    decreases |lookups|
  {
    if lookups == [] then st == st'
    else exists mid :: LookedUp(st, mid, root, lookups[0].0, lookups[0].1) && Run(mid, lookups[1..], st', root)
  }

  lemma LookupKeepsGood(st: Store, st': Store, root: System, p: Path, c: string)
    requires AllGood(st, root) && LookedUp(st, st', root, p, c)
    ensures AllGood(st', root) && AnswersKept(st, st')
  {
    FrameKeepsAnswers(st, st', p, c);
    forall q, d | In(root, q) ensures Good(st', root, q, d) {
      if !Under(p, c, (q, d)) {
        FrameKeepsGood(st, st', root, p, c, q, d);
      }
    }
  }

  /** Whatever is looked up anywhere in the tree, an answer once given stays the same. It is the
      system's own links followed by the answers of its existing subsystems, each once. */
  lemma {:induction false} AnswersStay(st: Store, lookups: seq<Key>, st': Store, root: System, p: Path, c: string)
    requires AllGood(st, root) && Run(st, lookups, st', root) && Settled(st, root, p, c)
    ensures AllGood(st', root) && Settled(st', root, p, c)
    ensures Reply(st', root, p, c) == Reply(st, root, p, c)
    ensures !Leaf(At(root, p)) ==> exists order :: Composed(st', root, p, c, order)
    decreases |lookups|
  {
    if lookups != [] {
      var mid :| LookedUp(st, mid, root, lookups[0].0, lookups[0].1) && Run(mid, lookups[1..], st', root);
      LookupKeepsGood(st, mid, root, lookups[0].0, lookups[0].1);
      ReplyStays(st, mid, root, p, c);
      AnswersStay(mid, lookups[1..], st', root, p, c);
    } else {
      assert Good(st', root, p, c);
    }
  }

  // ----- The code -----

  class Concepts {
    const root: System
    var arrays: seq<seq<string>>
    var concepts: map<Key, nat>
    var viewed: map<Key, nat>

    function Abs(): Store
      reads this
    {
      Store(arrays, concepts, viewed)
    }

    /** The concept files are loaded: each system has an array of its own for each of its concepts. */
    constructor (root: System, arrays: seq<seq<string>>, concepts: map<Key, nat>)
      requires forall k | k in concepts :: concepts[k] < |arrays|
      requires forall k, l | k in concepts && l in concepts && concepts[k] == concepts[l] :: k == l
      requires forall p, c | In(root, p) :: (p, c) in concepts <==> c in At(root, p).data.file
      requires forall p, c | In(root, p) && (p, c) in concepts :: arrays[concepts[(p, c)]] == At(root, p).data.file[c]
      ensures this.root == root && Inv(Abs(), root) && viewed == map[]
      ensures forall p, c | In(root, p) :: Good(Abs(), root, p, c)
    {
      this.root, this.arrays, this.concepts := root, arrays, concepts;
      viewed := map[];
    }

    /** Appends the second array to the first. */
    method MergeConceptLinks(links1: nat, links2: nat)
      requires links1 < |arrays| && links2 < |arrays| && links1 != links2
      modifies this`arrays
      ensures Abs() == Append(old(Abs()), links1, old(arrays[links2]))
    {
      ghost var start := Abs();
      var more := arrays[links2];
      AppendNothing(start, links1);
      for i := 0 to |more|
        invariant Abs() == Append(start, links1, more[..i])
        invariant arrays[links2] == more
      {
        AppendOne(start, links1, more, i);
        arrays := arrays[links1 := arrays[links1] + [arrays[links2][i]]];
      }
      assert more[..|more|] == more;
    }

    /** The links of a concept: remembered, or the system's own followed by those of each existing
        subsystem, which answer in any order. */
    method GetConceptLinksLocal(p: Path, c: string) returns (links: nat)
      requires In(root, p) && Inv(Abs(), root) && GoodFrom(Abs(), root, p, c)
      modifies this`arrays, this`viewed
      ensures LookedUp(old(Abs()), Abs(), root, p, c)
      ensures links < |arrays| && arrays[links] == Reply(Abs(), root, p, c)
      ensures links >= |old(arrays)| || ((p, c) in viewed && links == viewed[(p, c)])
           || ((p, c) in concepts && links == concepts[(p, c)])
      decreases At(root, p), 2
    {
      assert Good(Abs(), root, p, c);
      if (p, c) in viewed {
        RememberedReplies(Abs(), root, p, c);
        return viewed[(p, c)];
      }
      ghost var start := Abs();
      links := StartArray(p, c);
      var remaining := Existing(At(root, p));
      if remaining == {} {
        LeafReplies(start, Abs(), root, p, c, links);
        return;
      }
      ghost var order := AskAll(p, c, links, remaining, start);
      assert !Leaf(At(root, p));
      RememberAll(start, Abs(), root, p, c, links, order);
      viewed := viewed[(p, c) := links];
    }

    /** The array in the concept map, or a new one when the map has none. */
    method StartArray(p: Path, c: string) returns (links: nat)
      requires In(root, p) && Inv(Abs(), root) && GoodFrom(Abs(), root, p, c) && (p, c) !in viewed
      modifies this`arrays
      ensures Underway(old(Abs()), Abs(), root, p, c, links, [], Existing(At(root, p)))
      ensures links == if (p, c) in concepts then concepts[(p, c)] else |old(arrays)|
    {
      FromHereAndBelow(Abs(), root, p, c);
      if (p, c) in concepts {
        links := concepts[(p, c)];
        MapArrayStarts(Abs(), root, p, c);
      } else {
        links := |arrays|;
        NewArrayStarts(Abs(), root, p, c);
        arrays := arrays + [[]];
      }
    }

    /** The existing subsystems answer in any order. */
    method AskAll(p: Path, c: string, links: nat, all: set<nat>, ghost start: Store) returns (ghost order: seq<nat>)
      requires In(root, p) && Underway(start, Abs(), root, p, c, links, [], all)
      modifies this`arrays, this`viewed
      ensures Underway(start, Abs(), root, p, c, links, order, {})
      decreases At(root, p), 1
    {
      order := [];
      var remaining := all;
      while remaining != {}
        invariant Underway(start, Abs(), root, p, c, links, order, remaining)
        decreases remaining
      {
        var k :| k in remaining;
        ghost var before := Abs();
        AskAndMerge(p, k, c, links, start);
        UnderwayStep(start, before, Abs(), root, p, c, links, order, remaining, k);
        order := order + [k];
        remaining := remaining - {k};
      }
    }

    /** One subsystem answers, and its links are appended to the array being assembled. */
    method AskAndMerge(p: Path, k: nat, c: string, links: nat, ghost start: Store)
      requires Frame(start, Abs(), p, c) && ((p, c) in start.concepts || links >= |start.arrays|)
      requires In(root, p) && k < |At(root, p).subs| && Inv(Abs(), root) && Assembling(Abs(), p, c, links)
      requires GoodBelow(Abs(), root, p, c)
      modifies this`arrays, this`viewed
      ensures Inv(Abs(), root) && Assembling(Abs(), p, c, links)
      ensures Settled(Abs(), root, p + [k], c)
      ensures arrays[links] == old(arrays[links]) + Reply(Abs(), root, p + [k], c)
      ensures AnswersKept(old(Abs()), Abs()) && Frame(start, Abs(), p, c)
      ensures GoodBelow(Abs(), root, p, c)
      decreases At(root, p), 0
    {
      AtChild(root, p, k);
      ghost var before := Abs();
      var answer := GetConceptLinksLocal(p + [k], c);
      ghost var asked := Abs();
      AssemblingStays(before, asked, p, k, c, links);
      SiblingsStayGood(before, asked, root, p, k, c);
      ghost var more := arrays[answer];
      MergeConceptLinks(links, answer);
      AnswerMerged(start, before, asked, root, p, k, c, links, more);
    }
  }
}
