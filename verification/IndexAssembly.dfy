/** Assembling the index of a tree of help systems: each system's first document, its chunks and the
    indexes of its subsystems arrive in any order and are merged as they come. */
module IndexAssembly {
  import opened Options
  import opened IndexMerge
  import opened SystemTree

  /** What is of interest about a help system: its path, whether it exists, and the entries of its first index
      document and of each chunk. */
  datatype Info = Info(path: string, present: bool, first: seq<Entry>, chunks: seq<seq<Entry>>)

  type System = Tree<Info>

  /** How far a system's index is: not asked for because the system does not exist, waiting for the
      first document, for chunks, for subsystems, or complete. */
  datatype Task =
    | Skipped
    | AwaitFirst
    | AwaitChunks(doc: seq<Entry>, completed: nat, arrived: set<nat>)
    | AwaitSubs(doc: seq<Entry>, completed: nat, tasks: seq<Task>)
    | Complete(doc: seq<Entry>)

  /** A document that arrives for the system reached by a path of subsystem numbers. */
  datatype Arrival = FirstDoc | ChunkDoc(i: nat)
  datatype Event = Event(at: seq<nat>, what: Arrival)

  // ----- The code -----

  predicate Finished(t: Task) {
    t.Skipped? || t.Complete?
  }

  /** The number of subsystems that exist. */
  function Existing(subs: seq<System>): nat {
    if subs == [] then 0 else (if subs[0].data.present then 1 else 0) + Existing(subs[1..])
  }

  function StartAll(subs: seq<System>): (r: seq<Task>)
    ensures |r| == |subs|
    ensures forall i | 0 <= i < |subs| :: r[i] == if subs[i].data.present then AwaitFirst else Skipped
  {
    seq(|subs|, i requires 0 <= i < |subs| => if subs[i].data.present then AwaitFirst else Skipped)
  }

  /** All chunks are merged: links become absolute and the subsystems are asked. */
  function ChunksMerged(s: System, doc: seq<Entry>): Task {
    var absolute := AllAbsolute(s.data.path, doc);
    if Existing(s.subs) == 0 then Complete(absolute) else AwaitSubs(absolute, 0, StartAll(s.subs))
  }

  /** What may arrive: documents that were asked for and did not arrive yet. */
  predicate Expected(s: System, t: Task, e: Event)
    decreases s
  {
    if e.at == [] then
      match e.what
      case FirstDoc => t.AwaitFirst?
      case ChunkDoc(i) => t.AwaitChunks? && i < |s.data.chunks| && i !in t.arrived
    else
      t.AwaitSubs? && |t.tasks| == |s.subs| && e.at[0] < |s.subs|
      && Expected(s.subs[e.at[0]], t.tasks[e.at[0]], Event(e.at[1..], e.what))
  }

  /** The callbacks that run when a document arrives. */
  function Arrive(s: System, t: Task, e: Event): Task
    requires Expected(s, t, e)
    decreases s
  {
    if e.at == [] then
      match e.what
      case FirstDoc =>
        if s.data.chunks == [] then ChunksMerged(s, s.data.first) else AwaitChunks(s.data.first, 0, {})
      case ChunkDoc(i) =>
        var doc := Merge(t.doc, s.data.chunks[i]);
        if t.completed + 1 == |s.data.chunks| then ChunksMerged(s, doc)
        else AwaitChunks(doc, t.completed + 1, t.arrived + {i})
    else
      var k := e.at[0];
      var sub := Arrive(s.subs[k], t.tasks[k], Event(e.at[1..], e.what));
      SubAnswers(s, t, k, sub)
  }

  /** A subsystem's task has moved on; when it is complete, its index is merged and counted. */
  function SubAnswers(s: System, t: Task, k: nat, sub: Task): Task
    requires t.AwaitSubs? && k < |t.tasks|
  {
    var tasks := t.tasks[k := sub];
    if !sub.Complete? then AwaitSubs(t.doc, t.completed, tasks)
    else
      var doc := Merge(t.doc, sub.doc);
      if t.completed + 1 == Existing(s.subs) then Complete(doc) else AwaitSubs(doc, t.completed + 1, tasks)
  }

  ghost predicate Run(s: System, t: Task, events: seq<Event>, u: Task)
    decreases |events|
  {
    if events == [] then t == u
    else Expected(s, t, events[0]) && Run(s, Arrive(s, t, events[0]), events[1..], u)
  }

  // ----- What is still to come -----

  /** What the chunks that did not arrive say, among the first `n`. */
  function ChunksLeft(s: System, arrived: set<nat>, n: nat): Meaning
    requires n <= |s.data.chunks|
  {
    if n == 0 then NOTHING else Plus(ChunkLeft(s, arrived, n - 1), ChunksLeft(s, arrived, n - 1))
  }

  function ChunkLeft(s: System, arrived: set<nat>, i: nat): Meaning
    requires i < |s.data.chunks|
  {
    if i in arrived then NOTHING else MeaningOf(Some(s.data.path), [], s.data.chunks[i])
  }

  /** What the whole index of a system is to say: its own documents with links made absolute, and the
      whole indexes of the subsystems that exist. */
  function Total(s: System): Meaning
    decreases s, 0
  {
    Plus(Plus(MeaningOf(Some(s.data.path), [], s.data.first), ChunksLeft(s, {}, |s.data.chunks|)), SubsTotal(s.subs))
  }

  function SubsTotal(subs: seq<System>): Meaning
    decreases subs
  {
    if subs == [] then NOTHING
    else Plus(if subs[0].data.present then Total(subs[0]) else NOTHING, SubsTotal(subs[1..]))
  }

  /** What a task's document says already and what is to come. */
  function Outcome(s: System, t: Task): Meaning
    requires Proper(s, t) && !t.Skipped?
    decreases s, 0
  {
    match t
    case AwaitFirst => Total(s)
    case AwaitChunks(doc, _, arrived) =>
      Plus(Plus(MeaningOf(Some(s.data.path), [], doc), ChunksLeft(s, arrived, |s.data.chunks|)), SubsTotal(s.subs))
    case AwaitSubs(doc, _, tasks) => Plus(MeaningOf(None, [], doc), Pending(s.subs, tasks))
    case Complete(doc) => MeaningOf(None, [], doc)
  }

  /** What the subsystems that have not answered are to say. */
  function Pending(subs: seq<System>, tasks: seq<Task>): Meaning
    requires AllProper(subs, tasks)
    decreases subs
  {
    if subs == [] then NOTHING
    else Plus(if Finished(tasks[0]) then NOTHING else Outcome(subs[0], tasks[0]), Pending(subs[1..], tasks[1..]))
  }

  // ----- What every state keeps -----

  /** The number of subsystems that answered. */
  function Answered(tasks: seq<Task>): nat {
    if tasks == [] then 0 else (if tasks[0].Complete? then 1 else 0) + Answered(tasks[1..])
  }

  /** The counters count what arrived, and a task waits exactly as long as something is missing. */
  predicate Proper(s: System, t: Task)
    decreases s, 0
  {
    match t
    case AwaitChunks(doc, completed, arrived) =>
      completed == |arrived| < |s.data.chunks| && forall i | i in arrived :: i < |s.data.chunks|
    case AwaitSubs(doc, completed, tasks) =>
      AllProper(s.subs, tasks) && completed == Answered(tasks) < Existing(s.subs)
    case _ => true
  }

  predicate AllProper(subs: seq<System>, tasks: seq<Task>)
    decreases subs
  {
    |tasks| == |subs| &&
    (subs == [] ||
     (Proper(subs[0], tasks[0]) && (tasks[0].Skipped? <==> !subs[0].data.present) && AllProper(subs[1..], tasks[1..])))
  }

  // ----- Chunks -----

  /** The arrival of chunk `i` matters to chunk `i` only. */
  lemma ChunkOnly(s: System, arrived: set<nat>, i: nat, j: nat)
    requires i < |s.data.chunks| && j < |s.data.chunks|
    ensures ChunkLeft(s, arrived + {i}, j) == if j == i then NOTHING else ChunkLeft(s, arrived, j)
  {
  }

  lemma {:induction false} ChunkLeaves(s: System, arrived: set<nat>, i: nat, n: nat)
    requires n <= |s.data.chunks| && i < |s.data.chunks| && i !in arrived
    ensures i >= n ==> ChunksLeft(s, arrived, n) == ChunksLeft(s, arrived + {i}, n)
    ensures i < n ==> ChunksLeft(s, arrived, n) == Plus(ChunkLeft(s, arrived, i), ChunksLeft(s, arrived + {i}, n))
  {
    if n > 0 {
      ChunkLeaves(s, arrived, i, n - 1);
      ChunkOnly(s, arrived, i, n - 1);
      var rest := ChunksLeft(s, arrived + {i}, n - 1);
      if i == n - 1 {
        PlusNothing(rest);
      } else if i < n - 1 {
        PlusSwap(ChunkLeft(s, arrived, n - 1), ChunkLeft(s, arrived, i), rest);
      }
    }
  }

  lemma {:induction false} AllChunksArrived(s: System, arrived: set<nat>, n: nat)
    requires n <= |s.data.chunks| && forall i | 0 <= i < n :: i in arrived
    ensures ChunksLeft(s, arrived, n) == NOTHING
  {
    if n > 0 {
      AllChunksArrived(s, arrived, n - 1);
    }
  }

  /** A set of `n` numbers below `n` holds them all. */
  lemma {:induction false} Pigeonhole(a: set<nat>, n: nat)
    requires forall i | i in a :: i < n
    ensures |a| <= n
    ensures |a| == n ==> forall i | 0 <= i < n :: i in a
  {
    if n > 0 {
      var b := a - {n - 1};
      Pigeonhole(b, n - 1);
      assert n - 1 in a ==> |b| == |a| - 1;
      assert n - 1 !in a ==> b == a;
    } else {
      assert a == {};
    }
  }

  // ----- Subsystems -----

  lemma {:induction false} StartedSubs(subs: seq<System>)
    ensures AllProper(subs, StartAll(subs)) && Answered(StartAll(subs)) == 0
    ensures Pending(subs, StartAll(subs)) == SubsTotal(subs)
    ensures Existing(subs) == 0 ==> SubsTotal(subs) == NOTHING
  {
    if subs != [] {
      assert StartAll(subs)[1..] == StartAll(subs[1..]);
      StartedSubs(subs[1..]);
    }
  }

  lemma {:induction false} AllAnswered(subs: seq<System>, tasks: seq<Task>)
    requires AllProper(subs, tasks)
    ensures Answered(tasks) <= Existing(subs)
    ensures Answered(tasks) == Existing(subs) ==> Pending(subs, tasks) == NOTHING
  {
    if subs != [] {
      AllAnswered(subs[1..], tasks[1..]);
    }
  }

  /** One subsystem's task moves on: the counters stay right. */
  lemma {:induction false} SubMovesProper(subs: seq<System>, tasks: seq<Task>, k: nat, t: Task)
    requires AllProper(subs, tasks) && k < |subs| && !Finished(tasks[k]) && Proper(subs[k], t) && !t.Skipped?
    ensures AllProper(subs, tasks[k := t])
    ensures Answered(tasks[k := t]) == Answered(tasks) + if t.Complete? then 1 else 0
    decreases k
  {
    if k == 0 {
      assert tasks[k := t][1..] == tasks[1..];
    } else {
      assert tasks[k := t][1..] == tasks[1..][k - 1 := t];
      SubMovesProper(subs[1..], tasks[1..], k - 1, t);
    }
  }

  /** What it is to say moves into its answer, if it has one now. */
  lemma {:induction false} SubMoves(subs: seq<System>, tasks: seq<Task>, k: nat, t: Task)
    requires AllProper(subs, tasks) && k < |subs| && !Finished(tasks[k]) && AllProper(subs, tasks[k := t])
    requires Proper(subs[k], tasks[k]) && Proper(subs[k], t) && !t.Skipped?
    requires Outcome(subs[k], t) == Outcome(subs[k], tasks[k])
    ensures !t.Complete? ==> Pending(subs, tasks) == Pending(subs, tasks[k := t])
    ensures t.Complete? ==> Pending(subs, tasks) == Plus(MeaningOf(None, [], t.doc), Pending(subs, tasks[k := t]))
    decreases k
  {
    if k == 0 {
      assert tasks[k := t][1..] == tasks[1..];
      PlusNothing(Pending(subs[1..], tasks[1..]));
    } else {
      assert tasks[k := t][1..] == tasks[1..][k - 1 := t];
      SubMoves(subs[1..], tasks[1..], k - 1, t);
      if t.Complete? {
        PlusSwap(if Finished(tasks[0]) then NOTHING else Outcome(subs[0], tasks[0]),
                 MeaningOf(None, [], t.doc), Pending(subs[1..], tasks[1..][k - 1 := t]));
      }
    }
  }

  lemma {:induction false} ProperAt(subs: seq<System>, tasks: seq<Task>, k: nat)
    requires AllProper(subs, tasks) && k < |subs|
    ensures Proper(subs[k], tasks[k]) && (tasks[k].Skipped? <==> !subs[k].data.present)
    decreases k
  {
    if k > 0 {
      ProperAt(subs[1..], tasks[1..], k - 1);
    }
  }

  // ----- Every arrival keeps what the index is to say -----

  lemma ChunksMergedKeeps(s: System, doc: seq<Entry>)
    ensures Proper(s, ChunksMerged(s, doc)) && !ChunksMerged(s, doc).Skipped?
    ensures Outcome(s, ChunksMerged(s, doc)) == Plus(MeaningOf(Some(s.data.path), [], doc), SubsTotal(s.subs))
  {
    AbsoluteMeaning(s.data.path, [], doc);
    StartedSubs(s.subs);
    PlusNothing(MeaningOf(Some(s.data.path), [], doc));
  }

  lemma FirstKeeps(s: System)
    ensures var u := Arrive(s, AwaitFirst, Event([], FirstDoc));
            Proper(s, u) && !u.Skipped? && Outcome(s, u) == Total(s)
  {
    if s.data.chunks == [] {
      ChunksMergedKeeps(s, s.data.first);
      PlusNothing(MeaningOf(Some(s.data.path), [], s.data.first));
    }
  }

  lemma ChunkKeeps(s: System, t: Task, i: nat)
    requires Proper(s, t) && Expected(s, t, Event([], ChunkDoc(i)))
    ensures var u := Arrive(s, t, Event([], ChunkDoc(i)));
            Proper(s, u) && !u.Skipped? && Outcome(s, u) == Outcome(s, t)
  {
    var n, doc, arrived := |s.data.chunks|, Merge(t.doc, s.data.chunks[i]), t.arrived + {i};
    var own, chunk, left :=
      MeaningOf(Some(s.data.path), [], t.doc), ChunkLeft(s, t.arrived, i), ChunksLeft(s, arrived, n);
    ChunkLeaves(s, t.arrived, i, n);
    MergeMeaning(Some(s.data.path), [], t.doc, s.data.chunks[i]);
    PlusLaws(own, chunk, left);
    assert Outcome(s, t) == Plus(Plus(MeaningOf(Some(s.data.path), [], doc), left), SubsTotal(s.subs));
    Pigeonhole(arrived, n);
    if t.completed + 1 == n {
      AllChunksArrived(s, arrived, n);
      ChunksMergedKeeps(s, doc);
      PlusNothing(MeaningOf(Some(s.data.path), [], doc));
    }
  }

  /** An arriving document changes what is there and what is to come, but not the sum. */
  lemma {:induction false} ArriveKeeps(s: System, t: Task, e: Event)
    requires Proper(s, t) && Expected(s, t, e)
    ensures Proper(s, Arrive(s, t, e)) && !Arrive(s, t, e).Skipped?
    ensures Outcome(s, Arrive(s, t, e)) == Outcome(s, t)
    decreases s
  {
    if e.at == [] {
      match e.what
      case FirstDoc => FirstKeeps(s);
      case ChunkDoc(i) => ChunkKeeps(s, t, i);
    } else {
      var k := e.at[0];
      var below := Event(e.at[1..], e.what);
      ProperAt(s.subs, t.tasks, k);
      ArriveKeeps(s.subs[k], t.tasks[k], below);
      SubArrives(s, t, k, Arrive(s.subs[k], t.tasks[k], below));
    }
  }

  lemma SubArrives(s: System, t: Task, k: nat, sub: Task)
    requires Proper(s, t) && t.AwaitSubs? && k < |s.subs| == |t.tasks| && !Finished(t.tasks[k])
    requires Proper(s.subs[k], t.tasks[k]) && Proper(s.subs[k], sub) && !sub.Skipped?
    requires Outcome(s.subs[k], sub) == Outcome(s.subs[k], t.tasks[k])
    ensures var u := SubAnswers(s, t, k, sub);
            Proper(s, u) && !u.Skipped? && Outcome(s, u) == Outcome(s, t)
  {
    var tasks := t.tasks[k := sub];
    SubMovesProper(s.subs, t.tasks, k, sub);
    SubMoves(s.subs, t.tasks, k, sub);
    if sub.Complete? {
      SubCounted(s, t, tasks, sub.doc);
    } else {
      assert SubAnswers(s, t, k, sub) == AwaitSubs(t.doc, t.completed, tasks);
    }
  }

  /** A complete subsystem is merged and counted. */
  lemma SubCounted(s: System, t: Task, tasks: seq<Task>, doc: seq<Entry>)
    requires Proper(s, t) && t.AwaitSubs? && AllProper(s.subs, tasks) && Answered(tasks) == t.completed + 1
    requires Pending(s.subs, t.tasks) == Plus(MeaningOf(None, [], doc), Pending(s.subs, tasks))
    ensures var merged := Merge(t.doc, doc);
      var u := if t.completed + 1 == Existing(s.subs) then Complete(merged)
               else AwaitSubs(merged, t.completed + 1, tasks);
      Proper(s, u) && Outcome(s, u) == Outcome(s, t)
  {
    AllAnswered(s.subs, tasks);
    SubCompletes(s, t, tasks, doc);
  }

  lemma SubCompletes(s: System, t: Task, tasks: seq<Task>, doc: seq<Entry>)
    requires t.AwaitSubs? && AllProper(s.subs, t.tasks) && AllProper(s.subs, tasks)
    requires Pending(s.subs, t.tasks) == Plus(MeaningOf(None, [], doc), Pending(s.subs, tasks))
    ensures Plus(MeaningOf(None, [], Merge(t.doc, doc)), Pending(s.subs, tasks))
         == Plus(MeaningOf(None, [], t.doc), Pending(s.subs, t.tasks))
    ensures Pending(s.subs, tasks) == NOTHING ==>
      MeaningOf(None, [], Merge(t.doc, doc)) == Plus(MeaningOf(None, [], t.doc), Pending(s.subs, t.tasks))
  {
    MergeMeaning(None, [], t.doc, doc);
    PlusLaws(MeaningOf(None, [], t.doc), MeaningOf(None, [], doc), Pending(s.subs, tasks));
    PlusNothing(MeaningOf(None, [], Merge(t.doc, doc)));
  }

  lemma {:induction false} RunKeeps(s: System, t: Task, events: seq<Event>, u: Task)
    requires Proper(s, t) && !t.Skipped? && Run(s, t, events, u)
    ensures Proper(s, u) && !u.Skipped? && Outcome(s, u) == Outcome(s, t)
    decreases |events|
  {
    if events != [] {
      ArriveKeeps(s, t, events[0]);
      RunKeeps(s, Arrive(s, t, events[0]), events[1..], u);
    }
  }

  /** Whatever order the documents arrive in, a complete index says exactly what the documents of all
      existing systems say, each link made absolute once with the path of its own system. */
  lemma AssemblyComplete(s: System, events: seq<Event>, doc: seq<Entry>)
    requires Run(s, AwaitFirst, events, Complete(doc))
    ensures MeaningOf(None, [], doc) == Total(s)
  {
    RunKeeps(s, AwaitFirst, events, Complete(doc));
  }

  // ----- The links of a complete index, one by one -----

  /** A link as a document stores it, with the path of the document's system and the path of its entry. */
  datatype Stored = Stored(folder: string, at: Path, link: Link)

  function InFolder(folder: string, links: seq<(Path, Link)>): (r: seq<Stored>)
    ensures |r| == |links| && forall i | 0 <= i < |links| :: r[i] == Stored(folder, links[i].0, links[i].1)
  {
    seq(|links|, i requires 0 <= i < |links| => Stored(folder, links[i].0, links[i].1))
  }

  /** The links that the documents of a system and of all systems below it that exist store. */
  function StoredLinks(s: System): seq<Stored>
    decreases s, 0
  {
    InFolder(s.data.path, LinksOf([], s.data.first)) + ChunkLinks(s, |s.data.chunks|) + SubLinks(s.subs)
  }

  function ChunkLinks(s: System, n: nat): seq<Stored>
    requires n <= |s.data.chunks|
  {
    if n == 0 then [] else InFolder(s.data.path, LinksOf([], s.data.chunks[n - 1])) + ChunkLinks(s, n - 1)
  }

  function SubLinks(subs: seq<System>): seq<Stored>
    decreases subs
  {
    if subs == [] then [] else (if subs[0].data.present then StoredLinks(subs[0]) else []) + SubLinks(subs[1..])
  }

  /** `links` are the stored links one by one, each at its term path and with its system's path before it. */
  ghost predicate AreThose(stored: seq<Stored>, links: seq<(Path, Link)>) {
    |links| == |stored|
    && forall i | 0 <= i < |stored| :: IsMadeAbsolute(stored[i].folder, (stored[i].at, stored[i].link), links[i])
  }

  lemma ThoseConcat(a: seq<Stored>, x: seq<(Path, Link)>, b: seq<Stored>, y: seq<(Path, Link)>)
    requires AreThose(a, x) && AreThose(b, y)
    ensures AreThose(a + b, x + y) && multiset(x + y) == multiset(x) + multiset(y)
  {
  }

  lemma DocumentListed(folder: string, doc: seq<Entry>) returns (links: seq<(Path, Link)>)
    ensures AreThose(InFolder(folder, LinksOf([], doc)), links)
    ensures multiset(links) == MeaningOf(Some(folder), [], doc).links
  {
    links := LinksOf([], AllAbsolute(folder, doc));
    AbsoluteLinks(folder, [], doc);
    AbsoluteMeaning(folder, [], doc);
    LinksListed([], AllAbsolute(folder, doc));
  }

  lemma {:induction false} ChunksListed(s: System, n: nat) returns (links: seq<(Path, Link)>)
    requires n <= |s.data.chunks|
    ensures AreThose(ChunkLinks(s, n), links) && multiset(links) == ChunksLeft(s, {}, n).links
  {
    links := [];
    if n > 0 {
      var first := DocumentListed(s.data.path, s.data.chunks[n - 1]);
      var rest := ChunksListed(s, n - 1);
      links := first + rest;
      ThoseConcat(InFolder(s.data.path, LinksOf([], s.data.chunks[n - 1])), first, ChunkLinks(s, n - 1), rest);
    }
  }

  lemma {:induction false} TotalListed(s: System) returns (links: seq<(Path, Link)>)
    ensures AreThose(StoredLinks(s), links) && multiset(links) == Total(s).links
    decreases s, 0
  {
    var first := DocumentListed(s.data.path, s.data.first);
    var chunks := ChunksListed(s, |s.data.chunks|);
    var subs := SubsListed(s.subs);
    ThoseConcat(InFolder(s.data.path, LinksOf([], s.data.first)), first, ChunkLinks(s, |s.data.chunks|), chunks);
    ThoseConcat(InFolder(s.data.path, LinksOf([], s.data.first)) + ChunkLinks(s, |s.data.chunks|), first + chunks,
                SubLinks(s.subs), subs);
    links := first + chunks + subs;
  }

  lemma {:induction false} SubsListed(subs: seq<System>) returns (links: seq<(Path, Link)>)
    ensures AreThose(SubLinks(subs), links) && multiset(links) == SubsTotal(subs).links
    decreases subs
  {
    links := [];
    if subs != [] {
      var first: seq<(Path, Link)> := [];
      if subs[0].data.present {
        first := TotalListed(subs[0]);
      }
      var rest := SubsListed(subs[1..]);
      ThoseConcat(if subs[0].data.present then StoredLinks(subs[0]) else [], first, SubLinks(subs[1..]), rest);
      links := first + rest;
    }
  }

  /** Whatever order the documents arrive in, the links of a complete index are, up to their order, those that the
      documents of all existing systems store, one for one: each at the term path it is stored at, with the path of
      its system before its address. */
  lemma CompleteIndexHolds(s: System, events: seq<Event>, doc: seq<Entry>) returns (links: seq<(Path, Link)>)
    requires Run(s, AwaitFirst, events, Complete(doc))
    ensures AreThose(StoredLinks(s), links) && multiset(LinksOf([], doc)) == multiset(links)
  {
    AssemblyComplete(s, events, doc);
    LinksListed([], doc);
    links := TotalListed(s);
  }

  // ----- Sortedness -----

  /** All documents of a system and its subsystems are sorted. */
  predicate DocsSorted(s: System) {
    Sorted(s.data.first) && (forall c | c in s.data.chunks :: Sorted(c)) && forall x | x in s.subs :: DocsSorted(x)
  }

  predicate TaskSorted(t: Task) {
    match t
    case AwaitChunks(doc, _, _) => Sorted(doc)
    case AwaitSubs(doc, _, tasks) => Sorted(doc) && forall x | x in tasks :: TaskSorted(x)
    case Complete(doc) => Sorted(doc)
    case _ => true
  }

  lemma ChunksMergedSorted(s: System, doc: seq<Entry>)
    requires Sorted(doc)
    ensures TaskSorted(ChunksMerged(s, doc))
  {
    AbsoluteSorted(s.data.path, doc);
  }

  lemma {:induction false} ArriveSorted(s: System, t: Task, e: Event)
    requires DocsSorted(s) && TaskSorted(t) && Expected(s, t, e)
    ensures TaskSorted(Arrive(s, t, e))
    decreases s
  {
    if e.at == [] {
      match e.what
      case FirstDoc => ChunksMergedSorted(s, s.data.first);
      case ChunkDoc(i) =>
        MergeSorted(t.doc, s.data.chunks[i]);
        ChunksMergedSorted(s, Merge(t.doc, s.data.chunks[i]));
    } else {
      var k := e.at[0];
      var sub := Arrive(s.subs[k], t.tasks[k], Event(e.at[1..], e.what));
      ArriveSorted(s.subs[k], t.tasks[k], Event(e.at[1..], e.what));
      if sub.Complete? {
        MergeSorted(t.doc, sub.doc);
      }
    }
  }

  /** Links of a system's own documents, absolute once all chunks are there. */
  function OwnPart(s: System, t: Task, links: seq<Link>): seq<Link> {
    if t.AwaitChunks? then links else LinksAbsolute(s.data.path, links)
  }

  lemma AnswerAppends(s: System, t: Task, k: nat, sub: Task, path: Path)
    requires t.AwaitSubs? && k < |t.tasks| && TaskSorted(t) && TaskSorted(sub) && path != []
    ensures var u := SubAnswers(s, t, k, sub);
      (u.AwaitSubs? || u.Complete?)
      && LinksOr(u.doc, path) == LinksOr(t.doc, path) + if sub.Complete? then LinksOr(sub.doc, path) else []
  {
    if sub.Complete? {
      MergeAppends(t.doc, sub.doc, path);
    }
  }

  /** An arriving chunk's links come, at each path of terms, behind those there are; so do those of a subsystem whose
      index is complete. When the last chunk is there all addresses are made absolute, in their order. */
  lemma ArrivalAppends(s: System, t: Task, e: Event, path: Path)
    requires DocsSorted(s) && TaskSorted(t) && Expected(s, t, e) && path != []
    ensures var u := Arrive(s, t, e);
      (u.AwaitChunks? || u.AwaitSubs? || u.Complete?) &&
      LinksOr(u.doc, path) ==
        if e.at != [] then
          var sub := Arrive(s.subs[e.at[0]], t.tasks[e.at[0]], Event(e.at[1..], e.what));
          LinksOr(t.doc, path) + if sub.Complete? then LinksOr(sub.doc, path) else []
        else if e.what.FirstDoc? then OwnPart(s, u, LinksOr(s.data.first, path))
        else OwnPart(s, u, LinksOr(t.doc, path) + LinksOr(s.data.chunks[e.what.i], path))
  {
    if e.at == [] {
      match e.what
      case FirstDoc => LinksInAbsolute(s.data.path, s.data.first, path);
      case ChunkDoc(i) =>
        MergeAppends(t.doc, s.data.chunks[i], path);
        LinksInAbsolute(s.data.path, Merge(t.doc, s.data.chunks[i]), path);
    } else {
      var k := e.at[0];
      ArriveSorted(s.subs[k], t.tasks[k], Event(e.at[1..], e.what));
      AnswerAppends(s, t, k, Arrive(s.subs[k], t.tasks[k], Event(e.at[1..], e.what)), path);
    }
  }

  lemma {:induction false} RunSorted(s: System, t: Task, events: seq<Event>, u: Task)
    requires DocsSorted(s) && TaskSorted(t) && Run(s, t, events, u)
    ensures TaskSorted(u)
    decreases |events|
  {
    if events != [] {
      ArriveSorted(s, t, events[0]);
      RunSorted(s, Arrive(s, t, events[0]), events[1..], u);
    }
  }

  /** With sorted documents, two runs end with the same terms and, at each term path, the same links
      up to their order. */
  lemma OrderDoesNotMatter(s: System, events: seq<Event>, doc: seq<Entry>,
                           events': seq<Event>, doc': seq<Entry>, path: seq<string>)
    requires DocsSorted(s) && path != []
    requires Run(s, AwaitFirst, events, Complete(doc)) && Run(s, AwaitFirst, events', Complete(doc'))
    ensures Sorted(doc) && Sorted(doc')
    ensures LinksAt(doc, path).Some? <==> LinksAt(doc', path).Some?
    ensures LinksAt(doc, path).Some? ==> multiset(LinksAt(doc, path).value) == multiset(LinksAt(doc', path).value)
  {
    AssemblyComplete(s, events, doc);
    AssemblyComplete(s, events', doc');
    RunSorted(s, AwaitFirst, events, Complete(doc));
    RunSorted(s, AwaitFirst, events', Complete(doc'));
    SameMeaningSameAnswers(doc, doc', path);
  }

  // ----- Progress -----

  /** The number of documents still to arrive. */
  function DocsLeft(s: System, t: Task): nat
    decreases s, 1
  {
    match t
    case Skipped => 0
    case AwaitFirst => 1 + |s.data.chunks| + SubDocs(s.subs)
    case AwaitChunks(_, completed, _) =>
      (if completed <= |s.data.chunks| then |s.data.chunks| - completed else 0) + SubDocs(s.subs)
    case AwaitSubs(_, _, tasks) => SubDocsLeft(s.subs, tasks)
    case Complete(_) => 0
  }

  function SubDocs(subs: seq<System>): nat
    decreases subs, 0
  {
    if subs == [] then 0
    else (if subs[0].data.present then DocsLeft(subs[0], AwaitFirst) else 0) + SubDocs(subs[1..])
  }

  function SubDocsLeft(subs: seq<System>, tasks: seq<Task>): nat
    decreases subs, 0
  {
    if subs == [] || tasks == [] then 0
    else DocsLeft(subs[0], tasks[0]) + SubDocsLeft(subs[1..], tasks[1..])
  }

  lemma {:induction false} StartedDocs(subs: seq<System>)
    ensures SubDocsLeft(subs, StartAll(subs)) == SubDocs(subs)
    ensures Existing(subs) == 0 ==> SubDocs(subs) == 0
  {
    if subs != [] {
      assert StartAll(subs)[1..] == StartAll(subs[1..]);
      StartedDocs(subs[1..]);
    }
  }

  lemma {:induction false} AnsweredDocs(subs: seq<System>, tasks: seq<Task>)
    requires AllProper(subs, tasks) && Answered(tasks) == Existing(subs)
    ensures SubDocsLeft(subs, tasks) == 0
  {
    if subs != [] {
      AllAnswered(subs[1..], tasks[1..]);
      AnsweredDocs(subs[1..], tasks[1..]);
    }
  }

  lemma {:induction false} SubDocsMove(subs: seq<System>, tasks: seq<Task>, k: nat, t: Task)
    requires |tasks| == |subs| && k < |subs|
    ensures SubDocsLeft(subs, tasks[k := t]) ==
            SubDocsLeft(subs, tasks) - DocsLeft(subs[k], tasks[k]) + DocsLeft(subs[k], t)
    decreases k
  {
    if k == 0 {
      assert tasks[k := t][1..] == tasks[1..];
    } else {
      assert tasks[k := t][1..] == tasks[1..][k - 1 := t];
      SubDocsMove(subs[1..], tasks[1..], k - 1, t);
    }
  }

  /** Each arrival leaves one document fewer to come. */
  lemma {:induction false} ArriveCounts(s: System, t: Task, e: Event)
    requires Proper(s, t) && Expected(s, t, e)
    ensures DocsLeft(s, Arrive(s, t, e)) == DocsLeft(s, t) - 1
    decreases s
  {
    StartedDocs(s.subs);
    if e.at != [] {
      var k := e.at[0];
      var below := Event(e.at[1..], e.what);
      var sub := Arrive(s.subs[k], t.tasks[k], below);
      ProperAt(s.subs, t.tasks, k);
      ArriveCounts(s.subs[k], t.tasks[k], below);
      SubDocsMove(s.subs, t.tasks, k, sub);
      ArriveKeeps(s.subs[k], t.tasks[k], below);
      SubMovesProper(s.subs, t.tasks, k, sub);
      if sub.Complete? && t.completed + 1 == Existing(s.subs) {
        AnsweredDocs(s.subs, t.tasks[k := sub]);
      }
    }
  }

  /** Until an index is complete, some document is expected for it. */
  lemma {:induction false} SomethingExpected(s: System, t: Task) returns (e: Event)
    requires Proper(s, t) && !Finished(t)
    ensures Expected(s, t, e)
    decreases s, 1
  {
    match t
    case AwaitFirst => e := Event([], FirstDoc);
    case AwaitChunks(_, _, arrived) =>
      var i := Missing(arrived, |s.data.chunks|);
      e := Event([], ChunkDoc(i));
    case AwaitSubs(_, _, tasks) =>
      var k := Unanswered(s.subs, tasks);
      ProperAt(s.subs, tasks, k);
      var below := SomethingExpected(s.subs[k], tasks[k]);
      e := Event([k] + below.at, below.what);
  }

  lemma {:induction false} Missing(a: set<nat>, n: nat) returns (i: nat)
    requires |a| < n
    ensures i < n && i !in a
  {
    if n - 1 !in a {
      i := n - 1;
    } else {
      i := Missing(a - {n - 1}, n - 1);
    }
  }

  lemma {:induction false} Unanswered(subs: seq<System>, tasks: seq<Task>) returns (k: nat)
    requires AllProper(subs, tasks) && Answered(tasks) < Existing(subs)
    ensures k < |subs| && !Finished(tasks[k])
  {
    if !Finished(tasks[0]) {
      k := 0;
    } else {
      k := Unanswered(subs[1..], tasks[1..]);
      k := k + 1;
    }
  }

  /** The callback runs, and after as many arrivals as there are documents: a run that nothing can
      continue has taken exactly that many steps and is complete. */
  lemma {:induction false} RunEnds(s: System, t: Task, events: seq<Event>, u: Task)
    requires Proper(s, t) && !t.Skipped? && Run(s, t, events, u)
    ensures |events| + DocsLeft(s, u) == DocsLeft(s, t)
    ensures (forall e :: !Expected(s, u, e)) ==> u.Complete?
    decreases |events|
  {
    if events == [] {
      if !Finished(u) {
        var e := SomethingExpected(s, u);
      }
    } else {
      ArriveCounts(s, t, events[0]);
      ArriveKeeps(s, t, events[0]);
      RunEnds(s, Arrive(s, t, events[0]), events[1..], u);
    }
  }
}
