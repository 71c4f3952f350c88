/** Looking up a context-sensitive help identifier in a tree of help systems: each system loads its
    alias file, and those that do not know the identifier ask their subsystems, whose answers come
    in any order. */
module CshLookup {
  import opened Options
  import opened SystemTree
  import opened Text

  // ----- Alias files -----

  /** What an alias file maps an identifier to. */
  datatype MapInfo = MapInfo(topic: Option<string>, skin: Option<string>)

  /** An alias file; `None` when it could not be loaded. */
  datatype Aliases = Aliases(names: map<string, MapInfo>, ids: map<string, MapInfo>, defaultSkin: Option<string>)

  /** What is of interest about a help system: its path, its content folder and its alias file. */
  datatype Data = Data(path: string, contentFolder: string, aliases: Option<Aliases>)

  type System = Tree<Data>

  /** The identifier asked for: nothing, a text or a number. */
  datatype Id = NoId | TextId(text: string) | NumberId(number: int)

  /** The answer to a lookup. */
  datatype Info = Info(found: bool, topic: Option<string>, skin: Option<string>)

  function NumberText(n: int): string {
    if n < 0 then "-" + Decimal(-n) else Decimal(n)
  }

  /** The entry for an identifier: a text is looked up as a name first and then as an id. */
  function GetFromMap(a: Option<Aliases>, id: Id): Option<MapInfo> {
    if a.None? then None
    else match id
         case NoId => None
         case TextId(text) =>
           if text in a.value.names then Some(a.value.names[text])
           else if text in a.value.ids then Some(a.value.ids[text])
           else None
         case NumberId(n) => if NumberText(n) in a.value.ids then Some(a.value.ids[NumberText(n)]) else None
  }

  /** What an identifier is mapped to. No identifier at all, and a text with a dot, count as found: the latter is
      a topic, with a skin after a bar. */
  function Mapped(a: Option<Aliases>, id: Id): (bool, Option<string>, Option<string>) {
    if id == NoId || id == TextId("") || id == NumberId(0) then (true, None, None)
    else if id.TextId? && '.' in id.text then
      var bar := IndexOf(id.text, '|');
      if bar < 0 then (true, Some(id.text), None)
      else (true, Some(id.text[..bar]), Some(id.text[bar + 1..]))
    else
      match GetFromMap(a, id)
      case None => (false, None, None)
      case Some(info) => (true, info.topic, info.skin)
  }

  /** CMCAliasFile.LookupID. */
  function LookupID(s: System, id: Id): Info {
    var (found, topic, skin) := Mapped(s.data.aliases, id);
    var withDefault :=
      if (skin.None? || skin == Some("")) && s.data.aliases.Some? then s.data.aliases.value.defaultSkin else skin;
    var inFolder := if topic.Some? && topic != Some("") then Some(s.data.contentFolder + topic.value) else topic;
    Info(found, inFolder, withDefault)
  }

  /** A system's own answer, with the topic under the system's path. */
  function OwnAnswer(s: System, id: Id): Info {
    var info := LookupID(s, id);
    if info.found && info.topic.Some? then info.(topic := Some(s.data.path + info.topic.value)) else info
  }

  // ----- What a system answers -----

  /** What an identifier stands for in a system: no topic when there is none; a topic, and behind the first bar a skin,
      when it is a text with a dot; else what the maps have for it, the names before the ids for a text. */
  predicate StandsFor(s: System, id: Id, topic: Option<string>, skin: Option<string>) {
    if id == NoId || id == TextId("") || id == NumberId(0) then topic == None && skin == None
    else if id.TextId? && '.' in id.text then
      if '|' !in id.text then topic == Some(id.text) && skin == None
      else topic.Some? && skin.Some? && '|' !in topic.value && id.text == topic.value + "|" + skin.value
    else
      && s.data.aliases.Some?
      && var a := s.data.aliases.value;
         var key := if id.TextId? then id.text
                    else if id.number < 0 then "-" + Decimal(-id.number) else Decimal(id.number);
         if id.TextId? && key in a.names then a.names[key] == MapInfo(topic, skin)
         else key in a.ids && a.ids[key] == MapInfo(topic, skin)
  }

  lemma MappedExactly(s: System, id: Id, topic: Option<string>, skin: Option<string>)
    requires StandsFor(s, id, topic, skin)
    ensures Mapped(s.data.aliases, id) == (true, topic, skin)
  {
    if id.TextId? && '.' in id.text && '|' in id.text {
      IndexOfFirst(topic.value, '|', skin.value);
      assert id.text[..|topic.value|] == topic.value && id.text[|topic.value| + 1..] == skin.value;
    }
  }

  /** A system finds exactly the identifiers that stand for something in it. The topic is put in the system's content
      folder and that under the system's path; a missing or empty skin is the alias file's default. */
  lemma OwnAnswerExactly(s: System, id: Id, topic: Option<string>, skin: Option<string>)
    requires StandsFor(s, id, topic, skin)
    ensures var info := OwnAnswer(s, id);
      && info.found
      && (topic.None? ==> info.topic == None)
      && (topic.Some? && topic.value != "" ==> info.topic == Some(s.data.path + s.data.contentFolder + topic.value))
      && (skin.Some? && skin.value != "" ==> info.skin == skin)
      && ((skin == None || skin == Some("")) && s.data.aliases.Some? ==> info.skin == s.data.aliases.value.defaultSkin)
  {
    MappedExactly(s, id, topic, skin);
    if topic.Some? && topic.value != "" {
      assert s.data.path + (s.data.contentFolder + topic.value) == s.data.path + s.data.contentFolder + topic.value;
    }
  }

  /** What is found stands for something. */
  lemma FoundStandsFor(s: System, id: Id) returns (topic: Option<string>, skin: Option<string>)
    requires OwnAnswer(s, id).found
    ensures StandsFor(s, id, topic, skin)
  {
    if id == NoId || id == TextId("") || id == NumberId(0) {
      topic, skin := None, None;
    } else if id.TextId? && '.' in id.text {
      topic, skin := SplitAtBar(id.text);
    } else {
      var info := GetFromMap(s.data.aliases, id).value;
      topic, skin := info.topic, info.skin;
    }
  }

  lemma SplitAtBar(text: string) returns (topic: Option<string>, skin: Option<string>)
    ensures '|' !in text ==> topic == Some(text) && skin == None
    ensures '|' in text ==>
      topic.Some? && skin.Some? && '|' !in topic.value && text == topic.value + "|" + skin.value
  {
    var bar := IndexOf(text, '|');
    if bar < 0 {
      topic, skin := Some(text), None;
    } else {
      topic, skin := Some(text[..bar]), Some(text[bar + 1..]);
    }
  }

  // ----- The code -----

  /** A system's lookup: waiting for its alias file; waiting for its subsystems, with the number of
      answers that were counted and whether one of them found the topic; or over without asking. */
  datatype Task =
    | AwaitAlias
    | Asked(completed: nat, found: bool, tasks: seq<Task>)
    | Closed

  /** Alias files on their way; a file is named by the path of subsystem numbers to its system. */
  predicate Expected(s: System, t: Task, at: seq<nat>)
    decreases s
  {
    if at == [] then t.AwaitAlias?
    else t.Asked? && |t.tasks| == |s.subs| && at[0] < |s.subs| && Expected(s.subs[at[0]], t.tasks[at[0]], at[1..])
  }

  /** OnLookupCSHID: a subsystem's answer comes in; the second result is the calls made to the
      system's own callback. */
  function OnAnswer(s: System, id: Id, t: Task, answer: Info): (Task, seq<Info>)
    requires t.Asked?
  {
    if t.found then (t, [])
    else
      var counted := t.(completed := t.completed + 1);
      if answer.found then (counted.(found := true), [answer])
      else if counted.completed == |s.subs| then (counted, [LookupID(s, id)])
      else (counted, [])
  }

  function OnAnswers(s: System, id: Id, t: Task, answers: seq<Info>): (r: (Task, seq<Info>))
    requires t.Asked?
    ensures r.0.Asked? && r.0.tasks == t.tasks
    decreases |answers|
  {
    if answers == [] then (t, [])
    else
      var first := OnAnswer(s, id, t, answers[0]);
      var rest := OnAnswers(s, id, first.0, answers[1..]);
      (rest.0, first.1 + rest.1)
  }

  /** What runs when an alias file arrives, and the calls it makes to the callback of `s`. */
  function Arrive(s: System, id: Id, t: Task, at: seq<nat>): (Task, seq<Info>)
    requires Expected(s, t, at)
    decreases s
  {
    if at == [] then
      if LookupID(s, id).found || s.subs == [] then (Closed, [OwnAnswer(s, id)])
      else (Asked(0, false, seq(|s.subs|, i => AwaitAlias)), [])
    else
      var k := at[0];
      var sub := Arrive(s.subs[k], id, t.tasks[k], at[1..]);
      OnAnswers(s, id, t.(tasks := t.tasks[k := sub.0]), sub.1)
  }

  /** A run: alias files arrive one by one, and `calls` are the calls made to the callback. */
  ghost predicate Run(s: System, id: Id, t: Task, events: seq<seq<nat>>, u: Task, calls: seq<Info>)
    decreases |events|
  {
    if events == [] then t == u && calls == []
    else
      && Expected(s, t, events[0])
      && var step := Arrive(s, id, t, events[0]);
         step.1 <= calls && Run(s, id, step.0, events[1..], u, calls[|step.1|..])
  }

  // ----- The reference -----

  /** Some alias file in the tree resolves the identifier. */
  predicate Resolves(s: System, id: Id) {
    LookupID(s, id).found || exists k :: 0 <= k < |s.subs| && Resolves(s.subs[k], id)
  }

  /** The answer of some system in the tree that resolves the identifier while none above it does. */
  predicate FoundBy(s: System, id: Id, info: Info) {
    if LookupID(s, id).found then info == OwnAnswer(s, id)
    else exists k :: 0 <= k < |s.subs| && FoundBy(s.subs[k], id, info)
  }

  /** An answer is right when it says found exactly when the tree resolves the identifier, and then is
      the answer of a system that does. */
  predicate Right(s: System, id: Id, info: Info) {
    && (info.found <==> Resolves(s, id))
    && (info.found ==> FoundBy(s, id, info))
    && (!info.found ==> info == LookupID(s, id))
  }

  /** The topic found lies in the folder of a system of the tree that resolves the identifier, and a topic
      that is not empty lies in that system's content folder. */
  lemma {:induction false} FinderOwnsTopic(s: System, id: Id, info: Info) returns (at: Place)
    requires FoundBy(s, id, info)
    ensures In(s, at) && LookupID(At(s, at), id).found && info == OwnAnswer(At(s, at), id)
    ensures var x := At(s, at).data;
      && (info.topic.Some? ==> x.path <= info.topic.value)
      && (info.topic.Some? && info.topic.value != x.path ==> x.path + x.contentFolder <= info.topic.value)
    decreases s
  {
    if LookupID(s, id).found {
      at := [];
    } else {
      var k :| 0 <= k < |s.subs| && FoundBy(s.subs[k], id, info);
      var below := FinderOwnsTopic(s.subs[k], id, info);
      at := [k] + below;
      assert at[1..] == below;
    }
  }

  /** The identifier is none, a topic, or in one of the system's two maps: as a text in either, as a number in the
      second. */
  predicate Knows(s: System, id: Id) {
    || id in {NoId, TextId(""), NumberId(0)} || (id.TextId? && '.' in id.text)
    || (s.data.aliases.Some? && (
         || (id.TextId? && id.text in s.data.aliases.value.names.Keys + s.data.aliases.value.ids.Keys)
         || (id.NumberId? && NumberText(id.number) in s.data.aliases.value.ids)))
  }

  lemma {:induction false} KnowerResolves(s: System, id: Id, at: Place)
    requires In(s, at) && Knows(At(s, at), id)
    ensures Resolves(s, id)
    decreases at
  {
    if at != [] {
      KnowerResolves(s.subs[at[0]], id, at[1..]);
    }
  }

  lemma {:induction false} ResolverKnows(s: System, id: Id) returns (at: Place)
    requires Resolves(s, id)
    ensures In(s, at) && Knows(At(s, at), id)
    decreases s
  {
    if LookupID(s, id).found {
      at := [];
    } else {
      var k :| 0 <= k < |s.subs| && Resolves(s.subs[k], id);
      var below := ResolverKnows(s.subs[k], id);
      at := [k] + below;
      assert at[1..] == below;
    }
  }

  /** A tree resolves an identifier exactly when some system in it knows it. */
  lemma {:induction false} ResolvesSomewhere(s: System, id: Id)
    ensures Resolves(s, id) <==> exists at :: KnowsAt(s, at, id)
  {
    if Resolves(s, id) {
      var at := ResolverKnows(s, id);
      assert KnowsAt(s, at, id);
    }
    forall at | KnowsAt(s, at, id) ensures Resolves(s, id) {
      KnowerResolves(s, id, at);
    }
  }

  predicate KnowsAt(s: System, at: Place, id: Id) {
    In(s, at) && Knows(At(s, at), id)
  }

  // ----- What every state keeps -----

  predicate Answered(t: Task) {
    t.Closed? || (t.Asked? && (t.found || t.completed == |t.tasks|))
  }

  function CountAnswered(tasks: seq<Task>): nat {
    if tasks == [] then 0 else (if Answered(tasks[0]) then 1 else 0) + CountAnswered(tasks[1..])
  }

  /** A system that asks did not find the identifier itself. It counts the subsystems that answered,
      none of which resolves the identifier until one is found to. */
  predicate Inv(s: System, id: Id, t: Task)
    decreases s
  {
    t.Asked? ==>
      && !LookupID(s, id).found && |t.tasks| == |s.subs| > 0
      && (forall k | 0 <= k < |s.subs| :: Inv(s.subs[k], id, t.tasks[k]))
      && (t.found ==> Resolves(s, id))
      && (!t.found ==>
           && t.completed == CountAnswered(t.tasks)
           && forall k | 0 <= k < |s.subs| && Answered(t.tasks[k]) :: !Resolves(s.subs[k], id))
  }

  lemma {:induction false} CountSet(tasks: seq<Task>, k: nat, t: Task)
    requires k < |tasks|
    ensures CountAnswered(tasks[k := t]) ==
            CountAnswered(tasks) - (if Answered(tasks[k]) then 1 else 0) + if Answered(t) then 1 else 0
  {
    if k == 0 {
      assert tasks[k := t][1..] == tasks[1..];
    } else {
      assert tasks[k := t][1..] == tasks[1..][k - 1 := t];
      CountSet(tasks[1..], k - 1, t);
    }
  }

  lemma {:induction false} CountAll(tasks: seq<Task>)
    ensures CountAnswered(tasks) <= |tasks|
    ensures CountAnswered(tasks) == |tasks| <==> forall k | 0 <= k < |tasks| :: Answered(tasks[k])
  {
    if tasks != [] {
      CountAll(tasks[1..]);
      assert forall k | 0 <= k < |tasks| - 1 :: tasks[1..][k] == tasks[k + 1];
      assert forall k | 0 < k < |tasks| :: tasks[k] == tasks[1..][k - 1];
    }
  }

  lemma {:induction false} NoneStarted(n: nat)
    ensures CountAnswered(seq(n, i => AwaitAlias)) == 0
  {
    if n > 0 {
      assert seq(n, i => AwaitAlias)[1..] == seq(n - 1, i => AwaitAlias);
      NoneStarted(n - 1);
    }
  }

  /** One event calls the callback once when it completes the lookup, rightly, and otherwise not. */
  lemma {:induction false} ArriveAnswersOnce(s: System, id: Id, t: Task, at: seq<nat>)
    requires Inv(s, id, t) && Expected(s, t, at)
    ensures var r := Arrive(s, id, t, at);
      && Inv(s, id, r.0) && (Answered(t) ==> Answered(r.0))
      && |r.1| == (if !Answered(t) && Answered(r.0) then 1 else 0)
      && forall i | 0 <= i < |r.1| :: Right(s, id, r.1[i])
    decreases s
  {
    if at == [] {
      NoneStarted(|s.subs|);
    } else {
      var k := at[0];
      ArriveAnswersOnce(s.subs[k], id, t.tasks[k], at[1..]);
      var sub := Arrive(s.subs[k], id, t.tasks[k], at[1..]);
      SubAnswers(s, id, t, k, sub.0, sub.1);
    }
  }

  lemma SubAnswers(s: System, id: Id, t: Task, k: nat, sub: Task, calls: seq<Info>)
    requires Inv(s, id, t) && t.Asked? && k < |s.subs| && Inv(s.subs[k], id, sub)
    requires Answered(t.tasks[k]) ==> Answered(sub)
    requires |calls| == (if !Answered(t.tasks[k]) && Answered(sub) then 1 else 0)
    requires forall i | 0 <= i < |calls| :: Right(s.subs[k], id, calls[i])
    ensures var r := OnAnswers(s, id, t.(tasks := t.tasks[k := sub]), calls);
      && Inv(s, id, r.0) && (Answered(t) ==> Answered(r.0))
      && |r.1| == (if !Answered(t) && Answered(r.0) then 1 else 0)
      && forall i | 0 <= i < |r.1| :: Right(s, id, r.1[i])
  {
    var u := t.(tasks := t.tasks[k := sub]);
    CountSet(t.tasks, k, sub);
    CountAll(t.tasks);
    CountAll(u.tasks);
    if calls == [] {
      assert OnAnswers(s, id, u, calls) == (u, []);
    } else {
      var step := OnAnswer(s, id, u, calls[0]);
      assert OnAnswers(s, id, step.0, calls[1..]) == (step.0, []);
      assert step.1 + [] == step.1;
    }
  }

  /** A run calls the callback at most once, and the answer it gives is right. */
  lemma {:induction false} RunAnswersOnce(s: System, id: Id, t: Task, events: seq<seq<nat>>, u: Task, calls: seq<Info>)
    requires Inv(s, id, t) && Run(s, id, t, events, u, calls)
    ensures Inv(s, id, u) && (Answered(t) ==> Answered(u))
    ensures |calls| == if !Answered(t) && Answered(u) then 1 else 0
    ensures forall i | 0 <= i < |calls| :: Right(s, id, calls[i])
    decreases |events|
  {
    if events != [] {
      var step := Arrive(s, id, t, events[0]);
      ArriveAnswersOnce(s, id, t, events[0]);
      RunAnswersOnce(s, id, step.0, events[1..], u, calls[|step.1|..]);
      assert calls == step.1 + calls[|step.1|..];
    }
  }

  // ----- Progress -----

  /** The alias files that may still be loaded. */
  function Left(s: System, t: Task): nat
    decreases s, 1
  {
    match t
    case AwaitAlias => 1 + LeftInAll(s.subs, seq(|s.subs|, i => AwaitAlias))
    case Asked(_, _, tasks) => LeftInAll(s.subs, tasks)
    case Closed => 0
  }

  function LeftInAll(subs: seq<System>, tasks: seq<Task>): nat
    decreases subs, 0
  {
    if subs == [] || tasks == [] then 0 else Left(subs[0], tasks[0]) + LeftInAll(subs[1..], tasks[1..])
  }

  lemma {:induction false} LeftSet(subs: seq<System>, tasks: seq<Task>, k: nat, t: Task)
    requires |tasks| == |subs| && k < |subs|
    ensures LeftInAll(subs, tasks[k := t]) == LeftInAll(subs, tasks) - Left(subs[k], tasks[k]) + Left(subs[k], t)
  {
    if k == 0 {
      assert tasks[k := t][1..] == tasks[1..];
    } else {
      assert tasks[k := t][1..] == tasks[1..][k - 1 := t];
      LeftSet(subs[1..], tasks[1..], k - 1, t);
    }
  }

  /** Each arrival leaves fewer files to come. */
  lemma {:induction false} ArriveShrinks(s: System, id: Id, t: Task, at: seq<nat>)
    requires Expected(s, t, at)
    ensures Left(s, Arrive(s, id, t, at).0) < Left(s, t)
    decreases s
  {
    if at != [] {
      var k := at[0];
      ArriveShrinks(s.subs[k], id, t.tasks[k], at[1..]);
      LeftSet(s.subs, t.tasks, k, Arrive(s.subs[k], id, t.tasks[k], at[1..]).0);
    }
  }

  /** Until the lookup has answered, some alias file is on its way. */
  lemma {:induction false} SomethingExpected(s: System, id: Id, t: Task) returns (at: seq<nat>)
    requires Inv(s, id, t) && !Answered(t)
    ensures Expected(s, t, at)
    decreases s
  {
    if t.AwaitAlias? {
      at := [];
    } else {
      CountAll(t.tasks);
      var k :| 0 <= k < |t.tasks| && !Answered(t.tasks[k]);
      at := SomethingExpected(s.subs[k], id, t.tasks[k]);
      at := [k] + at;
    }
  }

  /** However the answers interleave, a lookup makes no more steps than there are alias files, and when
      no more files are on their way its callback has been called exactly once, with found true
      exactly when some alias file in the tree resolves the identifier and the topic under the path
      of the system that does. */
  lemma LookupAnswersOnce(s: System, id: Id, events: seq<seq<nat>>, u: Task, calls: seq<Info>)
    requires Run(s, id, AwaitAlias, events, u, calls)
    ensures |calls| <= 1 && forall i | 0 <= i < |calls| :: Right(s, id, calls[i])
    ensures |events| + Left(s, u) <= Left(s, AwaitAlias)
    ensures (forall at :: !Expected(s, u, at)) ==> |calls| == 1
  {
    RunAnswersOnce(s, id, AwaitAlias, events, u, calls);
    RunShrinks(s, id, AwaitAlias, events, u, calls);
    if !Answered(u) {
      var at := SomethingExpected(s, id, u);
    }
  }

  lemma {:induction false} RunShrinks(s: System, id: Id, t: Task, events: seq<seq<nat>>, u: Task, calls: seq<Info>)
    requires Run(s, id, t, events, u, calls)
    ensures |events| + Left(s, u) <= Left(s, t)
    decreases |events|
  {
    if events != [] {
      var step := Arrive(s, id, t, events[0]);
      ArriveShrinks(s, id, t, events[0]);
      RunShrinks(s, id, step.0, events[1..], u, calls[|step.1|..]);
    }
  }
}
