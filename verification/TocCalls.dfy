/** Overlapping calls of GetTocNode. The address a call asks for is kept in fields of the table of contents
    while a load is on its way, and there is one pair of fields for all calls. */
module TocCalls {
  import opened Options

  /** What a call asks for. */
  datatype Address = Address(tocPath: string, href: string)

  /** Where following an address ends: at an element whose content is loaded first, at the book that the steps
      name, without a book for the last step, or with an error. */
  datatype Walk = ToPending | ToBook | NoBook | Throws

  /** How a call ended: with what an address came to, whichever, or with the error that no address raises. */
  datatype Answer = Resolved(address: Address, end: Walk) | NoAddress

  /** The fields mTocPath and mTocHref, empty when no address is set; the calls that wait for a load, each with
      what it asked for; and the calls that ended. */
  datatype State = State(fields: Option<Address>, waiting: map<nat, Address>, answers: map<nat, (Address, Answer)>)

  /** A call is made, or the load that a call waits for is done; and where following the address ends then. */
  datatype Event = Asked(id: nat, address: Address, walk: Walk) | Loaded(id: nat, walk: Walk)

  predicate Legal(s: State, e: Event) {
    match e
    case Asked(id, _, _) => id !in s.waiting && id !in s.answers
    case Loaded(id, _) => id in s.waiting
  }

  /** GetTocNode with the address `a`, for the call `id` that asked for `asked`: the fields are set first, and
      emptied only when the book is there. Without it the call returns before that, and so it does when
      following the address throws. */
  function Attempt(s: State, id: nat, asked: Address, a: Address, walk: Walk): State {
    if walk.ToPending? then State(Some(a), s.waiting[id := asked], s.answers)
    else State(if walk.ToBook? then None else Some(a), s.waiting - {id}, s.answers[id := (asked, Resolved(a, walk))])
  }

  /** When a load is done, GetTocNode starts over with whatever address the fields hold. */
  function Step(s: State, e: Event): State
    requires Legal(s, e)
  {
    match e
    case Asked(id, address, walk) => Attempt(s, id, address, address, walk)
    case Loaded(id, walk) =>
      (match s.fields
       case Some(a) => Attempt(s, id, s.waiting[id], a, walk)
       case None => State(None, s.waiting - {id}, s.answers[id := (s.waiting[id], NoAddress)]))
  }

  ghost predicate Run(s: State, events: seq<Event>, t: State)
    decreases |events|
  {
    if events == [] then s == t else Legal(s, events[0]) && Run(Step(s, events[0]), events[1..], t)
  }

  predicate NoCalls(events: seq<Event>) {
    forall e | e in events :: e.Loaded?
  }

  /** Every call that ended resolved what it asked for. */
  predicate Right(s: State) {
    forall id | id in s.answers :: s.answers[id].1.Resolved? && s.answers[id].1.address == s.answers[id].0
  }

  /** At most one call waits, and the fields hold what it asked for. */
  predicate InOrder(s: State) {
    && (forall i, j | i in s.waiting && j in s.waiting :: i == j)
    && (forall i | i in s.waiting :: s.fields == Some(s.waiting[i]))
  }

  /** Whatever the loads from here on bring, every call resolves what it asked for. */
  ghost predicate StaysRight(s: State) {
    forall events, t | Run(s, events, t) && NoCalls(events) :: Right(t)
  }

  // ----- States that stay right -----

  lemma LoadInOrder(s: State, e: Event)
    requires InOrder(s) && Right(s) && Legal(s, e) && e.Loaded?
    ensures InOrder(Step(s, e)) && Right(Step(s, e))
  {
  }

  lemma {:induction false} RunInOrder(s: State, events: seq<Event>, t: State)
    requires InOrder(s) && Right(s) && Run(s, events, t) && NoCalls(events)
    ensures InOrder(t) && Right(t)
    decreases |events|
  {
    if events != [] {
      assert events[0] in events;
      LoadInOrder(s, events[0]);
      RunInOrder(Step(s, events[0]), events[1..], t);
    }
  }

  lemma RunOfTwo(s: State, a: Event, b: Event)
    requires Legal(s, a) && Legal(Step(s, a), b)
    ensures Run(s, [a, b], Step(Step(s, a), b))
  {
    assert [a, b][1..] == [b] && [b][1..] == [];
    assert Run(Step(s, a), [b], Step(Step(s, a), b));
  }

  /** A call whose address is not in the fields resolves another one, or none. */
  lemma {:induction false} OtherAddress(s: State, i: nat)
    requires i in s.waiting && s.fields != Some(s.waiting[i])
    ensures !StaysRight(s)
  {
    var t := Step(s, Loaded(i, NoBook));
    assert t.answers[i].0 == s.waiting[i] && !Right(t);
    assert [Loaded(i, NoBook)][1..] == [] && Run(t, [], t) && Run(s, [Loaded(i, NoBook)], t);
  }

  /** Of two calls that wait, the first to find its book leaves the other without an address. */
  lemma {:induction false} TwoWait(s: State, i: nat, j: nat)
    requires i in s.waiting && j in s.waiting && i != j
    ensures !StaysRight(s)
  {
    var t := Step(s, Loaded(i, ToBook));
    var u := Step(t, Loaded(j, NoBook));
    assert t.fields == None && u.answers[j].1 == NoAddress && !Right(u);
    RunOfTwo(s, Loaded(i, ToBook), Loaded(j, NoBook));
  }

  /** A state stays right exactly when it is right so far, at most one call waits, and the fields hold what
      that call asked for. */
  lemma {:induction false} StaysRightExactly(s: State)
    ensures StaysRight(s) <==> Right(s) && InOrder(s)
  {
    if Right(s) && InOrder(s) {
      forall events, t | Run(s, events, t) && NoCalls(events) ensures Right(t) {
        RunInOrder(s, events, t);
      }
    } else if !Right(s) {
      assert Run(s, [], s);
    } else if i :| i in s.waiting && s.fields != Some(s.waiting[i]) {
      OtherAddress(s, i);
    } else {
      var i, j :| i in s.waiting && j in s.waiting && i != j;
      TwoWait(s, i, j);
    }
  }

  // ----- Safe calls -----

  /** The call ends at once and leaves its address in the fields. */
  predicate LeavesFields(walk: Walk) {
    walk.NoBook? || walk.Throws?
  }

  /** No other call waits, or the call ends at once without a book and asks for what the only other one waits for. */
  predicate SafeCall(s: State, address: Address, walk: Walk) {
    || s.waiting == map[]
    || (LeavesFields(walk) && (forall i, j | i in s.waiting && j in s.waiting :: i == j)
        && forall i | i in s.waiting :: s.waiting[i] == address)
  }

  /** After a call every call resolves what it asked for, whatever the loads from then on bring, exactly when the
      call is safe. With calls made in order until then, one that another waits beside is safe exactly when it ends
      at once without a book and asks for the address that the fields hold. */
  lemma {:induction false} CallIsSafe(s: State, id: nat, address: Address, walk: Walk)
    requires Right(s) && Legal(s, Asked(id, address, walk))
    ensures StaysRight(Step(s, Asked(id, address, walk))) <==> SafeCall(s, address, walk)
    ensures InOrder(s) && s.waiting != map[] ==>
      (SafeCall(s, address, walk) <==> LeavesFields(walk) && s.fields == Some(address))
  {
    var u := Step(s, Asked(id, address, walk));
    StaysRightExactly(u);
    assert Right(u);
    if s.waiting != map[] {
      var other :| other in s.waiting;
      assert other in u.waiting && u.waiting[other] == s.waiting[other];
      if LeavesFields(walk) {
        assert u.waiting == s.waiting && u.fields == Some(address);
      } else if walk.ToPending? {
        assert id in u.waiting && other != id;
      }
    }
  }

  /** All calls of a run are safe when they are made. */
  ghost predicate SafeCalls(s: State, events: seq<Event>)
    decreases |events|
  {
    events != [] && Legal(s, events[0]) ==>
      (events[0].Asked? ==> SafeCall(s, events[0].address, events[0].walk))
      && SafeCalls(Step(s, events[0]), events[1..])
  }

  lemma {:induction false} SafeCallsAreRight(s: State, events: seq<Event>, t: State)
    requires StaysRight(s) && Run(s, events, t) && SafeCalls(s, events)
    ensures StaysRight(t)
    decreases |events|
  {
    if events != [] {
      StaysRightExactly(s);
      match events[0] {
        case Asked(id, address, walk) => CallIsSafe(s, id, address, walk);
        case Loaded(id, walk) =>
          LoadInOrder(s, events[0]);
          StaysRightExactly(Step(s, events[0]));
      }
      SafeCallsAreRight(Step(s, events[0]), events[1..], t);
    }
  }

  /** Calls that are made only while no other waits. */
  ghost predicate OneAtATime(s: State, events: seq<Event>)
    decreases |events|
  {
    events != [] && Legal(s, events[0]) ==>
      (events[0].Asked? ==> s.waiting == map[]) && OneAtATime(Step(s, events[0]), events[1..])
  }

  /** They all resolve what they asked for. */
  lemma {:induction false} OneAtATimeIsRight(s: State, events: seq<Event>, t: State)
    requires InOrder(s) && Right(s) && Run(s, events, t) && OneAtATime(s, events)
    ensures InOrder(t) && Right(t)
    decreases |events|
  {
    if events != [] {
      if events[0].Asked? {
        assert InOrder(Step(s, events[0])) && Right(Step(s, events[0]));
      } else {
        LoadInOrder(s, events[0]);
      }
      OneAtATimeIsRight(Step(s, events[0]), events[1..], t);
    }
  }

  // ----- Calls beside a waiting one -----

  const NONE := State(None, map[], map[])

  /** A call for `a` waits. */
  function OneWaits(a: Address): State {
    State(Some(a), map[1 := a], map[])
  }

  /** A second call for the same address, which finds no book because the merge is only on its way, harms nothing:
      the first goes on with that address, and all calls resolve what they asked for. */
  lemma {:induction false} SafeThoughOneWaits(a: Address)
    ensures Run(NONE, [Asked(1, a, ToPending)], OneWaits(a))
    ensures Legal(OneWaits(a), Asked(2, a, NoBook)) && StaysRight(Step(OneWaits(a), Asked(2, a, NoBook)))
  {
    assert [Asked(1, a, ToPending)][1..] == [];
    assert Step(NONE, Asked(1, a, ToPending)) == OneWaits(a);
    assert Run(OneWaits(a), [], OneWaits(a));
    CallIsSafe(OneWaits(a), 2, a, NoBook);
  }

  /** A second call for another address: the first resolves that one when the second finds no book, and none when
      it finds one. */
  lemma {:induction false} WaitingCallMisled(a: Address, b: Address)
    requires a != b
    ensures Run(OneWaits(a), [Asked(2, b, NoBook), Loaded(1, ToBook)],
                State(None, map[], map[2 := (b, Resolved(b, NoBook)), 1 := (a, Resolved(b, ToBook))]))
    ensures Run(OneWaits(a), [Asked(2, b, ToBook), Loaded(1, ToBook)],
                State(None, map[], map[2 := (b, Resolved(b, ToBook)), 1 := (a, NoAddress)]))
  {
    RunOfTwo(OneWaits(a), Asked(2, b, NoBook), Loaded(1, ToBook));
    RunOfTwo(OneWaits(a), Asked(2, b, ToBook), Loaded(1, ToBook));
    assert map[1 := a] - {1} == map[] && map[1 := a] - {2} == map[1 := a];
  }
}
