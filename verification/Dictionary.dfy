/** CMCDictionary: a map kept in a plain object, with a list on the side for keys that name functions
    every object inherits. */
module Dictionary {
  import opened Options

  /** A stored value: a text, or anything else that is neither missing nor a function. A comparison with a
      text turns such a value into a text first: an array into its items with commas between, so that the
      array of the one text "undefined" compares as that text. */
  datatype Value<T> = Text(text: string) | Other(item: T, text: string)

  /** The value is equal to the text "undefined" as far as `==` and `!=` tell. */
  predicate LooksUndefined<T>(v: Value<T>) {
    v.text == "undefined"
  }

  // ----- What the dictionary means -----

  datatype Op<T> = Add(key: string, value: Value<T>) | Remove(key: string)

  /** What an operation is for. */
  function Intended<T>(m: map<string, Value<T>>, op: Op<T>): map<string, Value<T>> {
    match op
    case Add(k, v) => m[k := v]
    case Remove(k) => m - {k}
  }

  /** What an operation does: Remove tests whether the stored value differs from the text "undefined",
      so that values that look like it stay. Keys kept in the list go whatever they hold. */
  function Actual<T>(inherited: set<string>, m: map<string, Value<T>>, op: Op<T>): map<string, Value<T>> {
    match op
    case Add(k, v) => m[k := v]
    case Remove(k) => if k in m && k !in inherited && LooksUndefined(m[k]) then m else m - {k}
  }

  /** Remove fails to remove exactly what looks like the text "undefined" under a key that is not inherited. */
  lemma RemoveWorksUnless<T>(inherited: set<string>, m: map<string, Value<T>>, k: string)
    ensures Actual(inherited, m, Remove(k)) == Intended(m, Remove(k))
       <==> !(k in m && k !in inherited && LooksUndefined(m[k]))
  {
    assert k !in m - {k};
  }

  /** Keys and values that show the failure: the text, and the array that holds it. */
  lemma RemoveCanFail(inherited: set<string>)
    requires "k" !in inherited && "l" !in inherited
    ensures var m: map<string, Value<seq<string>>> :=
        map["k" := Text("undefined"), "l" := Other(["undefined"], "undefined")];
      "k" in Actual(inherited, m, Remove("k")) && "l" in Actual(inherited, m, Remove("l"))
  {
  }

  function IntendedRun<T>(m: map<string, Value<T>>, ops: seq<Op<T>>): map<string, Value<T>>
    decreases |ops|
  {
    if ops == [] then m else IntendedRun(Intended(m, ops[0]), ops[1..])
  }

  function ActualRun<T>(inherited: set<string>, m: map<string, Value<T>>, ops: seq<Op<T>>): map<string, Value<T>>
    decreases |ops|
  {
    if ops == [] then m else ActualRun(inherited, Actual(inherited, m, ops[0]), ops[1..])
  }

  /** A run that stores nothing that looks like the text "undefined" under a key that is not inherited has the
      intended effect. */
  lemma {:induction false} RunAsIntended<T>(inherited: set<string>, m: map<string, Value<T>>, ops: seq<Op<T>>)
    requires forall k | k in m && k !in inherited :: !LooksUndefined(m[k])
    requires forall op | op in ops && op.Add? && op.key !in inherited :: !LooksUndefined(op.value)
    ensures ActualRun(inherited, m, ops) == IntendedRun(m, ops)
    decreases |ops|
  {
    if ops != [] {
      assert ops[0] in ops;
      RunAsIntended(inherited, Intended(m, ops[0]), ops[1..]);
    }
  }

  /** No Remove of the run meets a live value that looks like the text "undefined" under a key that is not
      inherited. */
  predicate NoneStays<T>(inherited: set<string>, m: map<string, Value<T>>, ops: seq<Op<T>>)
    decreases |ops|
  {
    ops == []
    || (!(ops[0].Remove? && ops[0].key in m && ops[0].key !in inherited && LooksUndefined(m[ops[0].key]))
        && NoneStays(inherited, Intended(m, ops[0]), ops[1..]))
  }

  lemma RunOfOne<T>(inherited: set<string>, m: map<string, Value<T>>, op: Op<T>)
    ensures ActualRun(inherited, m, [op]) == Actual(inherited, m, op)
    ensures IntendedRun(m, [op]) == Intended(m, op)
  {
    assert [op][1..] == [];
    assert ActualRun(inherited, m, [op]) == ActualRun(inherited, Actual(inherited, m, op), []);
    assert IntendedRun(m, [op]) == IntendedRun(Intended(m, op), []);
  }

  /** After each operation of a run the dictionary holds what it is to hold exactly when none stays. */
  lemma {:induction false} RunExactly<T>(inherited: set<string>, m: map<string, Value<T>>, ops: seq<Op<T>>)
    ensures (forall i | 0 <= i <= |ops| :: ActualRun(inherited, m, ops[..i]) == IntendedRun(m, ops[..i]))
       <==> NoneStays(inherited, m, ops)
    decreases |ops|
  {
    if ops != [] {
      var op, rest := ops[0], ops[1..];
      if op.Remove? {
        RemoveWorksUnless(inherited, m, op.key);
      }
      RunOfOne(inherited, m, op);
      assert ops[..1] == [op];
      RunExactly(inherited, Intended(m, op), rest);
      forall i | 0 < i <= |ops|
        ensures ActualRun(inherited, m, ops[..i]) == ActualRun(inherited, Actual(inherited, m, op), rest[..i - 1])
        ensures IntendedRun(m, ops[..i]) == IntendedRun(Intended(m, op), rest[..i - 1])
      {
        assert ops[..i][0] == op && ops[..i][1..] == rest[..i - 1];
      }
      if forall i | 0 <= i <= |ops| :: ActualRun(inherited, m, ops[..i]) == IntendedRun(m, ops[..i]) {
        forall i | 0 <= i <= |rest|
          ensures ActualRun(inherited, Intended(m, op), rest[..i]) == IntendedRun(Intended(m, op), rest[..i])
        {
          assert ActualRun(inherited, m, ops[..i + 1]) == IntendedRun(m, ops[..i + 1]);
        }
      }
    }
  }

  /** The last operation on a key decides what the dictionary holds under it, except that a Remove leaves a value
      that looks like the text "undefined" where it is, unless the key is inherited. */
  lemma {:induction false} LastOperationDecides<T>(inherited: set<string>, m: map<string, Value<T>>,
                                                   before: seq<Op<T>>, op: Op<T>, after: seq<Op<T>>)
    requires forall o | o in after :: o.key != op.key
    ensures var k, b, r := op.key, ActualRun(inherited, m, before), ActualRun(inherited, m, before + [op] + after);
      && (op.Add? ==> k in r && r[k] == op.value)
      && (op.Remove? ==> (k in r <==> k in b && k !in inherited && LooksUndefined(b[k])))
      && (op.Remove? && k in r ==> r[k] == b[k])
    decreases |before|
  {
    if before != [] {
      assert (before + [op] + after)[1..] == before[1..] + [op] + after;
      LastOperationDecides(inherited, Actual(inherited, m, before[0]), before[1..], op, after);
    } else {
      assert ([op] + after)[1..] == after;
      assert before + [op] + after == [op] + after;
      OthersKeep(inherited, Actual(inherited, m, op), after, op.key);
    }
  }

  lemma {:induction false} OthersKeep<T>(inherited: set<string>, m: map<string, Value<T>>, ops: seq<Op<T>>, k: string)
    requires forall o | o in ops :: o.key != k
    ensures k in ActualRun(inherited, m, ops) <==> k in m
    ensures k in m ==> ActualRun(inherited, m, ops)[k] == m[k]
    decreases |ops|
  {
    if ops != [] {
      assert ops[0] in ops;
      OthersKeep(inherited, Actual(inherited, m, ops[0]), ops[1..], k);
    }
  }

  // ----- The code -----

  datatype Item<T> = Item(key: string, value: Value<T>)

  predicate DistinctKeys<T>(items: seq<Item<T>>) {
    forall i, j | 0 <= i < j < |items| :: items[i].key != items[j].key
  }

  /** The map a list of items spells; later items win. */
  function ToMap<T>(items: seq<Item<T>>): map<string, Value<T>> {
    if items == [] then map[]
    else var last := items[|items| - 1]; ToMap(items[..|items| - 1])[last.key := last.value]
  }

  predicate HasKey<T>(items: seq<Item<T>>, k: string) {
    exists i :: 0 <= i < |items| && items[i].key == k
  }

  /** Without repeated keys, every item says what its key holds. */
  lemma {:induction false} ToMapItem<T>(items: seq<Item<T>>, i: nat)
    requires DistinctKeys(items) && i < |items|
    ensures items[i].key in ToMap(items) && ToMap(items)[items[i].key] == items[i].value
  {
    var last := |items| - 1;
    if i < last {
      ToMapItem(items[..last], i);
    }
  }

  lemma {:induction false} ToMapKeys<T>(items: seq<Item<T>>, k: string)
    ensures k in ToMap(items) <==> HasKey(items, k)
  {
    if items != [] {
      var front, last := items[..|items| - 1], |items| - 1;
      ToMapKeys(front, k);
      if HasKey(front, k) {
        var i :| 0 <= i < |front| && front[i].key == k;
        assert items[i].key == k;
      }
      if HasKey(items, k) && items[last].key != k {
        var i :| 0 <= i < |items| && items[i].key == k;
        assert front[i].key == k;
      }
    }
  }

  /** Items with other keys than `k`s say nothing of `k`. */
  lemma ToMapLacks<T>(items: seq<Item<T>>, k: string)
    requires forall i | 0 <= i < |items| :: items[i].key != k
    ensures k !in ToMap(items)
  {
    ToMapKeys(items, k);
  }

  lemma {:induction false} ToMapConcat<T>(a: seq<Item<T>>, b: seq<Item<T>>)
    ensures ToMap(a + b) == ToMap(a) + ToMap(b)
  {
    if b == [] {
      assert a + b == a;
    } else {
      var front := b[..|b| - 1];
      assert (a + b)[..|a + b| - 1] == a + front;
      ToMapConcat(a, front);
    }
  }

  function Cut<T>(items: seq<Item<T>>, i: nat): seq<Item<T>>
    requires i < |items|
  {
    items[..i] + items[i + 1..]
  }

  lemma CutAt<T>(items: seq<Item<T>>, i: nat, j: nat)
    requires i < |items| && j < |items| - 1
    ensures Cut(items, i)[j] == items[if j < i then j else j + 1]
  {
  }

  lemma CutMembers<T>(items: seq<Item<T>>, i: nat)
    requires i < |items|
    ensures forall j | 0 <= j < |items| - 1 :: Cut(items, i)[j] in items
  {
    forall j | 0 <= j < |items| - 1 ensures Cut(items, i)[j] in items {
      CutAt(items, i, j);
    }
  }

  lemma CutDistinct<T>(items: seq<Item<T>>, i: nat)
    requires DistinctKeys(items) && i < |items|
    ensures DistinctKeys(Cut(items, i))
  {
    var cut := Cut(items, i);
    forall j, k | 0 <= j < k < |cut| ensures cut[j].key != cut[k].key {
      CutAt(items, i, j);
      CutAt(items, i, k);
    }
  }

  lemma {:induction false} CutMap<T>(items: seq<Item<T>>, i: nat)
    requires DistinctKeys(items) && i < |items|
    ensures ToMap(Cut(items, i)) == ToMap(items) - {items[i].key}
  {
    var last := |items| - 1;
    var front := items[..last];
    if i == last {
      assert Cut(items, i) == front;
      ToMapLacks(front, items[i].key);
    } else {
      assert Cut(items, i) == Cut(front, i) + [items[last]];
      assert (Cut(front, i) + [items[last]])[..|items| - 2] == Cut(front, i);
      CutMap(front, i);
      RemoveThenSet(ToMap(front), items[i].key, items[last].key, items[last].value);
    }
  }

  /** Without one item, the list says all it said but that item's key, which no item has any more. */
  lemma CutItem<T>(items: seq<Item<T>>, i: nat)
    requires DistinctKeys(items) && i < |items|
    ensures DistinctKeys(Cut(items, i)) && ToMap(Cut(items, i)) == ToMap(items) - {items[i].key}
    ensures forall j | 0 <= j < |Cut(items, i)| :: Cut(items, i)[j] in items
  {
    CutMap(items, i);
    CutDistinct(items, i);
    CutMembers(items, i);
  }

  lemma RemoveThenSet<T>(m: map<string, Value<T>>, k: string, l: string, v: Value<T>)
    requires k != l
    ensures (m - {k})[l := v] == m[l := v] - {k}
  {
  }

  lemma {:induction false} ReplaceMap<T>(items: seq<Item<T>>, i: nat, v: Value<T>)
    requires DistinctKeys(items) && i < |items|
    ensures ToMap(items[i := Item(items[i].key, v)]) == ToMap(items)[items[i].key := v]
  {
    var last := |items| - 1;
    var r := items[i := Item(items[i].key, v)];
    if i == last {
      assert r[..last] == items[..last];
    } else {
      assert r[..last] == items[..last][i := Item(items[i].key, v)];
      ReplaceMap(items[..last], i, v);
    }
  }

  lemma AppendMap<T>(items: seq<Item<T>>, x: Item<T>)
    requires DistinctKeys(items) && x.key !in ToMap(items)
    ensures DistinctKeys(items + [x]) && ToMap(items + [x]) == ToMap(items)[x.key := x.value]
  {
    assert (items + [x])[..|items|] == items;
    forall i | 0 <= i < |items| ensures items[i].key != x.key {
      ToMapItem(items, i);
    }
  }

  /** The calls a loop over `items` makes: up to and including the first that returns false. */
  function Visits<T>(items: seq<Item<T>>, func: Item<T> -> bool): seq<Item<T>> {
    if items == [] then [] else [items[0]] + if func(items[0]) then Visits(items[1..], func) else []
  }

  predicate AllTrue<T>(items: seq<Item<T>>, func: Item<T> -> bool) {
    items == [] || (func(items[0]) && AllTrue(items[1..], func))
  }

  lemma {:induction false} VisitsConcat<T>(a: seq<Item<T>>, b: seq<Item<T>>, func: Item<T> -> bool)
    ensures Visits(a + b, func) == if AllTrue(a, func) then a + Visits(b, func) else Visits(a, func)
  {
    if a == [] {
      assert a + b == b;
    } else {
      var rest := a[1..];
      assert (a + b)[1..] == rest + b && (a + b)[0] == a[0];
      VisitsConcat(rest, b, func);
      if func(a[0]) {
        assert Visits(a + b, func) == [a[0]] + Visits(rest + b, func);
        assert Visits(a, func) == [a[0]] + Visits(rest, func);
        assert [a[0]] + (rest + Visits(b, func)) == a + Visits(b, func);
      }
    }
  }

  lemma VisitsStep<T>(items: seq<Item<T>>, i: nat, func: Item<T> -> bool)
    requires i < |items|
    ensures items[..i + 1] == items[..i] + [items[i]]
    ensures items[..i] + Visits(items[i..], func)
         == items[..i + 1] + if func(items[i]) then Visits(items[i + 1..], func) else []
    ensures AllTrue(items[i..], func) == (func(items[i]) && AllTrue(items[i + 1..], func))
  {
    assert items[i..][1..] == items[i + 1..];
  }

  lemma {:induction false} VisitsAll<T>(items: seq<Item<T>>)
    ensures Visits(items, _ => true) == items
  {
    if items != [] {
      VisitsAll(items[1..]);
    }
  }

  lemma UpdateLeft<T>(m: map<string, Value<T>>, n: map<string, Value<T>>, k: string, v: Value<T>)
    requires k !in n
    ensures m[k := v] + n == (m + n)[k := v]
  {
  }

  lemma RemoveEither<T>(m: map<string, Value<T>>, n: map<string, Value<T>>, k: string)
    ensures k !in m ==> m + (n - {k}) == (m + n) - {k}
    ensures k !in n ==> (m - {k}) + n == (m + n) - {k}
  {
  }

  lemma ReplaceKeys<T>(items: seq<Item<T>>, i: nat, v: Value<T>)
    requires DistinctKeys(items) && i < |items|
    ensures DistinctKeys(items[i := Item(items[i].key, v)])
  {
    var r := items[i := Item(items[i].key, v)];
    assert forall j | 0 <= j < |items| :: r[j].key == items[j].key;
  }

  // ----- Orders -----

  /** One item in two places counts twice. */
  lemma CountsTwice<T>(items: seq<Item<T>>, i: nat, j: nat)
    requires i < j < |items| && items[i] == items[j]
    ensures multiset(items)[items[i]] > 1
  {
    assert items == items[..j] + items[j..] && items[..j][i] == items[i] && items[j..][0] == items[i];
    assert multiset(items) == multiset(items[..j]) + multiset(items[j..]);
    assert items[i] in items[..j] && items[i] in items[j..];
  }

  lemma CountsOnce<T>(items: seq<Item<T>>, i: nat)
    requires DistinctKeys(items) && i < |items|
    ensures multiset(items)[items[i]] == 1
  {
    var x, front, back := items[i], items[..i], items[i + 1..];
    assert items == front + [x] + back;
    assert multiset(items) == multiset(front) + multiset{x} + multiset(back);
    assert forall k | 0 <= k < |back| :: back[k] == items[i + 1 + k];
    assert x !in front && x !in back;
  }

  lemma PlaceOf<T>(items: seq<Item<T>>, x: Item<T>) returns (i: nat)
    requires x in multiset(items)
    ensures i < |items| && items[i] == x
  {
    i :| 0 <= i < |items| && items[i] == x;
  }

  lemma OrderDistinct<T>(order: seq<Item<T>>, items: seq<Item<T>>)
    requires DistinctKeys(items) && multiset(order) == multiset(items)
    ensures DistinctKeys(order)
  {
    forall i, j | 0 <= i < j < |order| ensures order[i].key != order[j].key {
      assert order[i] in multiset(order) && order[j] in multiset(order);
      var k := PlaceOf(items, order[i]);
      var l := PlaceOf(items, order[j]);
      if k == l {
        CountsTwice(order, i, j);
        CountsOnce(items, k);
      }
    }
  }

  lemma ItemHolds<T>(order: seq<Item<T>>, items: seq<Item<T>>, i: nat)
    requires DistinctKeys(items) && multiset(order) == multiset(items) && i < |order|
    ensures order[i].key in ToMap(items) && ToMap(items)[order[i].key] == order[i].value
  {
    assert order[i] in multiset(order);
    var k := PlaceOf(items, order[i]);
    ToMapItem(items, k);
  }

  /** The same items in another order say the same. */
  lemma OrderSaysTheSame<T>(order: seq<Item<T>>, items: seq<Item<T>>)
    requires DistinctKeys(items) && multiset(order) == multiset(items)
    ensures DistinctKeys(order) && ToMap(order) == ToMap(items)
  {
    OrderDistinct(order, items);
    var m, n := ToMap(order), ToMap(items);
    forall k | k in m ensures k in n && n[k] == m[k] {
      ToMapKeys(order, k);
      var i :| 0 <= i < |order| && order[i].key == k;
      ItemHolds(order, items, i);
      ToMapItem(order, i);
    }
    forall k | k in n ensures k in m {
      ToMapKeys(items, k);
      var i :| 0 <= i < |items| && items[i].key == k;
      ItemHolds(items, order, i);
    }
  }

  class CMCDictionary<T(==)> {
    /** The names of the functions every object inherits. */
    const inherited: set<string>
    /** The object's own properties, in the order they were added. */
    var own: seq<Item<T>>
    var overflows: seq<Item<T>>

    constructor (inherited: set<string>)
      ensures Valid() && Contents() == map[] && this.inherited == inherited
    {
      this.inherited := inherited;
      own, overflows := [], [];
    }

    /** No key twice in either part; the list holds inherited names only and the object none. */
    ghost predicate Valid()
      reads this
    {
      && DistinctKeys(own) && DistinctKeys(overflows)
      && (forall i | 0 <= i < |own| :: own[i].key !in inherited)
      && (forall i | 0 <= i < |overflows| :: overflows[i].key in inherited)
    }

    ghost function Contents(): map<string, Value<T>>
      reads this
    {
      ToMap(own) + ToMap(overflows)
    }

    /** A key is looked for in the part where it belongs. */
    lemma ContentsByPart(key: string)
      requires Valid()
      ensures key in inherited ==> key !in ToMap(own)
      ensures key !in inherited ==> key !in ToMap(overflows)
    {
      if key in inherited {
        ToMapLacks(own, key);
      } else {
        ToMapLacks(overflows, key);
      }
    }

    /** The place of a key in a list; -1 when it is not there. */
    static method IndexOfKey(items: seq<Item<T>>, key: string) returns (index: int)
      requires DistinctKeys(items)
      ensures -1 <= index < |items|
      ensures index >= 0 ==> items[index].key == key && key in ToMap(items) && ToMap(items)[key] == items[index].value
      ensures index < 0 ==> key !in ToMap(items)
    {
      for i := 0 to |items|
        invariant forall j | 0 <= j < i :: items[j].key != key
      {
        if items[i].key == key {
          ToMapItem(items, i);
          return i;
        }
      }
      ToMapLacks(items, key);
      index := -1;
    }

    method GetItem(key: string) returns (item: Option<Value<T>>)
      requires Valid()
      ensures item == if key in Contents() then Some(Contents()[key]) else None
    {
      ContentsByPart(key);
      if key in inherited {
        var index := IndexOfKey(overflows, key);
        item := if index >= 0 then Some(overflows[index].value) else None;
      } else {
        var index := IndexOfKey(own, key);
        item := if index >= 0 then Some(own[index].value) else None;
      }
    }

    method Remove(key: string)
      requires Valid()
      modifies this`own, this`overflows
      ensures Valid() && Contents() == Actual(inherited, old(Contents()), Op.Remove(key))
      ensures key in inherited ==> own == old(own) && Contents() == old(Contents()) - {key}
    {
      ContentsByPart(key);
      RemoveEither(ToMap(own), ToMap(overflows), key);
      if key in inherited {
        var index := IndexOfKey(overflows, key);
        if index >= 0 {
          CutItem(overflows, index);
          overflows := Cut(overflows, index);
        }
      } else {
        var index := IndexOfKey(own, key);
        if index >= 0 && !LooksUndefined(own[index].value) {
          CutItem(own, index);
          own := Cut(own, index);
        }
      }
    }

    method Add(key: string, value: Value<T>)
      requires Valid()
      modifies this`own, this`overflows
      ensures Valid() && Contents() == Actual(inherited, old(Contents()), Op.Add(key, value))
    {
      if key in inherited {
        var item := GetItem(key);
        if item.Some? {
          Remove(key);
        }
        PushOverflow(key, value);
      } else {
        SetOwn(key, value);
      }
    }

    method PushOverflow(key: string, value: Value<T>)
      requires Valid() && key in inherited && key !in Contents()
      modifies this`overflows
      ensures Valid() && Contents() == old(Contents())[key := value]
    {
      AppendMap(overflows, Item(key, value));
      overflows := overflows + [Item(key, value)];
    }

    /** `mMap[key] = value`: an existing property keeps its place. */
    method SetOwn(key: string, value: Value<T>)
      requires Valid() && key !in inherited
      modifies this`own
      ensures Valid() && Contents() == old(Contents())[key := value]
    {
      ContentsByPart(key);
      UpdateLeft(ToMap(own), ToMap(overflows), key, value);
      var index := IndexOfKey(own, key);
      if index >= 0 {
        ReplaceMap(own, index, value);
        ReplaceKeys(own, index, value);
        own := own[index := Item(own[index].key, value)];
      } else {
        AppendMap(own, Item(key, value));
        own := own + [Item(key, value)];
      }
    }

    /** Calls `func` on the items of the object, then on those of the list, until it returns false. `order` is the
        order in which the object lists its properties: the runtime puts keys that look like integers before others,
        and the language leaves it open. */
    method ForEach(order: seq<Item<T>>, func: Item<T> -> bool) returns (visited: seq<Item<T>>)
      requires Valid() && multiset(order) == multiset(own)
      ensures visited == Visits(order + overflows, func)
    {
      VisitsConcat(order, overflows, func);
      var stopped;
      visited, stopped := ForEachIn(order, func);
      if !stopped {
        var rest;
        rest, stopped := ForEachIn(overflows, func);
        visited := visited + rest;
      }
    }

    static method ForEachIn(items: seq<Item<T>>, func: Item<T> -> bool)
      returns (visited: seq<Item<T>>, stopped: bool)
      ensures visited == Visits(items, func)
      ensures stopped <==> !AllTrue(items, func)
      ensures !stopped ==> visited == items
    {
      visited := [];
      for i := 0 to |items|
        invariant visited == items[..i]
        invariant Visits(items, func) == visited + Visits(items[i..], func)
        invariant AllTrue(items, func) == AllTrue(items[i..], func)
      {
        VisitsStep(items, i, func);
        visited := visited + [items[i]];
        if !func(items[i]) {
          return visited, true;
        }
      }
      stopped := false;
    }

    /** A loop that is not stopped meets every live key once, with its value, in whatever order. */
    lemma ForEachMeetsAll(order: seq<Item<T>>)
      requires Valid() && multiset(order) == multiset(own)
      ensures DistinctKeys(order + overflows)
      ensures ToMap(order + overflows) == Contents()
      ensures Visits(order + overflows, _ => true) == order + overflows
    {
      OrderSaysTheSame(order, own);
      PartsDistinct(order);
      ToMapConcat(order, overflows);
      VisitsAll(order + overflows);
    }

    lemma PartsDistinct(order: seq<Item<T>>)
      requires Valid() && multiset(order) == multiset(own) && DistinctKeys(order)
      ensures DistinctKeys(order + overflows)
    {
      var all := order + overflows;
      forall i | 0 <= i < |order| ensures order[i].key !in inherited {
        assert order[i] in multiset(order);
        var k := PlaceOf(own, order[i]);
      }
      forall i, j | 0 <= i < j < |all| ensures all[i].key != all[j].key {
        if j < |order| {
          assert all[i] == order[i] && all[j] == order[j];
        } else if i < |order| {
          assert all[i] == order[i] && all[j] == overflows[j - |order|];
        } else {
          assert all[i] == overflows[i - |order|] && all[j] == overflows[j - |order|];
        }
      }
    }
  }
}
