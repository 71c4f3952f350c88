/** Loading data files as scripts: a queue that keeps files with the same base name from being
    loaded at the same time, because each script leaves its content in a table keyed by that name. */
module ScriptQueue {
  import opened Options
  import Url

  /** The base name of each file, which is the name its script stores under; the script that stands
      for a file; and each script's content. */
  datatype Site = Site(name: string -> string, script: string -> string, content: string -> string)

  function JsFile(file: string): string {
    Url.ToExtension(file, "js")
  }

  /** A file being loaded or waiting, or a script element for it, with the callback to run. */
  datatype Pending = Pending(path: string, callback: nat)

  /** A callback that ran, and what it was given for which file. */
  datatype Delivery = Delivery(path: string, callback: nat, content: Option<string>)

  /** `strings` is _FilePathToXmlStringMap, `loading` is _LoadingFilesPathMap in insertion order and
      `fromQueue` is _LoadingFromQueue. The script elements whose onload is still to come are in `appended`
      until they run and then in `executed`; `delivered` are the callbacks that ran. */
  datatype State = State(strings: map<string, string>, loading: seq<Pending>, fromQueue: bool,
                         appended: multiset<Pending>, executed: multiset<Pending>, delivered: seq<Delivery>)

  const EMPTY := State(map[], [], false, multiset{}, multiset{}, [])

  /** The script elements in the page. */
  function Page(s: State): multiset<Pending> {
    s.appended + s.executed
  }

  // ----- The dictionary of files being loaded -----

  predicate Has(loading: seq<Pending>, path: string) {
    exists i :: 0 <= i < |loading| && loading[i].path == path
  }

  /** A key keeps its place when it is added again. */
  function Add(loading: seq<Pending>, path: string, callback: nat): seq<Pending> {
    if loading == [] then [Pending(path, callback)]
    else if loading[0].path == path then [Pending(path, callback)] + loading[1..]
    else [loading[0]] + Add(loading[1..], path, callback)
  }

  function Remove(loading: seq<Pending>, path: string): seq<Pending> {
    if loading == [] then []
    else if loading[0].path == path then loading[1..]
    else [loading[0]] + Remove(loading[1..], path)
  }

  /** The first other file with the base name of `path`. */
  function SameName(loading: seq<Pending>, path: string, site: Site): (r: Option<Pending>)
    ensures r.Some? ==> r.value in loading && r.value.path != path && site.name(r.value.path) == site.name(path)
    ensures r.None? ==> forall x | x in loading :: x.path == path || site.name(x.path) != site.name(path)
  {
    if loading == [] then None
    else if site.name(loading[0].path) == site.name(path) && loading[0].path != path then Some(loading[0])
    else SameName(loading[1..], path, site)
  }

  // ----- The three steps -----

  /** GetXmlDoc: the file joins the dictionary, and a script element for it is appended unless another file
      with its name is there (and the request does not come from the queue itself). */
  function Request(s: State, path: string, callback: nat, site: Site): State {
    var loading := Add(s.loading, path, callback);
    if s.fromQueue || SameName(loading, path, site).None?
    then s.(loading := loading, fromQueue := false, appended := s.appended + multiset{Pending(path, callback)})
    else s.(loading := loading)
  }

  /** A script runs: it stores its content under its base name. */
  function Execute(s: State, x: Pending, site: Site): State {
    s.(strings := s.strings[site.name(x.path) := site.content(x.path)],
       appended := s.appended - multiset{x}, executed := s.executed + multiset{x})
  }

  /** The content stored under a name, if any. */
  function Stored(strings: map<string, string>, name: string): Option<string> {
    if name in strings then Some(strings[name]) else None
  }

  /** The state while a script's file leaves and before its successor starts. */
  function Left(s: State, x: Pending): State {
    s.(loading := Remove(s.loading, x.path), strings := s.strings - {x.path}, executed := s.executed - multiset{x})
  }

  /** A waiting file starts: it leaves the dictionary and is requested from the queue. */
  function Restart(t: State, x: Pending, site: Site): State {
    Request(t.(loading := Remove(t.loading, x.path), fromQueue := true), x.path, x.callback, site)
  }

  /** The next file with the name of `path`, if there is one, starts. */
  function Started(t: State, path: string, site: Site): State {
    match SameName(t.loading, path, site)
    case None => t
    case Some(x) => Restart(t, x, site)
  }

  /** OnScriptLoaded: the file leaves the dictionary, its content is looked up by name, the next file
      with that name starts, and the callback runs. */
  function Loaded(s: State, x: Pending, site: Site): State {
    var content := Stored(s.strings, site.name(x.path));
    var u := Started(Left(s, x), x.path, site);
    u.(delivered := u.delivered + [Delivery(x.path, x.callback, content)])
  }

  // ----- Runs -----

  datatype Event = Requested(path: string, callback: nat) | Executed(x: Pending) | OnLoad(x: Pending)

  /** What may happen: a file in a folder is requested, a script in the page runs once, and then reports that
      it loaded. */
  predicate Legal(s: State, e: Event) {
    match e
    case Requested(path, _) => '/' in path
    case Executed(x) => x in s.appended
    case OnLoad(x) => x in s.executed
  }

  function Step(s: State, e: Event, site: Site): State
    requires Legal(s, e)
  {
    match e
    case Requested(path, callback) => Request(s, path, callback, site)
    case Executed(x) => Execute(s, x, site)
    case OnLoad(x) => Loaded(s, x, site)
  }

  /** `t` is reached from `s` by `events`. */
  ghost predicate Run(s: State, events: seq<Event>, t: State, site: Site)
    decreases |events|
  {
    if events == [] then s == t
    else Legal(s, events[0]) && Run(Step(s, events[0], site), events[1..], t, site)
  }

  // ----- Which requests are safe -----

  function Files(loading: seq<Pending>): set<Pending> {
    set x | x in loading
  }

  /** `y` is the only script of its name in the page. */
  predicate Alone(page: multiset<Pending>, y: Pending, site: Site) {
    page[y] == 1 && forall z | z in page && site.name(z.path) == site.name(y.path) :: z == y
  }

  /** A script `y` stands in the way of a request for `path` when it has the same name and is for `path`, with
      another file of the name pending; or is for another file, and `path` is pending, `y` is not, or `y` is not
      the only script of its name. */
  predicate Obstacle(s: State, y: Pending, path: string, site: Site) {
    && site.name(y.path) == site.name(path)
    && if y.path == path then SameName(s.loading, path, site).Some?
       else Has(s.loading, path) || y !in s.loading || !Alone(Page(s), y, site)
  }

  /** A request for `path` is safe when the scripts with its name in the page are for the same file and no other
      file with the name is pending; or when there is one such script, for another file that is pending
      itself, and `path` is not pending. */
  predicate Safe(s: State, path: string, site: Site) {
    forall y | y in Page(s) :: !Obstacle(s, y, path, site)
  }

  predicate SafeEvent(s: State, e: Event, site: Site) {
    e.Requested? ==> Safe(s, e.path, site)
  }

  /** All requests of a run are safe when they are made. */
  ghost predicate SafeRun(s: State, events: seq<Event>, site: Site)
    decreases |events|
  {
    events != [] && Legal(s, events[0]) ==>
      SafeEvent(s, events[0], site) && SafeRun(Step(s, events[0], site), events[1..], site)
  }

  // ----- What every state keeps -----

  /** Base names hold no slash. */
  ghost predicate BareNames(site: Site) {
    forall p :: '/' !in site.name(p)
  }

  predicate NoRepeats(loading: seq<Pending>) {
    forall i, j | 0 <= i < j < |loading| :: loading[i].path != loading[j].path
  }

  predicate PathIn(page: multiset<Pending>, path: string) {
    exists y :: y in page && y.path == path
  }

  /** A script with this name is in the page. */
  predicate HasScript(page: multiset<Pending>, name: string, site: Site) {
    exists y :: y in page && site.name(y.path) == name
  }

  /** Every file is in a folder. */
  predicate InFolders(files: set<Pending>, page: multiset<Pending>) {
    (forall x | x in files :: '/' in x.path) && forall x | x in page :: '/' in x.path
  }

  /** Scripts with the same name are for the same file. */
  predicate OneFile(page: multiset<Pending>, site: Site) {
    forall x, y | x in page && y in page && site.name(x.path) == site.name(y.path) :: x.path == y.path
  }

  /** While another file with the name of a script waits, it is the only such script and its file is pending. */
  predicate Queued(files: set<Pending>, page: multiset<Pending>, site: Site) {
    forall y, x | y in page && x in files && site.name(x.path) == site.name(y.path) && x.path != y.path ::
      y in files && Alone(page, y, site)
  }

  /** A pending file that has scripts has the callback of one of them. */
  predicate Latest(files: set<Pending>, page: multiset<Pending>) {
    forall x | x in files && PathIn(page, x.path) :: x in page
  }

  /** For every pending file, a script with its name is in the page. */
  predicate Served(files: set<Pending>, page: multiset<Pending>, site: Site) {
    forall x | x in files :: HasScript(page, site.name(x.path), site)
  }

  predicate Orderly(files: set<Pending>, page: multiset<Pending>, site: Site) {
    InFolders(files, page) && OneFile(page, site) && Queued(files, page, site) && Latest(files, page)
    && Served(files, page, site)
  }

  /** The table is keyed by names; a script that ran finds its own content there; and every callback
      was given the content of its own file. */
  predicate RightContent(strings: map<string, string>, executed: multiset<Pending>, delivered: seq<Delivery>,
                         site: Site)
  {
    && (forall name | name in strings :: '/' !in name)
    && (forall x | x in executed :: Stored(strings, site.name(x.path)) == Some(site.content(x.path)))
    && (forall d | d in delivered :: d.content == Some(site.content(d.path)))
  }

  predicate Inv(s: State, site: Site) {
    && !s.fromQueue && NoRepeats(s.loading) && Orderly(Files(s.loading), Page(s), site)
    && RightContent(s.strings, s.executed, s.delivered, site)
  }

  // ----- Dictionary facts -----

  lemma {:induction false} AddMembers(loading: seq<Pending>, path: string, callback: nat)
    requires NoRepeats(loading)
    ensures forall y :: y in Add(loading, path, callback) <==>
              y == Pending(path, callback) || (y in loading && y.path != path)
    ensures NoRepeats(Add(loading, path, callback))
  {
    if loading != [] {
      var rest := loading[1..];
      assert NoRepeats(rest) && loading == [loading[0]] + rest;
      assert forall y | y in rest :: y.path != loading[0].path;
      AddMembers(rest, path, callback);
      var r := Add(loading, path, callback);
      if loading[0].path != path {
        assert r == [loading[0]] + Add(rest, path, callback);
        forall i, j | 0 <= i < j < |r| ensures r[i].path != r[j].path {
          assert r[j] in Add(rest, path, callback);
        }
      } else {
        assert r == [Pending(path, callback)] + rest;
      }
    }
  }

  lemma {:induction false} RemoveMembers(loading: seq<Pending>, path: string)
    requires NoRepeats(loading)
    ensures forall y :: y in Remove(loading, path) <==> y in loading && y.path != path
    ensures NoRepeats(Remove(loading, path))
  {
    if loading != [] {
      var rest := loading[1..];
      assert NoRepeats(rest);
      assert forall y :: y in loading <==> y == loading[0] || y in rest;
      assert forall y | y in rest :: y.path != loading[0].path;
      RemoveMembers(rest, path);
      if loading[0].path != path {
        assert forall y | y in Remove(rest, path) :: y in rest;
      }
    }
  }

  lemma SameEntry(loading: seq<Pending>, y: Pending, z: Pending)
    requires NoRepeats(loading) && y in loading && z in loading && y.path == z.path
    ensures y == z
  {
    var i :| 0 <= i < |loading| && loading[i] == y;
    var j :| 0 <= j < |loading| && loading[j] == z;
  }

  lemma HasMember(loading: seq<Pending>, path: string)
    ensures Has(loading, path) <==> exists x :: x in loading && x.path == path
  {
    if x :| x in loading && x.path == path {
      var i :| 0 <= i < |loading| && loading[i] == x;
    }
  }

  /** The files but the one at `path`. */
  function Without(files: set<Pending>, path: string): set<Pending> {
    set x | x in files && x.path != path
  }

  lemma AddFiles(loading: seq<Pending>, x: Pending)
    requires NoRepeats(loading)
    ensures NoRepeats(Add(loading, x.path, x.callback))
    ensures Files(Add(loading, x.path, x.callback)) == Without(Files(loading), x.path) + {x}
  {
    AddMembers(loading, x.path, x.callback);
  }

  lemma RemoveFiles(loading: seq<Pending>, path: string)
    requires NoRepeats(loading)
    ensures NoRepeats(Remove(loading, path)) && Files(Remove(loading, path)) == Without(Files(loading), path)
  {
    RemoveMembers(loading, path);
  }

  /** Adding or removing `path` does not matter to the other files with its name. */
  lemma SameNameOthers(loading: seq<Pending>, path: string, callback: nat, site: Site)
    requires NoRepeats(loading)
    ensures SameName(Add(loading, path, callback), path, site).None? <==> SameName(loading, path, site).None?
    ensures SameName(Remove(loading, path), path, site).None? <==> SameName(loading, path, site).None?
  {
    AddMembers(loading, path, callback);
    RemoveMembers(loading, path);
  }

  // ----- Who is waiting -----

  /** The pending files that have no script in the page. */
  function Waiting(loading: seq<Pending>, page: multiset<Pending>): multiset<Pending> {
    if loading == [] then multiset{}
    else (if PathIn(page, loading[0].path) then multiset{} else multiset{loading[0]}) + Waiting(loading[1..], page)
  }

  lemma {:induction false} WaitingSame(loading: seq<Pending>, p: multiset<Pending>, q: multiset<Pending>)
    requires forall x | x in loading :: PathIn(p, x.path) <==> PathIn(q, x.path)
    ensures Waiting(loading, p) == Waiting(loading, q)
  {
    if loading != [] {
      WaitingSame(loading[1..], p, q);
    }
  }

  function IfWaiting(x: Pending, page: multiset<Pending>): multiset<Pending> {
    if PathIn(page, x.path) then multiset{} else multiset{x}
  }

  lemma {:induction false} WaitingRemove(loading: seq<Pending>, x: Pending, page: multiset<Pending>)
    requires NoRepeats(loading) && x in loading
    ensures Waiting(loading, page) == Waiting(Remove(loading, x.path), page) + IfWaiting(x, page)
  {
    var rest := loading[1..];
    assert NoRepeats(rest);
    if loading[0].path == x.path {
      SameEntry(loading, loading[0], x);
    } else {
      assert x in rest;
      WaitingRemove(rest, x, page);
    }
  }

  lemma {:induction false} RemoveMissing(loading: seq<Pending>, path: string)
    requires forall x | x in loading :: x.path != path
    ensures Remove(loading, path) == loading
  {
    if loading != [] {
      RemoveMissing(loading[1..], path);
    }
  }

  /** Adding a file: a file with its path that waits gives way to it. */
  lemma {:induction false} WaitingAdd(loading: seq<Pending>, x: Pending, page: multiset<Pending>)
    requires NoRepeats(loading)
    ensures Waiting(Add(loading, x.path, x.callback), page)
         == Waiting(Remove(loading, x.path), page) + IfWaiting(x, page)
  {
    if loading != [] {
      assert NoRepeats(loading[1..]);
      WaitingAdd(loading[1..], x, page);
    }
  }

  /** The callbacks run, each with its file, in order. */
  function Ran(delivered: seq<Delivery>): seq<Pending> {
    seq(|delivered|, i requires 0 <= i < |delivered| => Pending(delivered[i].path, delivered[i].callback))
  }

  /** The callbacks that wait, those that a script in the page holds, and those that ran. */
  function Accounted(s: State): multiset<Pending> {
    Waiting(s.loading, Page(s)) + Page(s) + multiset(Ran(s.delivered))
  }

  // ----- What each step does to the callbacks, in any state -----

  lemma {:induction false} ExecuteAccounts(s: State, x: Pending, site: Site)
    requires x in s.appended
    ensures Page(Execute(s, x, site)) == Page(s) && Accounted(Execute(s, x, site)) == Accounted(s)
  {
    assert Page(Execute(s, x, site)) == Page(s);
  }

  /** The file that starts after `x`'s script has loaded, if a script for it is in the page already. */
  function Redone(s: State, x: Pending, site: Site): multiset<Pending> {
    match SameName(Remove(s.loading, x.path), x.path, site)
    case None => multiset{}
    case Some(z) => IfStarted(z, Page(s))
  }

  lemma PathInMore(page: multiset<Pending>, z: Pending, path: string)
    ensures PathIn(page + multiset{z}, path) <==> PathIn(page, path) || z.path == path
  {
    if PathIn(page, path) {
      var y :| y in page && y.path == path;
      assert y in page + multiset{z};
    }
    assert z in page + multiset{z};
  }

  lemma {:induction false} WaitingMore(loading: seq<Pending>, page: multiset<Pending>, z: Pending)
    requires forall x | x in loading :: x.path != z.path
    ensures Waiting(loading, page + multiset{z}) == Waiting(loading, page)
  {
    forall x | x in loading ensures PathIn(page + multiset{z}, x.path) <==> PathIn(page, x.path) {
      PathInMore(page, z, x.path);
    }
    WaitingSame(loading, page + multiset{z}, page);
  }

  /** A file that starts moves to the end of the dictionary and gets a script. */
  lemma {:induction false} RestartLoading(t: State, z: Pending, site: Site)
    requires NoRepeats(t.loading) && z in t.loading
    ensures var u := Restart(t, z, site);
      && u == t.(loading := u.loading, fromQueue := false, appended := t.appended + multiset{z})
      && u.loading == Add(Remove(t.loading, z.path), z.path, z.callback)
      && NoRepeats(u.loading) && (forall y :: y in u.loading <==> y in t.loading)
  {
    RemoveMembers(t.loading, z.path);
    AddMembers(Remove(t.loading, z.path), z.path, z.callback);
    forall y ensures y in Restart(t, z, site).loading <==> y in t.loading {
      if y in t.loading && y.path == z.path {
        SameEntry(t.loading, y, z);
      }
    }
  }

  /** Starting a file that waits conserves the callbacks; starting one that has a script doubles its own. */
  lemma {:induction false} RestartAccounts(t: State, z: Pending, site: Site)
    requires NoRepeats(t.loading) && z in t.loading
    ensures var u := Restart(t, z, site);
      && Page(u) == Page(t) + multiset{z}
      && Waiting(u.loading, Page(u)) + IfWaiting(z, Page(t)) == Waiting(t.loading, Page(t))
  {
    var u, rest := Restart(t, z, site), Remove(t.loading, z.path);
    RestartLoading(t, z, site);
    RemoveMembers(t.loading, z.path);
    assert Page(u) == Page(t) + multiset{z};
    WaitingRemove(t.loading, z, Page(t));
    RemoveMissing(rest, z.path);
    WaitingAdd(rest, z, Page(u));
    PathInMore(Page(t), z, z.path);
    WaitingMore(rest, Page(t), z);
  }

  function IfStarted(z: Pending, page: multiset<Pending>): multiset<Pending> {
    if PathIn(page, z.path) then multiset{z} else multiset{}
  }

  lemma {:induction false} StartedAccounts(t: State, path: string, site: Site)
    requires NoRepeats(t.loading)
    ensures var u := Started(t, path, site);
      && u.delivered == t.delivered && NoRepeats(u.loading)
      && Waiting(u.loading, Page(u)) + Page(u) == Waiting(t.loading, Page(t)) + Page(t)
         + match SameName(t.loading, path, site) case None => multiset{} case Some(z) => IfStarted(z, Page(t))
  {
    var next := SameName(t.loading, path, site);
    if next.Some? {
      RestartLoading(t, next.value, site);
      RestartAccounts(t, next.value, site);
    }
  }

  lemma {:induction false} LeftAccounts(s: State, x: Pending)
    requires NoRepeats(s.loading) && x in s.executed
    ensures var t := Left(s, x);
      && NoRepeats(t.loading) && Page(t) + multiset{x} == Page(s)
      && Waiting(t.loading, Page(t)) == Waiting(s.loading, Page(s))
      && (forall y | y in t.loading :: y in s.loading && (PathIn(Page(t), y.path) <==> PathIn(Page(s), y.path)))
  {
    var t := Left(s, x);
    RemoveMembers(s.loading, x.path);
    assert Page(t) + multiset{x} == Page(s);
    assert x in Page(s) && PathIn(Page(s), x.path);
    if e :| e in s.loading && e.path == x.path {
      WaitingRemove(s.loading, e, Page(s));
    } else {
      HasMember(s.loading, x.path);
      RemoveMissing(s.loading, x.path);
    }
    forall y | y in t.loading ensures PathIn(Page(t), y.path) <==> PathIn(Page(s), y.path) {
      if PathIn(Page(s), y.path) {
        var z :| z in Page(s) && z.path == y.path;
        assert z in Page(t);
      }
    }
    WaitingSame(t.loading, Page(t), Page(s));
  }

  /** When a script has loaded, its callback runs; nothing is lost, and the callback of the next file is
      doubled if that file has a script in the page already. */
  lemma {:induction false} LoadedAccounts(s: State, x: Pending, site: Site)
    requires NoRepeats(s.loading) && x in s.executed
    ensures NoRepeats(Loaded(s, x, site).loading)
    ensures Accounted(Loaded(s, x, site)) == Accounted(s) + Redone(s, x, site)
  {
    var t := Left(s, x);
    LeftAccounts(s, x);
    StartedAccounts(t, x.path, site);
    LoadedIsStarted(s, x, site);
    AccountsAdd(Waiting(s.loading, Page(s)), Page(t), x, multiset(Ran(s.delivered)), Redone(s, x, site));
  }

  lemma LoadedIsStarted(s: State, x: Pending, site: Site)
    ensures var u, v := Started(Left(s, x), x.path, site), Loaded(s, x, site);
      && v.loading == u.loading && Page(v) == Page(u)
      && (u.delivered == s.delivered ==> multiset(Ran(v.delivered)) == multiset(Ran(s.delivered)) + multiset{x})
  {
    var u, v := Started(Left(s, x), x.path, site), Loaded(s, x, site);
    if u.delivered == s.delivered {
      assert Ran(v.delivered) == Ran(s.delivered) + [x];
    }
  }

  lemma AccountsAdd(w: multiset<Pending>, page: multiset<Pending>, x: Pending, ran: multiset<Pending>,
                    more: multiset<Pending>)
    ensures (w + page + more) + (ran + multiset{x}) == w + (page + multiset{x}) + ran + more
  {
  }

  /** A request adds its callback; it is lost when the file has a script and another file with its name is
      pending, and a waiting request for the same file is lost. */
  lemma {:induction false} RequestAccounts(s: State, x: Pending, site: Site)
    requires NoRepeats(s.loading) && !s.fromQueue
    ensures var u := Request(s, x.path, x.callback, site);
      var start := SameName(s.loading, x.path, site).None?;
      && Page(u) == Page(s) + (if start then multiset{x} else multiset{})
      && u.delivered == s.delivered && NoRepeats(u.loading)
      && Waiting(u.loading, Page(u))
         == Waiting(Remove(s.loading, x.path), Page(s)) + (if start then multiset{} else IfWaiting(x, Page(s)))
  {
    var u := Request(s, x.path, x.callback, site);
    SameNameOthers(s.loading, x.path, x.callback, site);
    AddMembers(s.loading, x.path, x.callback);
    RemoveMembers(s.loading, x.path);
    WaitingAdd(s.loading, x, Page(u));
    if SameName(s.loading, x.path, site).None? {
      assert Page(u) == Page(s) + multiset{x};
      var rest := Remove(s.loading, x.path);
      forall y | y in rest ensures PathIn(Page(u), y.path) <==> PathIn(Page(s), y.path) {
        if PathIn(Page(s), y.path) {
          var z :| z in Page(s) && z.path == y.path;
          assert z in Page(u);
        }
      }
      WaitingSame(rest, Page(u), Page(s));
      assert PathIn(Page(u), x.path);
    }
  }

  /** What `path` had waiting. */
  lemma {:induction false} WaitingWithout(loading: seq<Pending>, path: string, page: multiset<Pending>)
    requires NoRepeats(loading)
    ensures Has(loading, path) && !PathIn(page, path) ==>
      |Waiting(loading, page)| == |Waiting(Remove(loading, path), page)| + 1
    ensures !Has(loading, path) || PathIn(page, path) ==> Waiting(loading, page) == Waiting(Remove(loading, path), page)
  {
    HasMember(loading, path);
    if e :| e in loading && e.path == path {
      WaitingRemove(loading, e, page);
    } else {
      RemoveMissing(loading, path);
    }
  }

  // ----- Steps on the files and the page -----

  /** A file that may start: only its own scripts have its name, and no other file with the name is pending. */
  predicate MayStart(files: set<Pending>, page: multiset<Pending>, path: string, site: Site) {
    && (forall y | y in page && site.name(y.path) == site.name(path) :: y.path == path)
    && (forall z | z in files && site.name(z.path) == site.name(path) :: z.path == path)
  }

  lemma {:induction false} StartsOrderly(files: set<Pending>, page: multiset<Pending>, x: Pending, site: Site)
    requires Orderly(files, page, site) && '/' in x.path && MayStart(files, page, x.path, site)
    ensures Orderly(Without(files, x.path) + {x}, page + multiset{x}, site)
  {
    var files', page' := Without(files, x.path) + {x}, page + multiset{x};
    assert OneFile(page', site);
    StartQueued(files, page, x, site);
    StartLatest(files, page, x);
    StartServed(files, page, x, site);
  }

  lemma {:induction false} StartQueued(files: set<Pending>, page: multiset<Pending>, x: Pending, site: Site)
    requires Queued(files, page, site) && MayStart(files, page, x.path, site)
    ensures Queued(Without(files, x.path) + {x}, page + multiset{x}, site)
  {
    var files', page' := Without(files, x.path) + {x}, page + multiset{x};
    forall y, z | y in page' && z in files' && site.name(z.path) == site.name(y.path) && z.path != y.path
      ensures y in files' && Alone(page', y, site)
    {
      assert y != x && z != x;
      assert y in page && z in files;
      assert y in files && Alone(page, y, site);
    }
  }

  lemma {:induction false} StartLatest(files: set<Pending>, page: multiset<Pending>, x: Pending)
    requires Latest(files, page)
    ensures Latest(Without(files, x.path) + {x}, page + multiset{x})
  {
    forall z | z in Without(files, x.path) && PathIn(page + multiset{x}, z.path) ensures z in page {
      PathInMore(page, x, z.path);
    }
  }

  lemma {:induction false} StartServed(files: set<Pending>, page: multiset<Pending>, x: Pending, site: Site)
    requires Served(files, page, site)
    ensures Served(Without(files, x.path) + {x}, page + multiset{x}, site)
  {
    var page' := page + multiset{x};
    assert x in page';
    forall z | z in Without(files, x.path) ensures HasScript(page', site.name(z.path), site) {
      var y :| y in page && site.name(y.path) == site.name(z.path);
      assert y in page';
    }
  }

  /** A file that waits for the one script with its name, which is for another pending file. */
  lemma {:induction false} WaitsOrderly(files: set<Pending>, page: multiset<Pending>, x: Pending, y: Pending,
                                        site: Site)
    requires Orderly(files, page, site) && '/' in x.path && (forall z | z in files :: z.path != x.path)
    requires y in page && y in files && site.name(y.path) == site.name(x.path) && y.path != x.path
    requires Alone(page, y, site)
    ensures Orderly(files + {x}, page, site) && !PathIn(page, x.path)
  {
    var files' := files + {x};
    assert !PathIn(page, x.path);
    forall w, z | w in page && z in files' && site.name(z.path) == site.name(w.path) && z.path != w.path
      ensures w in files' && Alone(page, w, site)
    {
      if z == x {
        assert w == y;
      } else {
        assert w in files;
      }
    }
    assert HasScript(page, site.name(x.path), site);
  }

  /** The files and scripts without one script and its file: the others keep their order, and only files with the
      name of the script may be left without one. */
  lemma {:induction false} LeavesOrderly(files: set<Pending>, page: multiset<Pending>, x: Pending, site: Site)
    requires Orderly(files, page, site) && x in page
    ensures var files', page' := Without(files, x.path), page - multiset{x};
      && InFolders(files', page') && OneFile(page', site) && Queued(files', page', site) && Latest(files', page')
      && (forall z | z in files' && site.name(z.path) != site.name(x.path) :: HasScript(page', site.name(z.path), site))
      && (forall y, z | y in page' && z in files' && site.name(z.path) == site.name(x.path) ::
            site.name(y.path) != site.name(x.path))
  {
    LeaveQueued(files, page, x, site);
    LeaveLatest(files, page, x);
    LeaveServed(files, page, x, site);
  }

  lemma {:induction false} LeaveQueued(files: set<Pending>, page: multiset<Pending>, x: Pending, site: Site)
    requires Queued(files, page, site) && x in page
    ensures Queued(Without(files, x.path), page - multiset{x}, site)
    ensures forall y, z |
              y in page - multiset{x} && z in Without(files, x.path) && site.name(z.path) == site.name(x.path) ::
              site.name(y.path) != site.name(x.path)
  {
    var files', page' := Without(files, x.path), page - multiset{x};
    forall y, z | y in page' && z in files' && site.name(z.path) == site.name(x.path)
      ensures site.name(y.path) != site.name(x.path)
    {
      assert Alone(page, x, site);
    }
    forall y, z | y in page' && z in files' && site.name(z.path) == site.name(y.path) && z.path != y.path
      ensures y in files' && Alone(page', y, site)
    {
      assert y in files && Alone(page, y, site);
    }
  }

  lemma {:induction false} LeaveLatest(files: set<Pending>, page: multiset<Pending>, x: Pending)
    requires Latest(files, page) && x in page
    ensures Latest(Without(files, x.path), page - multiset{x})
  {
    var page' := page - multiset{x};
    forall z | z in Without(files, x.path) && PathIn(page', z.path) ensures z in page' {
      var w :| w in page' && w.path == z.path;
      assert w in page && PathIn(page, z.path);
    }
  }

  lemma {:induction false} LeaveServed(files: set<Pending>, page: multiset<Pending>, x: Pending, site: Site)
    requires Served(files, page, site) && x in page
    ensures forall z | z in Without(files, x.path) && site.name(z.path) != site.name(x.path) ::
              HasScript(page - multiset{x}, site.name(z.path), site)
  {
    forall z | z in Without(files, x.path) && site.name(z.path) != site.name(x.path)
      ensures HasScript(page - multiset{x}, site.name(z.path), site)
    {
      var y :| y in page && site.name(y.path) == site.name(z.path);
      assert y in page - multiset{x};
    }
  }

  /** The next file starts when no script with its name is left. */
  lemma {:induction false} NextOrderly(files: set<Pending>, page: multiset<Pending>, z: Pending, site: Site)
    requires InFolders(files, page) && OneFile(page, site) && Queued(files, page, site) && Latest(files, page)
    requires z in files && (forall w | w in files && w.path == z.path :: w == z)
    requires forall y | y in page :: site.name(y.path) != site.name(z.path)
    requires forall w | w in files && site.name(w.path) != site.name(z.path) :: HasScript(page, site.name(w.path), site)
    ensures Orderly(files, page + multiset{z}, site)
  {
    var page' := page + multiset{z};
    NextQueued(files, page, z, site);
    assert z in page';
    forall w | w in files && PathIn(page', w.path) ensures w in page' {
      PathInMore(page, z, w.path);
    }
    forall w | w in files ensures HasScript(page', site.name(w.path), site) {
      if site.name(w.path) != site.name(z.path) {
        var y :| y in page && site.name(y.path) == site.name(w.path);
        assert y in page';
      }
    }
  }

  lemma {:induction false} NextQueued(files: set<Pending>, page: multiset<Pending>, z: Pending, site: Site)
    requires Queued(files, page, site) && z in files
    requires forall y | y in page :: site.name(y.path) != site.name(z.path)
    ensures Queued(files, page + multiset{z}, site)
  {
    var page' := page + multiset{z};
    assert z !in page;
    forall y, w | y in page' && w in files && site.name(w.path) == site.name(y.path) && w.path != y.path
      ensures y in files && Alone(page', y, site)
    {
      if y != z {
        assert y in page && Alone(page, y, site);
      }
    }
  }

  // ----- Safety -----

  lemma {:induction false} RequestStarts(s: State, x: Pending, site: Site)
    requires Inv(s, site) && '/' in x.path && Safe(s, x.path, site) && SameName(s.loading, x.path, site).None?
    ensures Inv(Request(s, x.path, x.callback, site), site)
  {
    var u := Request(s, x.path, x.callback, site);
    AddFiles(s.loading, x);
    SameNameOthers(s.loading, x.path, x.callback, site);
    StartsOrderly(Files(s.loading), Page(s), x, site);
    assert Page(u) == Page(s) + multiset{x};
  }

  lemma {:induction false} RequestWaits(s: State, x: Pending, site: Site)
    requires Inv(s, site) && '/' in x.path && Safe(s, x.path, site) && SameName(s.loading, x.path, site).Some?
    ensures Inv(Request(s, x.path, x.callback, site), site)
    ensures !Has(s.loading, x.path) && !PathIn(Page(s), x.path)
  {
    var u := Request(s, x.path, x.callback, site);
    AddFiles(s.loading, x);
    SameNameOthers(s.loading, x.path, x.callback, site);
    var y := ServerOf(s, SameName(s.loading, x.path, site).value, site);
    HasMember(s.loading, x.path);
    WaitsOrderly(Files(s.loading), Page(s), x, y, site);
    assert Without(Files(s.loading), x.path) == Files(s.loading);
  }

  lemma ServerOf(s: State, z: Pending, site: Site) returns (y: Pending)
    requires Served(Files(s.loading), Page(s), site) && z in s.loading
    ensures y in Page(s) && site.name(y.path) == site.name(z.path)
  {
    assert HasScript(Page(s), site.name(z.path), site);
    y :| y in Page(s) && site.name(y.path) == site.name(z.path);
  }

  /** A pending file without a script has another file with its name before it. */
  lemma {:induction false} NotWaiting(s: State, path: string, site: Site)
    requires Inv(s, site) && SameName(s.loading, path, site).None?
    ensures !Has(s.loading, path) || PathIn(Page(s), path)
  {
    HasMember(s.loading, path);
    if e :| e in s.loading && e.path == path {
      var y := ServerOf(s, e, site);
      assert y.path != path ==> y in Files(s.loading);
    }
  }

  /** A safe request keeps the invariant and adds its callback to those accounted for. */
  lemma {:induction false} SafeRequestKeeps(s: State, x: Pending, site: Site)
    requires Inv(s, site) && '/' in x.path && Safe(s, x.path, site)
    ensures Inv(Request(s, x.path, x.callback, site), site)
    ensures Accounted(Request(s, x.path, x.callback, site)) == Accounted(s) + multiset{x}
  {
    if SameName(s.loading, x.path, site).None? {
      RequestStarts(s, x, site);
      NotWaiting(s, x.path, site);
    } else {
      RequestWaits(s, x, site);
    }
    RequestCounts(s, x, site);
  }

  lemma {:induction false} RequestCounts(s: State, x: Pending, site: Site)
    requires NoRepeats(s.loading) && !s.fromQueue
    requires if SameName(s.loading, x.path, site).None? then !Has(s.loading, x.path) || PathIn(Page(s), x.path)
             else !Has(s.loading, x.path) && !PathIn(Page(s), x.path)
    ensures Accounted(Request(s, x.path, x.callback, site)) == Accounted(s) + multiset{x}
  {
    RequestAccounts(s, x, site);
    WaitingWithout(s.loading, x.path, Page(s));
  }

  lemma {:induction false} ExecuteKeepsContent(s: State, x: Pending, site: Site)
    requires OneFile(Page(s), site) && x in s.appended && BareNames(site)
    requires RightContent(s.strings, s.executed, s.delivered, site)
    ensures RightContent(s.strings[site.name(x.path) := site.content(x.path)], s.executed + multiset{x}, s.delivered,
                         site)
  {
    assert x in Page(s);
    var strings := s.strings[site.name(x.path) := site.content(x.path)];
    forall y | y in s.executed + multiset{x} ensures Stored(strings, site.name(y.path)) == Some(site.content(y.path)) {
      assert y in Page(s);
    }
  }

  lemma {:induction false} ExecuteKeepsInv(s: State, x: Pending, site: Site)
    requires Inv(s, site) && BareNames(site) && x in s.appended
    ensures Inv(Execute(s, x, site), site)
  {
    ExecuteKeepsContent(s, x, site);
    assert Page(Execute(s, x, site)) == Page(s);
  }

  lemma {:induction false} LeftKeeps(s: State, x: Pending, site: Site)
    requires Inv(s, site) && x in s.executed
    ensures var t := Left(s, x);
      && Page(t) == Page(s) - multiset{x} && NoRepeats(t.loading)
      && Files(t.loading) == Without(Files(s.loading), x.path)
      && RightContent(t.strings, t.executed, t.delivered, site)
    ensures x in Page(s)
  {
    var t := Left(s, x);
    RemoveFiles(s.loading, x.path);
    assert Page(t) == Page(s) - multiset{x};
    assert x in Page(s) && x.path !in s.strings;
    assert t.strings == s.strings;
  }

  /** When a script has loaded, the invariant is kept, its own file's content goes to its callback, and no
      callback is lost or doubled. */
  lemma {:induction false} LoadedKeepsInv(s: State, x: Pending, site: Site)
    requires Inv(s, site) && x in s.executed
    ensures Inv(Loaded(s, x, site), site)
    ensures Loaded(s, x, site).delivered
         == s.delivered + [Delivery(x.path, x.callback, Some(site.content(x.path)))]
    ensures Accounted(Loaded(s, x, site)) == Accounted(s)
  {
    StartedKeepsInv(s, x, site);
    LoadedAccounts(s, x, site);
    NothingRedone(s, x, site);
    assert Stored(s.strings, site.name(x.path)) == Some(site.content(x.path));
    var u := Started(Left(s, x), x.path, site);
    assert Loaded(s, x, site)
        == u.(delivered := u.delivered + [Delivery(x.path, x.callback, Some(site.content(x.path)))]);
  }

  lemma {:induction false} StartedKeepsInv(s: State, x: Pending, site: Site)
    requires Inv(s, site) && x in s.executed
    ensures Inv(Started(Left(s, x), x.path, site), site) && Started(Left(s, x), x.path, site).delivered == s.delivered
  {
    var t := Left(s, x);
    LeftKeeps(s, x, site);
    LeavesOrderly(Files(s.loading), Page(s), x, site);
    var next := SameName(t.loading, x.path, site);
    if next.Some? {
      NextKeepsInv(t, next.value, site);
    } else {
      LastIsServed(Files(t.loading), Page(t), x, site);
    }
  }

  lemma LastIsServed(files: set<Pending>, page: multiset<Pending>, x: Pending, site: Site)
    requires forall z | z in files :: site.name(z.path) != site.name(x.path)
    requires forall z | z in files && site.name(z.path) != site.name(x.path) :: HasScript(page, site.name(z.path), site)
    ensures Served(files, page, site)
  {
  }

  lemma {:induction false} NextKeepsInv(t: State, z: Pending, site: Site)
    requires !t.fromQueue && NoRepeats(t.loading) && RightContent(t.strings, t.executed, t.delivered, site)
    requires var files, page := Files(t.loading), Page(t);
      && InFolders(files, page) && OneFile(page, site) && Queued(files, page, site) && Latest(files, page)
      && z in files && (forall y | y in page :: site.name(y.path) != site.name(z.path))
      && (forall w | w in files && site.name(w.path) != site.name(z.path) :: HasScript(page, site.name(w.path), site))
    ensures Inv(Restart(t, z, site), site) && Restart(t, z, site).delivered == t.delivered
  {
    RestartLoading(t, z, site);
    OnlyEntry(t.loading, z);
    NextOrderly(Files(t.loading), Page(t), z, site);
    assert Files(Restart(t, z, site).loading) == Files(t.loading);
    assert Page(Restart(t, z, site)) == Page(t) + multiset{z};
  }

  lemma OnlyEntry(loading: seq<Pending>, z: Pending)
    requires NoRepeats(loading) && z in loading
    ensures forall w | w in Files(loading) && w.path == z.path :: w == z
  {
    forall w | w in Files(loading) && w.path == z.path ensures w == z {
      SameEntry(loading, w, z);
    }
  }

  /** The file that is next has no script yet. */
  lemma {:induction false} NothingRedone(s: State, x: Pending, site: Site)
    requires Inv(s, site) && x in s.executed
    ensures Redone(s, x, site) == multiset{}
  {
    RemoveMembers(s.loading, x.path);
    assert x in Page(s);
  }

  lemma {:induction false} StepKeepsInv(s: State, e: Event, site: Site)
    requires Inv(s, site) && BareNames(site) && Legal(s, e) && SafeEvent(s, e, site)
    ensures Inv(Step(s, e, site), site)
    ensures Accounted(Step(s, e, site)) == Accounted(s) + IssuedBy(e)
  {
    match e
    case Requested(path, callback) => SafeRequestKeeps(s, Pending(path, callback), site);
    case Executed(x) =>
      ExecuteKeepsInv(s, x, site);
      ExecuteAccounts(s, x, site);
    case OnLoad(x) => LoadedKeepsInv(s, x, site);
  }

  // ----- Runs in which all requests are safe -----

  predicate NoRequests(events: seq<Event>) {
    forall e | e in events :: !e.Requested?
  }

  function IssuedBy(e: Event): multiset<Pending> {
    if e.Requested? then multiset{Pending(e.path, e.callback)} else multiset{}
  }

  /** The requests made, each as often as it was made. */
  function Issued(events: seq<Event>): multiset<Pending> {
    if events == [] then multiset{} else IssuedBy(events[0]) + Issued(events[1..])
  }

  /** Safety and conservation: in every state that safe requests lead to, scripts in the page that share a name
      are for one file, every callback that ran was given the content of the file it asked for, and every
      request made waits, is held by a script, or has had its callback run, as often as it was made. */
  lemma {:induction false} RunKeepsInv(s: State, events: seq<Event>, t: State, site: Site)
    requires Inv(s, site) && BareNames(site) && Run(s, events, t, site) && SafeRun(s, events, site)
    ensures Inv(t, site)
    ensures Accounted(t) == Accounted(s) + Issued(events)
    decreases |events|
  {
    if events != [] {
      var u := Step(s, events[0], site);
      StepKeepsInv(s, events[0], site);
      RunKeepsInv(u, events[1..], t, site);
      IssuedStep(Accounted(s), events, Accounted(u), Accounted(t));
    }
  }

  lemma IssuedStep(before: multiset<Pending>, events: seq<Event>, next: multiset<Pending>, after: multiset<Pending>)
    requires events != [] && next == before + IssuedBy(events[0]) && after == next + Issued(events[1..])
    ensures after == before + Issued(events)
  {
  }

  /** Without requests a run is safe. */
  lemma {:induction false} NoRequestsSafe(s: State, events: seq<Event>, t: State, site: Site)
    requires Run(s, events, t, site) && NoRequests(events)
    ensures SafeRun(s, events, site) && Issued(events) == multiset{}
    decreases |events|
  {
    if events != [] {
      assert events[0] in events;
      NoRequestsSafe(Step(s, events[0], site), events[1..], t, site);
    }
  }

  // ----- Progress -----

  /** Two steps for each waiting file and for each script that has not run, one for each that has. */
  function Work(s: State): nat {
    2 * |Waiting(s.loading, Page(s))| + 2 * |s.appended| + |s.executed|
  }

  /** Each step of the page that is not a request uses up one unit of work. */
  lemma {:induction false} StepWorks(s: State, e: Event, site: Site)
    requires Inv(s, site) && Legal(s, e) && !e.Requested?
    ensures Work(Step(s, e, site)) == Work(s) - 1
  {
    match e
    case Executed(x) =>
      ExecuteAccounts(s, x, site);
      assert s.appended - multiset{x} + multiset{x} == s.appended;
    case OnLoad(x) => LoadedWorks(s, x, site);
  }

  lemma {:induction false} LoadedWorks(s: State, x: Pending, site: Site)
    requires Inv(s, site) && x in s.executed
    ensures Work(Loaded(s, x, site)) == Work(s) - 1
  {
    var t := Left(s, x);
    LeftAccounts(s, x);
    assert t.executed + multiset{x} == s.executed;
    NothingRedone(s, x, site);
    var next := SameName(t.loading, x.path, site);
    if next.Some? {
      RestartLoading(t, next.value, site);
      RestartAccounts(t, next.value, site);
      assert IfWaiting(next.value, Page(t)) == multiset{next.value};
    }
  }

  /** Progress: while a file is pending, some script in the page can take its next step. */
  lemma CanStep(s: State, site: Site) returns (e: Event)
    requires Inv(s, site) && (s.loading != [] || Page(s) != multiset{})
    ensures !e.Requested? && Legal(s, e)
  {
    if s.loading != [] {
      var y := ServerOf(s, s.loading[0], site);
    }
    if s.executed != multiset{} {
      var x :| x in s.executed;
      e := OnLoad(x);
    } else {
      var x :| x in s.appended;
      e := Executed(x);
    }
  }

  /** Without further requests, any run takes exactly as many steps as work gets done. */
  lemma {:induction false} RunWorks(s: State, events: seq<Event>, t: State, site: Site)
    requires Inv(s, site) && BareNames(site) && Run(s, events, t, site)
    requires NoRequests(events)
    ensures |events| + Work(t) == Work(s)
    decreases |events|
  {
    if events != [] {
      assert events[0] in events;
      StepWorks(s, events[0], site);
      StepKeepsInv(s, events[0], site);
      RunWorks(Step(s, events[0], site), events[1..], t, site);
    }
  }

  /** After safe requests, and every script that started having run and reported, each request's callback has
      run, as often as it was made and with the content of its own file: nothing is lost, nothing runs twice. */
  lemma {:induction false} FinishedRunsDeliver(events: seq<Event>, t: State, site: Site)
    requires BareNames(site) && Run(EMPTY, events, t, site) && SafeRun(EMPTY, events, site)
    requires forall e: Event | !e.Requested? :: !Legal(t, e)
    ensures multiset(Ran(t.delivered)) == Issued(events)
    ensures forall d | d in t.delivered :: d.content == Some(site.content(d.path))
  {
    RunKeepsInv(EMPTY, events, t, site);
    if t.loading != [] || Page(t) != multiset{} {
      var e := CanStep(t, site);
      assert false;
    }
    assert t.loading == [] && Ran(EMPTY.delivered) == [];
    assert Accounted(t) == multiset(Ran(t.delivered)) && Accounted(EMPTY) == multiset{};
  }

  // ----- Runs in which no pending file is requested -----

  /** Every script in the page is for a pending file and the only one of its name. */
  predicate Single(files: set<Pending>, page: multiset<Pending>, site: Site) {
    forall y | y in page :: y in files && Alone(page, y, site)
  }

  /** At most one script of each name is in the page, and exactly one while a file of the name is pending. */
  lemma OneScriptPerName(s: State, site: Site)
    requires Inv(s, site) && Single(Files(s.loading), Page(s), site)
    ensures forall y | y in Page(s) :: Page(s)[y] == 1
    ensures forall y, z | y in Page(s) && z in Page(s) && site.name(y.path) == site.name(z.path) :: y == z
    ensures forall x | x in s.loading :: HasScript(Page(s), site.name(x.path), site)
  {
    forall y | y in Page(s) ensures Page(s)[y] == 1 {
      assert Alone(Page(s), y, site);
    }
    forall y, z | y in Page(s) && z in Page(s) && site.name(y.path) == site.name(z.path) ensures y == z {
      assert Alone(Page(s), y, site);
    }
    assert forall x | x in s.loading :: x in Files(s.loading);
  }

  /** No file is requested while it is pending. */
  ghost predicate NewRequests(s: State, events: seq<Event>, site: Site)
    decreases |events|
  {
    events != [] && Legal(s, events[0]) ==>
      (events[0].Requested? ==> !Has(s.loading, events[0].path))
      && NewRequests(Step(s, events[0], site), events[1..], site)
  }

  lemma NewIsSafe(s: State, path: string, site: Site)
    requires Single(Files(s.loading), Page(s), site) && !Has(s.loading, path)
    ensures Safe(s, path, site)
  {
    HasMember(s.loading, path);
    forall y | y in Page(s) ensures !Obstacle(s, y, path, site) {
      assert y in Files(s.loading) && Alone(Page(s), y, site);
    }
  }

  /** With no script of its name in the page, a new script is alone, and the others stay so. */
  lemma StartsSingle(files: set<Pending>, page: multiset<Pending>, x: Pending, site: Site)
    requires Single(files, page, site) && forall y | y in page :: site.name(y.path) != site.name(x.path)
    ensures Single(files + {x}, page + multiset{x}, site)
  {
    assert x !in page;
    forall y | y in page + multiset{x} ensures Alone(page + multiset{x}, y, site) {
      if y != x {
        assert y in page && Alone(page, y, site);
      }
    }
  }

  lemma LeavesSingle(files: set<Pending>, page: multiset<Pending>, x: Pending, site: Site)
    requires Single(files, page, site) && x in page
    ensures Single(Without(files, x.path), page - multiset{x}, site)
    ensures forall y | y in page - multiset{x} :: site.name(y.path) != site.name(x.path)
  {
    assert Alone(page, x, site);
    forall y | y in page - multiset{x}
      ensures site.name(y.path) != site.name(x.path) && Alone(page - multiset{x}, y, site)
    {
      assert y in page && Alone(page, y, site);
    }
  }

  lemma {:induction false} RequestSingle(s: State, x: Pending, site: Site)
    requires Inv(s, site) && Single(Files(s.loading), Page(s), site) && !Has(s.loading, x.path)
    ensures var u := Request(s, x.path, x.callback, site); Single(Files(u.loading), Page(u), site)
  {
    var u, files := Request(s, x.path, x.callback, site), Files(s.loading);
    NewRequestFiles(s, x, site);
    SameNameOthers(s.loading, x.path, x.callback, site);
    if SameName(s.loading, x.path, site).None? {
      HasMember(s.loading, x.path);
      assert Page(u) == Page(s) + multiset{x};
      assert forall y | y in Page(s) :: y in files && site.name(y.path) != site.name(x.path);
      StartsSingle(files, Page(s), x, site);
    } else {
      assert Page(u) == Page(s);
    }
  }

  lemma {:induction false} LoadedSingle(s: State, x: Pending, site: Site)
    requires Inv(s, site) && Single(Files(s.loading), Page(s), site) && x in s.executed
    ensures var u := Loaded(s, x, site); Single(Files(u.loading), Page(u), site)
  {
    var t := Left(s, x);
    LeftKeeps(s, x, site);
    LeavesSingle(Files(s.loading), Page(s), x, site);
    var next := SameName(t.loading, x.path, site);
    if next.Some? {
      RestartSingle(t, next.value, site);
    }
    assert Page(Loaded(s, x, site)) == Page(Started(t, x.path, site));
  }

  lemma {:induction false} RestartSingle(t: State, z: Pending, site: Site)
    requires NoRepeats(t.loading) && z in t.loading && Single(Files(t.loading), Page(t), site)
    requires forall y | y in Page(t) :: site.name(y.path) != site.name(z.path)
    ensures var u := Restart(t, z, site); Single(Files(u.loading), Page(u), site)
  {
    RestartLoading(t, z, site);
    assert Page(Restart(t, z, site)) == Page(t) + multiset{z};
    StartsSingle(Files(t.loading), Page(t), z, site);
    assert Files(Restart(t, z, site).loading) == Files(t.loading) + {z};
  }

  lemma {:induction false} StepKeepsSingle(s: State, e: Event, site: Site)
    requires Inv(s, site) && Single(Files(s.loading), Page(s), site)
    requires Legal(s, e) && (e.Requested? ==> !Has(s.loading, e.path))
    ensures var u := Step(s, e, site); Single(Files(u.loading), Page(u), site)
  {
    match e
    case Requested(path, callback) => RequestSingle(s, Pending(path, callback), site);
    case Executed(x) => assert Page(Execute(s, x, site)) == Page(s);
    case OnLoad(x) => LoadedSingle(s, x, site);
  }

  /** When no file is requested while it is pending, every request is safe, and in every state at most one script
      of each name is in the page, for a file that is pending. */
  lemma {:induction false} NewRequestsAreSafe(s: State, events: seq<Event>, t: State, site: Site)
    requires Inv(s, site) && Single(Files(s.loading), Page(s), site) && BareNames(site)
    requires Run(s, events, t, site) && NewRequests(s, events, site)
    ensures SafeRun(s, events, site) && Inv(t, site) && Single(Files(t.loading), Page(t), site)
    decreases |events|
  {
    if events != [] {
      if events[0].Requested? {
        NewIsSafe(s, events[0].path, site);
      }
      StepKeepsInv(s, events[0], site);
      StepKeepsSingle(s, events[0], site);
      NewRequestsAreSafe(Step(s, events[0], site), events[1..], t, site);
    }
  }

  /** When no file was requested while it was pending, and every script that started has run and reported, each
      callback has run once for each request with it, and was given the content of its own file. */
  lemma {:induction false} NewRequestsDeliver(events: seq<Event>, t: State, site: Site)
    requires BareNames(site) && Run(EMPTY, events, t, site) && NewRequests(EMPTY, events, site)
    requires forall e: Event | !e.Requested? :: !Legal(t, e)
    ensures multiset(Ran(t.delivered)) == Issued(events)
    ensures forall d | d in t.delivered :: d.content == Some(site.content(d.path))
  {
    NewRequestsAreSafe(EMPTY, events, t, site);
    FinishedRunsDeliver(events, t, site);
  }

  // ----- Requests that are not safe -----

  lemma SplitOff<T>(a: seq<T>, b: seq<T>)
    requires a != []
    ensures (a + b)[0] == a[0] && (a + b)[1..] == a[1..] + b
  {
  }

  lemma {:induction false} RunFirst(s: State, events: seq<Event>, u: State, site: Site)
    requires events != [] && Legal(s, events[0]) && Run(Step(s, events[0], site), events[1..], u, site)
    ensures Run(s, events, u, site)
  {
  }

  lemma {:induction false} RunThen(s: State, a: seq<Event>, t: State, b: seq<Event>, u: State, site: Site)
    requires Run(s, a, t, site) && Run(t, b, u, site)
    ensures Run(s, a + b, u, site)
    decreases |a|
  {
    if a == [] {
      assert a + b == b;
    } else {
      SplitOff(a, b);
      RunThen(Step(s, a[0], site), a[1..], t, b, u, site);
      RunFirst(s, a + b, u, site);
    }
  }

  /** The script in the page, once it has run. */
  function Executes(s: State, y: Pending, site: Site): State {
    if y in s.executed then s else Execute(s, y, site)
  }

  function FinishEvents(s: State, y: Pending): seq<Event> {
    if y in s.executed then [OnLoad(y)] else [Executed(y), OnLoad(y)]
  }

  lemma {:induction false} FinishRuns(s: State, y: Pending, site: Site)
    requires y in Page(s)
    ensures y in Executes(s, y, site).executed && Page(Executes(s, y, site)) == Page(s)
    ensures Run(s, FinishEvents(s, y), Loaded(Executes(s, y, site), y, site), site) && NoRequests(FinishEvents(s, y))
  {
    var s1 := Executes(s, y, site);
    var t := Loaded(s1, y, site);
    assert Page(s1) == Page(s);
    assert Run(s1, [OnLoad(y)], t, site);
    if y !in s.executed {
      assert FinishEvents(s, y)[1..] == [OnLoad(y)];
    }
  }

  /** A script in the page runs, if it has not, and reports. */
  lemma {:induction false} Finish(s: State, y: Pending, site: Site) returns (events: seq<Event>, t: State)
    requires NoRepeats(s.loading) && y in Page(s)
    ensures Run(s, events, t, site) && NoRequests(events)
    ensures NoRepeats(t.loading) && Accounted(t) == Accounted(s) + Redone(s, y, site)
    ensures Files(t.loading) == Without(Files(s.loading), y.path)
    ensures Page(t) == Page(s) - multiset{y} + (
      match SameName(Remove(s.loading, y.path), y.path, site) case None => multiset{} case Some(z) => multiset{z})
  {
    var s1 := Executes(s, y, site);
    FinishRuns(s, y, site);
    events, t := FinishEvents(s, y), Loaded(s1, y, site);
    LoadedAccounts(s1, y, site);
    LoadedPage(s1, y, site);
  }

  lemma {:induction false} LoadedPage(s: State, y: Pending, site: Site)
    requires NoRepeats(s.loading) && y in s.executed
    ensures var t := Loaded(s, y, site);
      && Files(t.loading) == Without(Files(s.loading), y.path)
      && Page(t) == Page(s) - multiset{y} + (
           match SameName(Remove(s.loading, y.path), y.path, site) case None => multiset{} case Some(z) => multiset{z})
  {
    var u := Left(s, y);
    RemoveFiles(s.loading, y.path);
    assert Page(u) == Page(s) - multiset{y};
    var next := SameName(u.loading, y.path, site);
    if next.Some? {
      RestartLoading(u, next.value, site);
      assert Page(Restart(u, next.value, site)) == Page(u) + multiset{next.value};
    }
  }

  /** A request for a file with a script while another file with its name is pending loses its own callback. */
  lemma {:induction false} FlyingLoses(s: State, x: Pending, site: Site)
    requires NoRepeats(s.loading) && !s.fromQueue && SameName(s.loading, x.path, site).Some? && PathIn(Page(s), x.path)
    ensures Accounted(Request(s, x.path, x.callback, site)) == Accounted(s)
  {
    RequestAccounts(s, x, site);
    WaitingWithout(s.loading, x.path, Page(s));
  }

  /** A request for a waiting file loses the earlier callback. */
  lemma {:induction false} WaitingLoses(s: State, x: Pending, site: Site)
    requires NoRepeats(s.loading) && !s.fromQueue && SameName(s.loading, x.path, site).Some?
    requires Has(s.loading, x.path) && !PathIn(Page(s), x.path)
    ensures |Accounted(Request(s, x.path, x.callback, site))| == |Accounted(s)|
  {
    RequestAccounts(s, x, site);
    WaitingWithout(s.loading, x.path, Page(s));
    assert IfWaiting(x, Page(s)) == multiset{x};
  }

  /** A request for a pending file when another file with its name is pending loses a callback at once. */
  lemma {:induction false} PendingLoses(s: State, x: Pending, y: Pending, site: Site)
    requires Inv(s, site) && y in Page(s) && Obstacle(s, y, x.path, site)
    requires y.path == x.path || Has(s.loading, x.path)
    ensures |Accounted(Request(s, x.path, x.callback, site))| == |Accounted(s)|
  {
    if y.path == x.path {
      FlyingLoses(s, x, site);
    } else {
      OtherIsPending(s, x.path, y, site);
      WaitingLoses(s, x, site);
    }
  }

  lemma {:induction false} OtherIsPending(s: State, path: string, y: Pending, site: Site)
    requires Inv(s, site) && y in Page(s) && site.name(y.path) == site.name(path) && y.path != path
    requires Has(s.loading, path)
    ensures SameName(s.loading, path, site).Some? && !PathIn(Page(s), path)
  {
    HasMember(s.loading, path);
    var e :| e in s.loading && e.path == path;
    assert e in Files(s.loading) && y in Files(s.loading);
  }

  /** A request for a file that is not pending counts at first. */
  lemma {:induction false} NewRequestCounts(s: State, x: Pending, site: Site)
    requires NoRepeats(s.loading) && !s.fromQueue && !Has(s.loading, x.path) && !PathIn(Page(s), x.path)
    ensures var u := Request(s, x.path, x.callback, site);
      && Accounted(u) == Accounted(s) + multiset{x} && NoRepeats(u.loading)
      && Page(u) == Page(s) + (if SameName(s.loading, x.path, site).None? then multiset{x} else multiset{})
  {
    RequestAccounts(s, x, site);
    WaitingWithout(s.loading, x.path, Page(s));
    assert IfWaiting(x, Page(s)) == multiset{x};
  }

  lemma {:induction false} NewRequestFiles(s: State, x: Pending, site: Site)
    requires NoRepeats(s.loading) && !Has(s.loading, x.path)
    ensures Files(Request(s, x.path, x.callback, site).loading) == Files(s.loading) + {x}
  {
    AddFiles(s.loading, x);
    HasMember(s.loading, x.path);
    assert Without(Files(s.loading), x.path) == Files(s.loading);
  }

  /** `x` is the only pending file with its name that is not at `path`. */
  predicate OnlyOther(files: set<Pending>, x: Pending, path: string, site: Site) {
    && x in files && x.path != path && site.name(x.path) == site.name(path)
    && forall z | z in files && site.name(z.path) == site.name(path) && z.path != path :: z == x
  }

  lemma OnlyOtherIsNext(loading: seq<Pending>, x: Pending, path: string, site: Site)
    requires NoRepeats(loading) && OnlyOther(Files(loading), x, path, site)
    ensures SameName(Remove(loading, path), path, site) == Some(x)
  {
    RemoveMembers(loading, path);
    assert x in Remove(loading, path);
  }

  /** A script that reports while the next file has a script already starts that file again, and its callback
      will run twice. */
  lemma {:induction false} FinishDoubles(s: State, y: Pending, x: Pending, site: Site)
    returns (events: seq<Event>, t: State)
    requires NoRepeats(s.loading) && y in Page(s) && x in Page(s) && OnlyOther(Files(s.loading), x, y.path, site)
    ensures Run(s, events, t, site) && NoRequests(events)
    ensures Accounted(t) == Accounted(s) + multiset{x}
  {
    OnlyOtherIsNext(s.loading, x, y.path, site);
    assert PathIn(Page(s), x.path);
    events, t := Finish(s, y, site);
  }

  lemma NoOthers(loading: seq<Pending>, x: Pending, path: string, site: Site)
    requires SameName(loading, x.path, site).None? && path != x.path && site.name(path) == site.name(x.path)
    requires !Has(loading, x.path)
    ensures OnlyOther(Files(loading) + {x}, x, path, site)
  {
    HasMember(loading, x.path);
  }

  /** A request that starts beside a left-over script. */
  lemma {:induction false} BesideLeftOver(s: State, x: Pending, y: Pending, site: Site)
    returns (events: seq<Event>, t: State)
    requires NoRepeats(s.loading) && !s.fromQueue && y in Page(s)
    requires y.path != x.path && site.name(y.path) == site.name(x.path)
    requires !Has(s.loading, x.path) && SameName(s.loading, x.path, site).None? && !PathIn(Page(s), x.path)
    ensures Run(Request(s, x.path, x.callback, site), events, t, site) && NoRequests(events)
    ensures |Accounted(t)| > |Accounted(s)| + 1
  {
    var u := Request(s, x.path, x.callback, site);
    NewRequestCounts(s, x, site);
    NewRequestFiles(s, x, site);
    NoOthers(s.loading, x, y.path, site);
    events, t := FinishDoubles(u, y, x, site);
  }

  /** A request that waits beside two scripts with its name. */
  lemma {:induction false} BesideTwo(s: State, x: Pending, y: Pending, site: Site)
    returns (events: seq<Event>, t: State)
    requires Inv(s, site) && y in Page(s) && Obstacle(s, y, x.path, site) && y.path != x.path
    requires !Has(s.loading, x.path) && SameName(s.loading, x.path, site).Some?
    ensures Run(Request(s, x.path, x.callback, site), events, t, site) && NoRequests(events)
    ensures |Accounted(t)| > |Accounted(s)| + 1
  {
    var u := Request(s, x.path, x.callback, site);
    assert !PathIn(Page(s), x.path);
    NewRequestCounts(s, x, site);
    NewRequestFiles(s, x, site);
    HasMember(s.loading, x.path);
    var z := SecondScript(s, x.path, y, site);
    OthersAreTheSame(s, y, x.path, z, site);
    assert OnlyOther(Files(u.loading), x, y.path, site);
    events, t := FinishTwo(u, y, z, x, site);
  }

  lemma {:induction false} FinishTwo(u: State, y: Pending, z: Pending, x: Pending, site: Site)
    returns (events: seq<Event>, t: State)
    requires NoRepeats(u.loading) && y in Page(u) && z in Page(u) - multiset{y} && z.path == y.path
    requires OnlyOther(Files(u.loading), x, y.path, site)
    ensures Run(u, events, t, site) && NoRequests(events)
    ensures |Accounted(t)| > |Accounted(u)|
  {
    OnlyOtherIsNext(u.loading, x, y.path, site);
    var first, u1 := Finish(u, y, site);
    assert z in Page(u1) && x in Page(u1);
    var second, u2 := FinishDoubles(u1, z, x, site);
    RunThen(u, first, u1, second, u2, site);
    events, t := first + second, u2;
  }

  /** With a file pending that the request is to wait for, there are two scripts. */
  lemma {:induction false} SecondScript(s: State, path: string, y: Pending, site: Site) returns (z: Pending)
    requires Inv(s, site) && y in Page(s) && Obstacle(s, y, path, site) && y.path != path && !Has(s.loading, path)
    requires SameName(s.loading, path, site).Some?
    ensures z in Page(s) - multiset{y} && site.name(z.path) == site.name(y.path) && z.path == y.path
  {
    var o := SameName(s.loading, path, site).value;
    assert o in Files(s.loading);
    assert PathIn(Page(s), o.path) ==> o in Page(s);
    assert !Alone(Page(s), y, site);
    if Page(s)[y] > 1 {
      z := y;
    } else {
      z :| z in Page(s) && site.name(z.path) == site.name(y.path) && z != y;
    }
  }

  /** With two scripts of one name, only their file is pending under the name. */
  lemma {:induction false} OthersAreTheSame(s: State, y: Pending, path: string, z: Pending, site: Site)
    requires Inv(s, site) && y in Page(s) && z in Page(s) - multiset{y} && site.name(z.path) == site.name(y.path)
    ensures forall w | w in Files(s.loading) && site.name(w.path) == site.name(y.path) :: w.path == y.path
  {
    assert !Alone(Page(s), y, site);
  }

  /** However the scripts in the page run and report after a request, every callback waits, is held by a script,
      or has run, as often as it was requested. */
  ghost predicate Conserves(s: State, x: Pending, site: Site) {
    forall events, t | Run(Request(s, x.path, x.callback, site), events, t, site) && NoRequests(events) ::
      Accounted(t) == Accounted(s) + multiset{x}
  }

  lemma {:induction false} SafeConserves(s: State, x: Pending, site: Site)
    requires Inv(s, site) && BareNames(site) && '/' in x.path && Safe(s, x.path, site)
    ensures Conserves(s, x, site)
  {
    var u := Request(s, x.path, x.callback, site);
    SafeRequestKeeps(s, x, site);
    forall events, t | Run(u, events, t, site) && NoRequests(events)
      ensures Accounted(t) == Accounted(s) + multiset{x}
    {
      NoRequestsSafe(u, events, t, site);
      RunKeepsInv(u, events, t, site);
    }
  }

  lemma {:induction false} BreaksConservation(s: State, x: Pending, events: seq<Event>, t: State, site: Site)
    requires Run(Request(s, x.path, x.callback, site), events, t, site) && NoRequests(events)
    requires |Accounted(t)| != |Accounted(s)| + 1
    ensures !Conserves(s, x, site)
  {
    assert |Accounted(s) + multiset{x}| == |Accounted(s)| + 1;
  }

  lemma {:induction false} UnsafeBreaks(s: State, x: Pending, y: Pending, site: Site)
    requires Inv(s, site) && y in Page(s) && Obstacle(s, y, x.path, site)
    ensures !Conserves(s, x, site)
  {
    var u := Request(s, x.path, x.callback, site);
    if y.path == x.path || Has(s.loading, x.path) {
      PendingLoses(s, x, y, site);
      BreaksConservation(s, x, [], u, site);
    } else if SameName(s.loading, x.path, site).None? {
      assert !PathIn(Page(s), x.path);
      var events, t := BesideLeftOver(s, x, y, site);
      BreaksConservation(s, x, events, t, site);
    } else {
      var events, t := BesideTwo(s, x, y, site);
      BreaksConservation(s, x, events, t, site);
    }
  }

  /** A request is safe exactly when no callback is lost or doubled in whatever the scripts do from then on. */
  lemma {:induction false} SafeExactly(s: State, x: Pending, site: Site)
    requires Inv(s, site) && BareNames(site) && '/' in x.path
    ensures Safe(s, x.path, site) <==> Conserves(s, x, site)
  {
    if Safe(s, x.path, site) {
      SafeConserves(s, x, site);
    } else {
      var y :| y in Page(s) && Obstacle(s, y, x.path, site);
      UnsafeBreaks(s, x, y, site);
    }
  }

  /** A file that is pending may be requested again, without any callback lost or doubled in whatever follows,
      exactly when no other file with its base name is pending. */
  lemma {:induction false} RepeatedRequest(s: State, x: Pending, site: Site)
    requires Inv(s, site) && BareNames(site) && Has(s.loading, x.path)
    ensures SameName(s.loading, x.path, site).None? <==> Conserves(s, x, site)
  {
    HasMember(s.loading, x.path);
    var e :| e in s.loading && e.path == x.path;
    assert e in Files(s.loading);
    var y := ServerOf(s, e, site);
    assert y.path != x.path ==> y in Files(s.loading);
    SafeExactly(s, x, site);
  }

  // ----- Requests that lose a callback -----

  /** Two files with one base name, the first in flight and the second waiting. */
  function OneFlies(a: string, b: string): State {
    State(map[], [Pending(a, 1), Pending(b, 2)], false, multiset{Pending(a, 1)}, multiset{}, [])
  }

  lemma {:induction false} OneFliesReached(a: string, b: string, site: Site)
    requires a != b && site.name(a) == site.name(b) && '/' in a && '/' in b
    ensures Run(EMPTY, [Requested(a, 1), Requested(b, 2)], OneFlies(a, b), site)
  {
    var s1 := Request(EMPTY, a, 1, site);
    assert s1 == State(map[], [Pending(a, 1)], false, multiset{Pending(a, 1)}, multiset{}, []);
    var s2 := Request(s1, b, 2, site);
    assert Add(s1.loading, b, 2) == [Pending(a, 1), Pending(b, 2)];
    assert s2 == OneFlies(a, b);
    assert Run(s1, [Requested(b, 2)], s2, site);
    assert [Requested(a, 1), Requested(b, 2)][1..] == [Requested(b, 2)];
  }

  /** The file in flight is requested again: the callback 3 is in the dictionary only, and no script will ever
      call it. */
  lemma {:induction false} FlyingRepeatLoses(a: string, b: string, site: Site)
    requires a != b && site.name(a) == site.name(b) && '/' in a && '/' in b
    ensures var u := Request(OneFlies(a, b), a, 3, site);
      && u == OneFlies(a, b).(loading := [Pending(a, 3), Pending(b, 2)])
      && Pending(a, 3) !in Accounted(u)
  {
    var u := Request(OneFlies(a, b), a, 3, site);
    assert u.loading == [Pending(a, 3), Pending(b, 2)];
    WaitingOfTwo(Pending(a, 3), Pending(b, 2), Page(u));
    assert Pending(a, 1) in Page(u) && PathIn(Page(u), a);
  }

  /** The waiting file is requested again: its callback 2 is nowhere any more. */
  lemma {:induction false} WaitingRepeatLoses(a: string, b: string, site: Site)
    requires a != b && site.name(a) == site.name(b) && '/' in a && '/' in b
    ensures var u := Request(OneFlies(a, b), b, 3, site);
      && u == OneFlies(a, b).(loading := [Pending(a, 1), Pending(b, 3)])
      && Pending(b, 2) !in Accounted(u)
  {
    var u := Request(OneFlies(a, b), b, 3, site);
    assert [Pending(a, 1), Pending(b, 2)][1..] == [Pending(b, 2)];
    assert u.loading == [Pending(a, 1)] + Add([Pending(b, 2)], b, 3);
    assert u.loading == [Pending(a, 1), Pending(b, 3)];
    WaitingOfTwo(Pending(a, 1), Pending(b, 3), Page(u));
  }

  lemma WaitingOfTwo(x: Pending, y: Pending, page: multiset<Pending>)
    ensures Waiting([x, y], page) == IfWaiting(x, page) + IfWaiting(y, page)
  {
    assert [x, y][1..] == [y] && [y][1..] == [];
    assert Waiting([y], page) == IfWaiting(y, page) + Waiting([], page);
    assert Waiting([x, y], page) == IfWaiting(x, page) + Waiting([y], page);
  }

  /** With no other file of its name pending, a file in flight that is requested again gets a second script. */
  lemma {:induction false} RepeatAlone(a: string, site: Site)
    ensures var s := State(map[], [Pending(a, 1)], false, multiset{Pending(a, 1)}, multiset{}, []);
      Request(s, a, 3, site) == s.(loading := [Pending(a, 3)], appended := multiset{Pending(a, 1), Pending(a, 3)})
  {
    var s := State(map[], [Pending(a, 1)], false, multiset{Pending(a, 1)}, multiset{}, []);
    assert Add(s.loading, a, 3) == [Pending(a, 3)];
    assert multiset{Pending(a, 1)} + multiset{Pending(a, 3)} == multiset{Pending(a, 1), Pending(a, 3)};
  }

  // ----- The code -----

  /** Base names hold no slash, and a script stands for itself. */
  ghost predicate Lawful(site: Site) {
    BareNames(site) && forall f :: site.script(site.script(f)) == site.script(f)
  }

  /** The files in the dictionary are scripts: asking for one again asks for the same script. */
  ghost predicate AllScripts(loading: seq<Pending>, site: Site) {
    forall x | x in loading :: site.script(x.path) == x.path
  }

  /** The names and scripts that URLs have are lawful. */
  lemma {:induction false} UrlsAreLawful(content: string -> string)
    ensures Lawful(Site(Url.Name, JsFile, content))
  {
    var site := Site(Url.Name, JsFile, content);
    forall p ensures '/' !in site.name(p) {
      Url.NameHasNoSlash(p);
    }
    forall f ensures site.script(site.script(f)) == site.script(f) {
      ScriptTwice(f);
    }
  }

  lemma ScriptTwice(f: string)
    ensures JsFile(JsFile(f)) == JsFile(f)
  {
    Url.ToExtensionTwice(f, "js");
  }

  /** A file in a folder, with its base name and its extension. */
  predicate IsFile(path: string, folder: string, base: string, ext: string) {
    && path == folder + base + "." + ext && '#' !in path && '?' !in path
    && (folder == "" || folder[|folder| - 1] == '/') && '/' !in base && '.' !in ext && '/' !in ext
  }

  /** The name of a file is its base name, without the folder and the extension. */
  lemma NameOfFile(path: string, folder: string, base: string, ext: string)
    requires IsFile(path, folder, base, ext)
    ensures Url.Name(path) == base
  {
    Url.NameOf(path, folder, base, ext);
  }

  /** The script of a file is in its folder and has its base name. */
  lemma ScriptOfFile(path: string, folder: string, base: string, ext: string)
    requires IsFile(path, folder, base, ext)
    ensures JsFile(path) == folder + base + ".js" && IsFile(JsFile(path), folder, base, "js")
  {
    Url.ToExtensionOf(folder + base, ext, "js");
    assert JsFile(path) == folder + base + "." + "js";
    assert forall c | c in folder + base :: c in path;
  }

  /** The names and scripts that a loader works with. */
  function UrlSite(content: string -> string): Site {
    Site(Url.Name, JsFile, content)
  }

  ghost predicate HasBase(path: string, base: string) {
    exists folder, ext :: IsFile(path, folder, base, ext)
  }

  /** A request for a file, not from the queue, appends a script exactly when no other pending file has its base
      name, in whatever folder; otherwise the file waits. */
  lemma {:induction false} StartsUnlessNamePending(s: State, path: string, folder: string, base: string, ext: string,
                                                   callback: nat, content: string -> string)
    requires IsFile(path, folder, base, ext) && !s.fromQueue
    requires forall x | x in s.loading :: exists b :: HasBase(x.path, b)
    ensures var x, u := Pending(folder + base + ".js", callback), Request(s, JsFile(path), callback, UrlSite(content));
      u.appended == if forall y | y in s.loading :: y.path == x.path || !HasBase(y.path, base)
                    then s.appended + multiset{x} else s.appended
  {
    var site, js := UrlSite(content), JsFile(path);
    ScriptOfFile(path, folder, base, ext);
    NameOfFile(js, folder, base, "js");
    forall y | y in s.loading ensures site.name(y.path) == base <==> HasBase(y.path, base) {
      var b :| HasBase(y.path, b);
      NameIsBase(y.path, b);
      if HasBase(y.path, base) {
        NameIsBase(y.path, base);
      }
    }
    AddSameName(s.loading, js, callback, site);
  }

  lemma NameIsBase(path: string, base: string)
    requires HasBase(path, base)
    ensures Url.Name(path) == base
  {
    var folder, ext :| IsFile(path, folder, base, ext);
    NameOfFile(path, folder, base, ext);
  }

  lemma {:induction false} AddSameName(loading: seq<Pending>, path: string, callback: nat, site: Site)
    ensures SameName(Add(loading, path, callback), path, site).None?
       <==> forall y | y in loading :: y.path == path || site.name(y.path) != site.name(path)
  {
    if loading != [] {
      assert loading == [loading[0]] + loading[1..];
      AddSameName(loading[1..], path, callback, site);
      RestSameName(loading, path, callback, site);
    }
  }

  lemma RestSameName(loading: seq<Pending>, path: string, callback: nat, site: Site)
    requires loading != []
    ensures var r := Add(loading, path, callback);
      r[1..] == (if loading[0].path == path then loading[1..] else Add(loading[1..], path, callback))
  {
  }

  // ----- The dictionary's order -----

  /** A file that is new in the dictionary comes last; one that is there keeps its place. */
  lemma {:induction false} AddExactly(loading: seq<Pending>, x: Pending, i: nat)
    requires i <= |loading| && forall j | 0 <= j < i :: loading[j].path != x.path
    ensures i == |loading| ==> Add(loading, x.path, x.callback) == loading + [x]
    ensures i < |loading| && loading[i].path == x.path ==> Add(loading, x.path, x.callback) == loading[i := x]
  {
    if i > 0 {
      assert loading == [loading[0]] + loading[1..];
      AddExactly(loading[1..], x, i - 1);
    }
  }

  /** A file that is removed leaves the others in their order. */
  lemma {:induction false} RemoveExactly(loading: seq<Pending>, path: string, i: nat)
    requires i < |loading| && loading[i].path == path && forall j | 0 <= j < i :: loading[j].path != path
    ensures Remove(loading, path) == loading[..i] + loading[i + 1..]
  {
    if i > 0 {
      assert loading == [loading[0]] + loading[1..];
      RemoveExactly(loading[1..], path, i - 1);
    }
  }

  /** The file that is next is the first in the dictionary with the name. */
  lemma {:induction false} NextIsFirst(loading: seq<Pending>, path: string, site: Site, i: nat)
    requires i < |loading| && loading[i].path != path && site.name(loading[i].path) == site.name(path)
    requires forall j | 0 <= j < i :: loading[j].path == path || site.name(loading[j].path) != site.name(path)
    ensures SameName(loading, path, site) == Some(loading[i])
  {
    if i > 0 {
      NextIsFirst(loading[1..], path, site, i - 1);
    }
  }

  /** CMCXmlParser's static fields and GetXmlDoc, with the page's part of the state. */
  class Loader {
    const site: Site
    var strings: map<string, string>
    var loading: seq<Pending>
    var fromQueue: bool
    var appended: multiset<Pending>
    var executed: multiset<Pending>
    var delivered: seq<Delivery>

    constructor (content: string -> string)
      ensures Abs() == EMPTY && Valid() && site == Site(Url.Name, JsFile, content)
    {
      site := Site(Url.Name, JsFile, content);
      strings, loading, fromQueue, delivered := map[], [], false, [];
      appended, executed := multiset{}, multiset{};
      UrlsAreLawful(content);
    }

    function Abs(): State
      reads this
    {
      State(strings, loading, fromQueue, appended, executed, delivered)
    }

    ghost predicate Valid()
      reads this
    {
      Inv(Abs(), site) && Lawful(site) && AllScripts(loading, site)
    }

    /** The loop over the dictionary that looks for another file with the same base name. */
    method FindSameName(path: string) returns (other: Option<Pending>)
      ensures other == SameName(loading, path, site)
    {
      for i := 0 to |loading|
        invariant SameName(loading, path, site) == SameName(loading[i..], path, site)
      {
        if site.name(loading[i].path) == site.name(path) && loading[i].path != path {
          return Some(loading[i]);
        }
        assert loading[i..][1..] == loading[i + 1..];
      }
      other := None;
    }

    /** Asks for a file; a script element for it is appended now or when its turn comes. */
    method GetXmlDoc(file: string, callback: nat)
      modifies this`loading, this`fromQueue, this`appended
      ensures Abs() == Request(old(Abs()), site.script(file), callback, site)
    {
      var path := site.script(file);
      loading := Add(loading, path, callback);
      var other := FindSameName(path);
      if fromQueue || other.None? {
        fromQueue := false;
        appended := appended + multiset{Pending(path, callback)};
      }
    }

    /** GetXmlDoc keeps the loader valid when the request is safe. */
    method RequestFile(file: string, callback: nat)
      requires Valid() && Legal(Abs(), Requested(site.script(file), callback))
      modifies this`loading, this`fromQueue, this`appended
      ensures Abs() == Step(old(Abs()), Requested(site.script(file), callback), site)
      ensures old(Safe(Abs(), site.script(file), site)) ==> Valid()
    {
      ghost var x := Pending(site.script(file), callback);
      if Safe(Abs(), x.path, site) {
        SafeRequestKeeps(Abs(), x, site);
      }
      AddMembers(loading, x.path, callback);
      ghost var next := Request(Abs(), x.path, callback, site);
      assert AllScripts(next.loading, site);
      GetXmlDoc(file, callback);
    }

    /** The page runs a script. */
    method ExecuteScript(x: Pending)
      requires Valid() && Legal(Abs(), Executed(x))
      modifies this`strings, this`appended, this`executed
      ensures Valid() && Abs() == Step(old(Abs()), Executed(x), site)
    {
      ExecuteKeepsInv(Abs(), x, site);
      ghost var next := Execute(Abs(), x, site);
      strings := strings[site.name(x.path) := site.content(x.path)];
      appended, executed := appended - multiset{x}, executed + multiset{x};
      assert Abs() == next;
    }

    /** A script reports that it loaded. */
    method OnScriptLoaded(x: Pending)
      requires Valid() && Legal(Abs(), OnLoad(x))
      modifies this
      ensures Valid() && Abs() == Step(old(Abs()), OnLoad(x), site)
    {
      LoadedValid(Abs(), x, site);
      Finish(x);
    }

    /** OnScriptLoaded, whatever state it starts from. */
    method Finish(x: Pending)
      requires x in executed && AllScripts(Left(Abs(), x).loading, site)
      modifies this
      ensures Abs() == Loaded(old(Abs()), x, site)
    {
      loading := Remove(loading, x.path);
      var xml := Stored(strings, site.name(x.path));
      strings := strings - {x.path};
      executed := executed - multiset{x};
      StartNext(x.path);
      delivered := delivered + [Delivery(x.path, x.callback, xml)];
    }

    /** Starts the next file with the name of `path`, if there is one. */
    method StartNext(path: string)
      requires AllScripts(loading, site)
      modifies this`loading, this`fromQueue, this`appended
      ensures Abs() == Started(old(Abs()), path, site)
    {
      var next := FindSameName(path);
      if next.Some? {
        loading := Remove(loading, next.value.path);
        fromQueue := true;
        GetXmlDoc(next.value.path, next.value.callback);
      }
    }
  }

  /** Loading brings no new file into the dictionary. */
  lemma LoadedValid(s: State, x: Pending, site: Site)
    requires Inv(s, site) && AllScripts(s.loading, site) && x in s.executed
    ensures Inv(Loaded(s, x, site), site)
    ensures AllScripts(Left(s, x).loading, site) && AllScripts(Loaded(s, x, site).loading, site)
  {
    LoadedKeepsInv(s, x, site);
    RemoveMembers(s.loading, x.path);
    LoadedPage(s, x, site);
    forall z | z in Loaded(s, x, site).loading ensures z in s.loading {
      assert z in Files(Loaded(s, x, site).loading);
    }
  }
}
