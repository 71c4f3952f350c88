/** CMCUrl.CombinePath: a loop on strings that works as a stack of path segments. */
module CombinePath {
  import opened Options
  import opened Text

  // ----- The code -----

  predicate EndsWithSlash(s: string) {
    s != "" && s[|s| - 1] == '/'
  }

  /** A slash behind goes, unless it is the whole path. */
  function Strip(curr: string): string {
    if |curr| > 1 && EndsWithSlash(curr) then curr[..|curr| - 1] else curr
  }

  function Advance(c: string, seg: string): string {
    if seg == "." then c + "/"
    else if seg == ".." then c[..LastIndexOf(c, '/') + 1]
    else (if EndsWithSlash(c) then c else c + "/") + seg
  }

  /** One round of the loop. */
  function Step(curr: string, seg: string): string {
    if seg == "" then curr else Advance(Strip(curr), seg)
  }

  function Walk(curr: string, segs: seq<string>): string
    decreases |segs|
  {
    if segs == [] then curr else Walk(Step(curr, segs[0]), segs[1..])
  }

  /** A URL with a scheme before its first colon. */
  predicate IsAbsolute(url: string) {
    IndexOf(url, ':') > 0
  }

  /** The length of the part of an "mk" URL that stays in front; 0 for other URLs. */
  function PrefixLength(base: string): (n: nat)
    ensures n <= |base|
  {
    if IndexOf(base, ':') == 2 && base[..2] == "mk" then
      var pos := DoubleColon(base);
      if pos + 2 <= |base| then pos + 2 else |base|
    else 0
  }

  /** `indexOf("::")`. */
  function DoubleColon(s: string): (r: int)
    ensures r >= -1
  {
    if |s| < 2 then -1
    else if s[0] == ':' && s[1] == ':' then 0
    else var r := DoubleColon(s[1..]); if r < 0 then -1 else r + 1
  }

  function Combined(base: string, other: string): Option<string> {
    if IsAbsolute(other) then None
    else Some(base[..PrefixLength(base)] + Walk(base[PrefixLength(base)..], Split(other, '/')))
  }

  /** Combines a base with a relative path; nothing when the second URL is absolute, which throws. */
  method Combine(base: string, other: string) returns (r: Option<string>)
    ensures r == Combined(base, other)
  {
    if IsAbsolute(other) {
      return None;
    }
    var segs := Split(other, '/');
    var prefix, curr := base[..PrefixLength(base)], base[PrefixLength(base)..];
    ghost var start := curr;
    for i := 0 to |segs|
      invariant Walk(start, segs) == Walk(curr, segs[i..])
    {
      var seg := segs[i];
      assert segs[i..][1..] == segs[i + 1..];
      if seg != "" {
        curr := CombineSegment(curr, seg);
      }
    }
    r := Some(prefix + curr);
  }

  /** The body of the loop, for a segment that is not empty. */
  method CombineSegment(path: string, seg: string) returns (curr: string)
    requires seg != ""
    ensures curr == Step(path, seg)
  {
    curr := path;
    if |curr| > 1 && EndsWithSlash(curr) {
      curr := curr[..|curr| - 1];
    }
    if seg == "." {
      curr := curr + "/";
    } else if seg == ".." {
      curr := curr[..LastIndexOf(curr, '/') + 1];
    } else {
      if !EndsWithSlash(curr) {
        curr := curr + "/";
      }
      curr := curr + seg;
    }
  }

  // ----- The reference: a stack of segments -----

  function Push(stack: seq<string>, seg: string): seq<string> {
    if seg == "" || seg == "." then stack
    else if seg == ".." then if stack == [] then [] else stack[..|stack| - 1]
    else stack + [seg]
  }

  function WalkStack(stack: seq<string>, segs: seq<string>): seq<string>
    decreases |segs|
  {
    if segs == [] then stack else WalkStack(Push(stack, segs[0]), segs[1..])
  }

  function NonEmpty(pieces: seq<string>): seq<string> {
    if pieces == [] then []
    else (if pieces[0] == "" then [] else [pieces[0]]) + NonEmpty(pieces[1..])
  }

  /** The non-empty segments of a path. */
  function Segments(path: string): seq<string> {
    NonEmpty(Split(path, '/'))
  }

  // ----- Paths in normal form -----

  predicate Clean(stack: seq<string>) {
    forall i | 0 <= i < |stack| :: stack[i] != "" && '/' !in stack[i]
  }

  function Slash(b: bool): string {
    if b then "/" else ""
  }

  function JoinAll(stack: seq<string>): string {
    if stack == [] then "" else Join(stack, '/')
  }

  /** The path with these segments, with or without a slash in front and behind. */
  function Path(lead: bool, stack: seq<string>, trail: bool): string {
    Slash(lead) + JoinAll(stack) + Slash(trail)
  }

  /** A string is in normal form when no two slashes meet in it, or it is just two slashes. */
  predicate Normal(s: string) {
    s == "//" || forall i | 0 <= i < |s| - 1 :: s[i] != '/' || s[i + 1] != '/'
  }

  lemma {:induction false} JoinPush(stack: seq<string>, seg: string)
    ensures JoinAll(stack + [seg]) == if stack == [] then seg else JoinAll(stack) + "/" + seg
  {
    if |stack| == 0 {
      assert stack + [seg] == [seg];
    } else {
      assert (stack + [seg])[1..] == stack[1..] + [seg];
      JoinPush(stack[1..], seg);
      assert JoinAll(stack) == stack[0] + if |stack| == 1 then "" else "/" + JoinAll(stack[1..]);
      assert JoinAll(stack + [seg]) == stack[0] + "/" + JoinAll(stack[1..] + [seg]);
    }
  }

  lemma JoinSplitsLast(stack: seq<string>)
    requires stack != []
    ensures var front := stack[..|stack| - 1];
            JoinAll(stack) == (if front == [] then "" else JoinAll(front) + "/") + stack[|stack| - 1]
  {
    JoinPush(stack[..|stack| - 1], stack[|stack| - 1]);
    assert stack[..|stack| - 1] + [stack[|stack| - 1]] == stack;
  }

  lemma JoinEndsClean(stack: seq<string>)
    requires Clean(stack) && stack != []
    ensures JoinAll(stack) != "" && !EndsWithSlash(JoinAll(stack))
  {
    JoinSplitsLast(stack);
    var last := stack[|stack| - 1];
    assert last[|last| - 1] in last;
  }

  lemma {:induction false} LastIndexAt(a: string, b: string)
    requires '/' !in b
    ensures LastIndexOf(a + "/" + b, '/') == |a|
  {
    var s := a + "/" + b;
    if b != "" {
      var front := b[..|b| - 1];
      assert s[..|s| - 1] == a + "/" + front;
      assert b == front + [b[|b| - 1]];
      LastIndexAt(a, front);
    }
  }

  /** A path with its slash behind stripped. */
  function Bare(lead: bool, stack: seq<string>): string {
    Slash(lead) + JoinAll(stack)
  }

  /** Stripping the slash behind. */
  lemma Strips(lead: bool, stack: seq<string>, trail: bool)
    requires Clean(stack)
    ensures Strip(Path(lead, stack, trail)) == Bare(lead || (stack == [] && trail), stack)
  {
    if stack != [] {
      JoinEndsClean(stack);
      var s, bare := Path(lead, stack, trail), Bare(lead, stack);
      assert bare[|bare| - 1] == JoinAll(stack)[|JoinAll(stack)| - 1];
      if trail {
        assert s == bare + "/";
      } else {
        assert s == bare;
      }
    } else {
      assert Path(lead, stack, trail) == Slash(lead) + Slash(trail);
    }
  }

  /** Dropping the last segment, from a path without a slash behind. */
  lemma Pops(lead: bool, stack: seq<string>)
    requires Clean(stack)
    ensures Bare(lead, stack)[..LastIndexOf(Bare(lead, stack), '/') + 1] == Path(lead, Push(stack, ".."), |stack| > 1)
  {
    if |stack| == 1 {
      PopsOnly(lead, stack[0]);
    } else if |stack| > 1 {
      var front, last := stack[..|stack| - 1], stack[|stack| - 1];
      JoinSplitsLast(stack);
      Regroups(Slash(lead), JoinAll(front), last);
      LastIndexAt(Bare(lead, front), last);
      assert Bare(lead, stack) == Bare(lead, front) + "/" + last;
      assert Bare(lead, stack)[..|Bare(lead, front)| + 1] == Bare(lead, front) + "/";
    }
  }

  lemma Regroups(a: string, b: string, c: string)
    ensures a + (b + "/" + c) == a + b + "/" + c
  {
  }

  lemma PopsOnly(lead: bool, last: string)
    requires '/' !in last
    ensures Bare(lead, [last])[..LastIndexOf(Bare(lead, [last]), '/') + 1] == Slash(lead)
    ensures Path(lead, Push([last], ".."), false) == Slash(lead)
  {
    var c := Bare(lead, [last]);
    assert c == Slash(lead) + last;
    if lead {
      LastIndexAt("", last);
      assert "" + "/" + last == c;
      assert c[..1] == "/";
    } else {
      assert c == last;
      assert LastIndexOf(c, '/') == -1;
    }
    assert Push([last], "..") == [];
    assert Path(lead, [], false) == Slash(lead);
  }

  /** Adding a segment to a path without a slash behind. */
  lemma Names(lead: bool, stack: seq<string>, seg: string)
    requires Clean(stack) && seg != "" && '/' !in seg
    ensures var c := Bare(lead, stack);
            (if EndsWithSlash(c) then c else c + "/") + seg == Path(stack == [] || lead, stack + [seg], false)
  {
    JoinPush(stack, seg);
    if stack == [] {
      assert Bare(lead, stack) == Slash(lead);
      assert JoinAll(stack + [seg]) == seg;
    } else {
      JoinEndsClean(stack);
      Regroups(Slash(lead), JoinAll(stack), seg);
      assert Bare(lead, stack)[|Bare(lead, stack)| - 1] == JoinAll(stack)[|JoinAll(stack)| - 1];
    }
  }

  /** One round of the loop on a path in normal form pushes its segment, and the result is in normal
      form again. */
  lemma StepPushes(lead: bool, stack: seq<string>, trail: bool, seg: string) returns (lead': bool, trail': bool)
    requires Clean(stack) && '/' !in seg
    ensures Clean(Push(stack, seg))
    ensures Step(Path(lead, stack, trail), seg) == Path(lead', Push(stack, seg), trail')
    ensures stack != [] ==> lead' == lead && (Push(stack, seg) == [] ==> !trail')
  {
    lead' := lead || (stack == [] && trail);
    if seg == "" {
      lead', trail' := lead, trail;
    } else {
      Strips(lead, stack, trail);
      trail' := seg == "." || (seg == ".." && |stack| > 1);
      AdvancePushes(lead', stack, seg);
      lead' := if seg == "." || seg == ".." then lead' else stack == [] || lead;
    }
  }

  lemma AdvancePushes(lead: bool, stack: seq<string>, seg: string)
    requires Clean(stack) && '/' !in seg && seg != ""
    ensures seg == "." ==> Advance(Bare(lead, stack), seg) == Path(lead, stack, true)
    ensures seg == ".." ==> Advance(Bare(lead, stack), seg) == Path(lead, Push(stack, seg), |stack| > 1)
    ensures seg != "." && seg != ".." ==>
      Advance(Bare(lead, stack), seg) == Path(stack == [] || lead, stack + [seg], false)
  {
    if seg == "." {
      assert Bare(lead, stack) + "/" == Path(lead, stack, true);
    } else if seg == ".." {
      Pops(lead, stack);
    } else {
      Names(lead, stack, seg);
    }
  }

  lemma {:induction false} WalkPushes(lead: bool, stack: seq<string>, trail: bool, segs: seq<string>)
    returns (lead': bool, trail': bool)
    requires Clean(stack) && forall i | 0 <= i < |segs| :: '/' !in segs[i]
    ensures Clean(WalkStack(stack, segs))
    ensures Walk(Path(lead, stack, trail), segs) == Path(lead', WalkStack(stack, segs), trail')
    decreases |segs|
  {
    lead', trail' := lead, trail;
    if segs != [] {
      lead', trail' := StepPushes(lead, stack, trail, segs[0]);
      lead', trail' := WalkPushes(lead', Push(stack, segs[0]), trail', segs[1..]);
    }
  }

  // ----- Segments of paths in normal form -----

  lemma {:induction false} SplitPieces(s: string)
    ensures forall i | 0 <= i < |Split(s, '/')| :: '/' !in Split(s, '/')[i]
    decreases |s|
  {
    var k := IndexOf(s, '/');
    if k >= 0 {
      SplitPieces(s[k + 1..]);
    }
  }

  lemma {:induction false} NonEmptyConcat(a: seq<string>, b: seq<string>)
    ensures NonEmpty(a + b) == NonEmpty(a) + NonEmpty(b)
  {
    if a == [] {
      assert a + b == b;
    } else {
      assert (a + b)[1..] == a[1..] + b;
      NonEmptyConcat(a[1..], b);
    }
  }

  lemma {:induction false} NonEmptyClean(pieces: seq<string>)
    requires Clean(pieces)
    ensures NonEmpty(pieces) == pieces
  {
    if pieces != [] {
      NonEmptyClean(pieces[1..]);
    }
  }

  lemma SegmentsJoin(a: string, b: string)
    ensures Segments(a + "/" + b) == Segments(a) + Segments(b)
  {
    SplitConcat(a, '/', b);
    NonEmptyConcat(Split(a, '/'), Split(b, '/'));
  }

  lemma NoSegments()
    ensures Segments("") == []
  {
    assert Split("", '/') == [""];
  }

  lemma SlashInFront(path: string)
    ensures Segments("/" + path) == Segments(path)
  {
    NoSegments();
    SegmentsJoin("", path);
    assert "" + "/" + path == "/" + path;
  }

  lemma SlashBehind(path: string)
    ensures Segments(path + "/") == Segments(path)
  {
    NoSegments();
    SegmentsJoin(path, "");
    assert path + "/" + "" == path + "/";
  }

  lemma SegmentsOfJoined(stack: seq<string>)
    requires Clean(stack)
    ensures Segments(JoinAll(stack)) == stack
  {
    if stack == [] {
      NoSegments();
    } else {
      SplitJoin(stack, '/');
      NonEmptyClean(stack);
    }
  }

  /** The segments of a path in normal form are the ones it was made of. */
  lemma SegmentsOfPath(lead: bool, stack: seq<string>, trail: bool)
    requires Clean(stack)
    ensures Segments(Path(lead, stack, trail)) == stack
  {
    var bare := Bare(lead, stack);
    SegmentsOfJoined(stack);
    if lead {
      SlashInFront(JoinAll(stack));
    } else {
      assert bare == JoinAll(stack);
    }
    if trail {
      SlashBehind(bare);
    } else {
      assert Path(lead, stack, trail) == bare;
    }
  }

  lemma Prepends(h: string, stack: seq<string>, trail: bool)
    requires stack != []
    ensures h + "/" + Path(false, stack, trail) == Path(false, [h] + stack, trail)
  {
    assert ([h] + stack)[1..] == stack;
    assert JoinAll([h] + stack) == h + "/" + JoinAll(stack);
  }

  /** A string in which no two slashes meet is a path in normal form. */
  lemma {:induction false} NormalIsPath(s: string) returns (lead: bool, stack: seq<string>, trail: bool)
    requires Normal(s)
    ensures Clean(stack) && s == Path(lead, stack, trail)
    ensures lead <==> s != "" && s[0] == '/'
    ensures s != "" && s[0] != '/' ==> stack != []
    ensures s == "" ==> !trail
    decreases |s|
  {
    var k := IndexOf(s, '/');
    if s == "//" {
      TwoSlashes();
      lead, stack, trail := true, [], true;
    } else if k < 0 {
      stack := NoSlashes(s);
      lead, trail := false, false;
    } else {
      NormalTail(s, k);
      var restLead, restStack, restTrail := NormalIsPath(s[k + 1..]);
      assert !restLead;
      lead, stack, trail := PrependPath(s[..k], s[k + 1..], restStack, restTrail);
    }
  }

  lemma TwoSlashes()
    ensures "//" == Path(true, [], true)
  {
  }

  lemma NoSlashes(s: string) returns (stack: seq<string>)
    requires '/' !in s
    ensures Clean(stack) && s == Path(false, stack, false) && (s == "" <==> stack == [])
  {
    stack := if s == "" then [] else [s];
    assert JoinAll(stack) == s;
    assert "" + s + "" == s;
  }

  lemma NormalTail(s: string, k: nat)
    requires Normal(s) && s != "//" && k < |s| && s[k] == '/'
    ensures var rest := s[k + 1..];
            Normal(rest) && s == s[..k] + "/" + rest && (rest == "" || rest[0] != '/')
  {
    var rest := s[k + 1..];
    assert rest != "" ==> rest[0] == s[k + 1];
    assert forall i | 0 <= i < |rest| :: rest[i] == s[i + k + 1];
  }

  lemma PrependNothing(stack: seq<string>, trail: bool)
    ensures "" + "/" + Path(false, stack, trail) == Path(true, stack, trail)
  {
    assert Slash(true) + (JoinAll(stack) + Slash(trail)) == Slash(true) + JoinAll(stack) + Slash(trail);
    assert "" + JoinAll(stack) == JoinAll(stack);
  }

  lemma PrependOnly(h: string)
    ensures h + "/" + Path(false, [], false) == Path(false, [h], true)
  {
    assert JoinAll([h]) == h;
  }

  lemma PrependText(h: string, stack: seq<string>, trail: bool)
    requires stack != [] || !trail
    ensures h == "" ==> h + "/" + Path(false, stack, trail) == Path(true, stack, trail)
    ensures h != "" ==> h + "/" + Path(false, stack, trail) == Path(false, [h] + stack, stack == [] || trail)
  {
    if h == "" {
      PrependNothing(stack, trail);
    } else if stack == [] {
      PrependOnly(h);
      assert [h] + [] == [h];
    } else {
      Prepends(h, stack, trail);
    }
  }

  lemma CleanCons(h: string, stack: seq<string>)
    requires Clean(stack) && h != "" && '/' !in h
    ensures Clean([h] + stack)
  {
  }

  lemma PrependPath(h: string, rest: string, restStack: seq<string>, restTrail: bool)
    returns (lead: bool, stack: seq<string>, trail: bool)
    requires Clean(restStack) && '/' !in h && rest == Path(false, restStack, restTrail)
    requires restStack == [] ==> !restTrail
    ensures Clean(stack) && h + "/" + rest == Path(lead, stack, trail)
    ensures (lead <==> h == "") && (h != "" ==> stack != [])
  {
    PrependText(h, restStack, restTrail);
    if h == "" {
      lead, stack, trail := true, restStack, restTrail;
    } else {
      CleanCons(h, restStack);
      lead, stack, trail := false, [h] + restStack, restStack == [] || restTrail;
    }
  }

  /** Combining a base in which no two slashes meet with a relative path gives the base's segments
      with each of the path's pushed: names are added, "." and empty ones ignored, and ".." takes
      the last one away if there is one. */
  lemma {:induction false} CombineIsStack(base: string, other: string)
    requires Normal(base)
    ensures Segments(Walk(base, Split(other, '/'))) == WalkStack(Segments(base), Split(other, '/'))
    ensures Normal(Walk(base, Split(other, '/')))
  {
    SplitPieces(other);
    var lead, stack, trail := NormalIsPath(base);
    SegmentsOfPath(lead, stack, trail);
    var lead', trail' := WalkPushes(lead, stack, trail, Split(other, '/'));
    SegmentsOfPath(lead', WalkStack(stack, Split(other, '/')), trail');
    PathIsNormal(lead', WalkStack(stack, Split(other, '/')), trail');
  }

  /** A URL is absolute when it has a colon, but not at the very beginning. */
  lemma AbsoluteExactly(url: string)
    ensures IsAbsolute(url) <==> ':' in url && url[0] != ':'
  {
  }

  /** Two colons stand at `k`. */
  predicate ColonsAt(s: string, k: nat) {
    k + 1 < |s| && s[k] == ':' && s[k + 1] == ':'
  }

  /** The part of a base that takes no part: of an "mk" URL all up to its first two colons in a row, or its first
      character when it has none; of others nothing. */
  predicate IsFront(base: string, front: string) {
    front <= base &&
    if !("mk:" <= base) then front == ""
    else if exists k: nat | k < |base| :: ColonsAt(base, k) then
      |front| >= 2 && ColonsAt(base, |front| - 2) && forall k: nat | k < |front| - 2 :: !ColonsAt(base, k)
    else |front| == 1
  }

  lemma {:induction false} DoubleColonExactly(s: string)
    ensures DoubleColon(s) >= 0 ==>
      ColonsAt(s, DoubleColon(s)) && forall k: nat | k < DoubleColon(s) :: !ColonsAt(s, k)
    ensures DoubleColon(s) < 0 ==> forall k: nat | k < |s| :: !ColonsAt(s, k)
  {
    if |s| >= 2 && !ColonsAt(s, 0) {
      DoubleColonExactly(s[1..]);
      forall k: nat | 0 < k < |s| ensures ColonsAt(s, k) <==> ColonsAt(s[1..], k - 1) {}
    }
  }

  lemma StartsWithMk(base: string)
    ensures "mk:" <= base <==> IndexOf(base, ':') == 2 && base[..2] == "mk"
  {
    if |base| >= 3 {
      assert base[..3] == base[..2] + [base[2]];
      assert base[..2] == [base[0], base[1]];
    }
  }

  lemma FrontExactly(base: string)
    ensures IsFront(base, base[..PrefixLength(base)])
  {
    DoubleColonExactly(base);
    StartsWithMk(base);
  }

  lemma CombinedParts(base: string, other: string) returns (front: string, rest: string)
    ensures base == front + rest && IsFront(base, front)
    ensures Combined(base, other) ==
      if ':' in other && other[0] != ':' then None else Some(front + Walk(rest, Split(other, '/')))
  {
    front, rest := base[..PrefixLength(base)], base[PrefixLength(base)..];
    FrontExactly(base);
    AbsoluteExactly(other);
  }

  /** `r` is the part in front and then a path whose segments are those of `rest` with those of `other` pushed. */
  predicate IsFrontAndStack(front: string, rest: string, other: string, r: string) {
    front <= r && Segments(r[|front|..]) == WalkStack(Segments(rest), Split(other, '/'))
  }

  lemma WalksBehindFront(front: string, rest: string, other: string)
    requires Normal(rest)
    ensures IsFrontAndStack(front, rest, other, front + Walk(rest, Split(other, '/')))
  {
    var walked := Walk(rest, Split(other, '/'));
    assert (front + walked)[|front|..] == walked;
    CombineIsStack(rest, other);
  }

  /** Combining throws exactly for an absolute second URL. Otherwise the part of the base that takes no part stays in
      front, and when no two slashes meet in the rest its segments have those of the path pushed. */
  lemma CombinedIsStack(base: string, other: string) returns (front: string, rest: string)
    ensures base == front + rest && IsFront(base, front)
    ensures Combined(base, other).None? <==> ':' in other && other[0] != ':'
    ensures Combined(base, other).Some? && Normal(rest) ==>
      IsFrontAndStack(front, rest, other, Combined(base, other).value)
  {
    front, rest := CombinedParts(base, other);
    if Normal(rest) {
      WalksBehindFront(front, rest, other);
    }
  }

  lemma {:induction false} PathIsNormal(lead: bool, stack: seq<string>, trail: bool)
    requires Clean(stack)
    ensures Normal(Path(lead, stack, trail))
  {
    if stack != [] {
      JoinIsNormal(stack);
      JoinEndsClean(stack);
      WrappedIsNormal(lead, JoinAll(stack), trail);
    }
  }

  lemma WrappedIsNormal(lead: bool, j: string, trail: bool)
    requires j != "" && j[0] != '/' && !EndsWithSlash(j)
    requires forall i | 0 <= i < |j| - 1 :: j[i] != '/' || j[i + 1] != '/'
    ensures Normal(Slash(lead) + j + Slash(trail))
  {
    var s, d := Slash(lead) + j + Slash(trail), |Slash(lead)|;
    forall i | 0 <= i < |s| - 1 ensures s[i] != '/' || s[i + 1] != '/' {
      if d <= i < d + |j| - 1 {
        assert s[i] == j[i - d] && s[i + 1] == j[i + 1 - d];
      } else if i < d {
        assert s[i + 1] == j[0];
      } else {
        assert s[i] == j[|j| - 1];
      }
    }
  }

  lemma {:induction false} JoinIsNormal(stack: seq<string>)
    requires Clean(stack) && stack != []
    ensures var j := JoinAll(stack);
            j != "" && j[0] != '/' && forall i | 0 <= i < |j| - 1 :: j[i] != '/' || j[i + 1] != '/'
  {
    var j := JoinAll(stack);
    assert stack[0][0] in stack[0];
    forall x | 0 <= x < |stack[0]| ensures j[x] == stack[0][x] && j[x] != '/' {}
    if |stack| > 1 {
      var rest := JoinAll(stack[1..]);
      JoinIsNormal(stack[1..]);
      assert j == stack[0] + "/" + rest;
      forall i | 0 <= i < |j| - 1 ensures j[i] != '/' || j[i + 1] != '/' {
        if i > |stack[0]| {
          assert j[i] == rest[i - |stack[0]| - 1] && j[i + 1] == rest[i - |stack[0]|];
        } else if i == |stack[0]| {
          assert j[i + 1] == rest[0];
        }
      }
    }
  }

  // ----- Bases with a scheme and a host -----

  /** The path takes a name or a ".." only while there is a segment left to put it after or take away. */
  predicate StaysAbove(stack: seq<string>, segs: seq<string>)
    decreases |segs|
  {
    segs == []
    || ((segs[0] == "" || segs[0] == "." || stack != []) && StaysAbove(Push(stack, segs[0]), segs[1..]))
  }

  lemma StripBehind(root: string, bare: string, trail: bool)
    requires bare != "" && !EndsWithSlash(bare)
    ensures Strip(root + (bare + Slash(trail))) == root + bare
  {
    var s := root + (bare + Slash(trail));
    assert (root + bare)[|root + bare| - 1] == bare[|bare| - 1];
    if trail {
      assert s == root + bare + "/";
    } else {
      assert s == root + bare;
    }
  }

  lemma InnerParts(stack: seq<string>)
    requires Clean(stack) && |stack| > 1
    ensures Bare(false, stack) == JoinAll(stack[..|stack| - 1]) + "/" + stack[|stack| - 1]
    ensures Path(false, Push(stack, ".."), true) == JoinAll(stack[..|stack| - 1]) + "/"
  {
    JoinSplitsLast(stack);
    assert Bare(false, stack) == JoinAll(stack);
  }

  lemma PopBehind(root: string, stack: seq<string>)
    requires Clean(stack) && stack != [] && EndsWithSlash(root)
    ensures Advance(root + Bare(false, stack), "..") == root + Path(false, Push(stack, ".."), |stack| > 1)
  {
    if |stack| == 1 {
      assert Bare(false, stack) == stack[0];
      PopOnlyBehind(root, stack[0]);
    } else {
      InnerParts(stack);
      PopInnerBehind(root, JoinAll(stack[..|stack| - 1]), stack[|stack| - 1]);
    }
  }

  lemma PopOnlyBehind(root: string, last: string)
    requires '/' !in last && EndsWithSlash(root)
    ensures Advance(root + last, "..") == root + Path(false, [], false)
  {
    var front := root[..|root| - 1];
    assert root == front + "/" && root + last == front + "/" + last;
    CutsLast(front, last);
    assert root + Path(false, [], false) == root;
  }

  lemma PopInnerBehind(root: string, front: string, last: string)
    requires '/' !in last
    ensures Advance(root + (front + "/" + last), "..") == root + (front + "/")
  {
    assert root + (front + "/" + last) == (root + front) + "/" + last;
    CutsLast(root + front, last);
    assert root + (front + "/") == (root + front) + "/";
  }

  lemma CutsLast(front: string, last: string)
    requires '/' !in last
    ensures Advance(front + "/" + last, "..") == front + "/"
  {
    LastIndexAt(front, last);
    assert (front + "/" + last)[..|front| + 1] == front + "/";
  }

  lemma NameText(root: string, bare: string, seg: string)
    requires bare != "" && !EndsWithSlash(bare) && seg != "" && seg != "." && seg != ".."
    ensures Advance(root + bare, seg) == root + (bare + "/" + seg)
  {
    var c := root + bare;
    assert c[|c| - 1] == bare[|bare| - 1];
    assert c + "/" + seg == root + (bare + "/" + seg);
  }

  lemma NameBehind(root: string, stack: seq<string>, seg: string)
    requires Clean(stack) && stack != [] && seg != "" && seg != "." && seg != ".."
    ensures Advance(root + Bare(false, stack), seg) == root + Path(false, stack + [seg], false)
  {
    JoinEndsClean(stack);
    JoinPush(stack, seg);
    NameText(root, JoinAll(stack), seg);
    assert Bare(false, stack) == JoinAll(stack);
    assert Path(false, stack + [seg], false) == JoinAll(stack) + "/" + seg;
  }

  /** With a segment left, a round of the loop does not see what stands before the path. */
  lemma StepBehind(root: string, stack: seq<string>, trail: bool, seg: string) returns (trail': bool)
    requires Clean(stack) && stack != [] && '/' !in seg && EndsWithSlash(root)
    ensures Clean(Push(stack, seg)) && (Push(stack, seg) == [] ==> !trail')
    ensures Step(root + Path(false, stack, trail), seg) == root + Path(false, Push(stack, seg), trail')
  {
    trail' := if seg == "" then trail else seg == "." || (seg == ".." && |stack| > 1);
    if seg != "" {
      StripPathBehind(root, stack, trail);
      AdvanceBehind(root, stack, seg);
    }
    PushClean(stack, seg);
  }

  lemma PushClean(stack: seq<string>, seg: string)
    requires Clean(stack) && '/' !in seg
    ensures Clean(Push(stack, seg))
  {
  }

  lemma StripPathBehind(root: string, stack: seq<string>, trail: bool)
    requires Clean(stack) && stack != []
    ensures Strip(root + Path(false, stack, trail)) == root + Bare(false, stack)
  {
    var bare := Bare(false, stack);
    JoinEndsClean(stack);
    assert bare == JoinAll(stack) && Path(false, stack, trail) == bare + Slash(trail);
    StripBehind(root, bare, trail);
  }

  lemma AdvanceBehind(root: string, stack: seq<string>, seg: string)
    requires Clean(stack) && stack != [] && seg != "" && EndsWithSlash(root)
    ensures Advance(root + Bare(false, stack), seg)
         == root + Path(false, Push(stack, seg), seg == "." || (seg == ".." && |stack| > 1))
  {
    if seg == "." {
      var bare := Bare(false, stack);
      assert (root + bare) + "/" == root + (bare + "/");
      assert Path(false, stack, true) == bare + "/";
    } else if seg == ".." {
      PopBehind(root, stack);
    } else {
      NameBehind(root, stack, seg);
    }
  }

  /** The text ends in two slashes, with something before them. */
  predicate EndsWithTwo(root: string) {
    |root| > 2 && root[|root| - 1] == '/' && root[|root| - 2] == '/'
  }

  /** The rounds that keep what stands before the path, and the first one that does not. */
  lemma {:induction false} WalkBehind(root: string, stack: seq<string>, trail: bool, segs: seq<string>)
    returns (trail': bool)
    requires Clean(stack) && (stack == [] ==> !trail) && EndsWithTwo(root)
    requires forall i | 0 <= i < |segs| :: '/' !in segs[i]
    ensures StaysAbove(stack, segs) ==> Clean(WalkStack(stack, segs))
    ensures StaysAbove(stack, segs) ==>
      Walk(root + Path(false, stack, trail), segs) == root + Path(false, WalkStack(stack, segs), trail')
    ensures !StaysAbove(stack, segs) ==> !(root <= Walk(root + Path(false, stack, trail), segs))
    decreases |segs|
  {
    trail' := trail;
    if segs != [] {
      var seg := segs[0];
      if stack != [] {
        trail' := StepBehind(root, stack, trail, seg);
        trail' := WalkBehind(root, Push(stack, seg), trail', segs[1..]);
      } else {
        assert root + Path(false, stack, trail) == root;
        if seg == "" || seg == "." {
          StaysAtRoot(root);
          trail' := WalkBehind(root, [], false, segs[1..]);
        } else {
          LeavesRoot(root, seg);
          LostWalk(root, Step(root, seg), segs[1..]);
        }
      }
    }
  }

  lemma StaysAtRoot(root: string)
    requires EndsWithTwo(root)
    ensures Step(root, ".") == root
  {
    assert Strip(root) + "/" == root;
  }

  /** A name or ".." with no segment left takes the last slash away. */
  lemma LeavesRoot(root: string, seg: string)
    requires EndsWithTwo(root) && seg != "" && seg != "." && '/' !in seg
    ensures !(root <= Step(root, seg))
  {
    var c := Strip(root);
    assert c == root[..|root| - 1] && EndsWithSlash(c);
    if seg != ".." {
      assert Step(root, seg) == c + seg;
      assert (c + seg)[|c|] == seg[0] && seg[0] in seg;
    }
  }

  /** What was lost does not come back. */
  lemma LostStep(root: string, curr: string, seg: string)
    requires EndsWithTwo(root) && !(root <= curr) && '/' !in seg
    ensures !(root <= Step(curr, seg))
  {
    if seg != "" {
      var c := Strip(curr);
      assert !(root <= c) by {
        assert c <= curr;
      }
      LostAdvance(root, curr, c, seg);
    }
  }

  lemma LostAdvance(root: string, curr: string, c: string, seg: string)
    requires EndsWithTwo(root) && !(root <= curr) && !(root <= c) && c == Strip(curr) && seg != "" && '/' !in seg
    ensures !(root <= Advance(c, seg))
  {
    if seg == ".." {
      assert Advance(c, seg) <= c;
    } else {
      LostSlash(root, curr, c);
      if seg != "." {
        if EndsWithSlash(c) {
          LostName(root, c, seg);
        } else {
          LostName(root, c + "/", seg);
        }
      }
    }
  }

  /** Adding a slash brings nothing back: it would have to be the second of the two at the end. */
  lemma LostSlash(root: string, curr: string, c: string)
    requires EndsWithTwo(root) && !(root <= curr) && !(root <= c) && c == Strip(curr)
    ensures !(root <= c + "/")
  {
    var d := c + "/";
    assert |root| <= |c| ==> d[..|root|] == c[..|root|];
  }

  lemma LostName(root: string, c: string, seg: string)
    requires EndsWithTwo(root) && !(root <= c) && '/' !in seg
    ensures !(root <= c + seg)
  {
    var d := c + seg;
    assert |root| <= |c| ==> d[..|root|] == c[..|root|];
    assert forall i | |c| <= i < |d| :: d[i] in seg;
  }

  lemma {:induction false} LostWalk(root: string, curr: string, segs: seq<string>)
    requires EndsWithTwo(root) && !(root <= curr) && forall i | 0 <= i < |segs| :: '/' !in segs[i]
    ensures !(root <= Walk(curr, segs))
    decreases |segs|
  {
    if segs != [] {
      LostStep(root, curr, segs[0]);
      LostWalk(root, Step(curr, segs[0]), segs[1..]);
    }
  }

  /** For a base with doubled slashes, `root` being the part up to the last of them: the result keeps the root
      exactly when the path never takes a name or a ".." with no segment left after it; then the rest is the
      stack's segments. */
  lemma {:induction false} HostIsKept(root: string, rest: string, other: string)
    requires EndsWithTwo(root)
    requires Normal(rest) && (rest == "" || rest[0] != '/')
    ensures var segs, r := Split(other, '/'), Walk(root + rest, Split(other, '/'));
      && (root <= r <==> StaysAbove(Segments(rest), segs))
      && (root <= r ==> Segments(r[|root|..]) == WalkStack(Segments(rest), segs))
  {
    var segs := Split(other, '/');
    SplitPieces(other);
    var lead, stack, trail := NormalIsPath(rest);
    SegmentsOfPath(lead, stack, trail);
    RestHasNoTrail(rest, lead, stack, trail);
    var trail' := WalkBehind(root, stack, trail, segs);
    if StaysAbove(stack, segs) {
      SegmentsOfPath(false, WalkStack(stack, segs), trail');
    }
  }

  lemma RestHasNoTrail(rest: string, lead: bool, stack: seq<string>, trail: bool)
    requires rest == Path(lead, stack, trail) && (lead <==> rest != "" && rest[0] == '/')
    requires rest != "" && rest[0] != '/' ==> stack != []
    requires rest == "" || rest[0] != '/'
    ensures !lead && (stack == [] ==> !trail)
  {
  }

  predicate DoubledAt(s: string, i: nat) {
    i + 1 < |s| && s[i] == '/' && s[i + 1] == '/'
  }

  /** The last place, not behind `i`, at which two slashes stand. */
  lemma {:induction false} LastDoubled(base: string, i: nat, j: nat) returns (k: nat)
    requires j <= i && DoubledAt(base, j) && forall l: nat | l > i :: !DoubledAt(base, l)
    ensures j <= k && DoubledAt(base, k) && forall l: nat | l > k :: !DoubledAt(base, l)
    decreases i
  {
    if DoubledAt(base, i) {
      k := i;
    } else {
      k := LastDoubled(base, i - 1, j);
    }
  }

  lemma CutBehind(base: string, k: nat)
    requires 0 < k && DoubledAt(base, k) && forall l: nat | l > k :: !DoubledAt(base, l)
    ensures var root, rest := base[..k + 2], base[k + 2..];
      base == root + rest && EndsWithTwo(root) && Normal(rest) && (rest == "" || rest[0] != '/')
  {
    var rest := base[k + 2..];
    forall i | 0 <= i < |rest| - 1 ensures rest[i] != '/' || rest[i + 1] != '/' {
      assert !DoubledAt(base, k + 2 + i);
    }
    assert !DoubledAt(base, k + 1);
    assert rest != "" ==> rest[0] == base[k + 2];
  }

  /** A base is a root that ends in two slashes and a rest without doubled slashes, unless it has none or they
      are at its very beginning only. */
  lemma RootAndRest(base: string) returns (root: string, rest: string)
    requires exists i: nat :: 0 < i && DoubledAt(base, i)
    ensures base == root + rest && EndsWithTwo(root) && Normal(rest) && (rest == "" || rest[0] != '/')
  {
    var i: nat :| 0 < i && DoubledAt(base, i);
    var k := LastDoubled(base, |base|, i);
    CutBehind(base, k);
    root, rest := base[..k + 2], base[k + 2..];
  }

  // ----- Bases that start with two slashes -----

  /** What the loop has when it starts from "//" and a path: the two slashes, or after they were lost a single one,
      and the segments behind. */
  function Rooted(both: bool, stack: seq<string>, trail: bool): string {
    if both then "//" + Path(false, stack, trail) else Path(true, stack, trail)
  }

  /** Whether both slashes are there after a round: a name or a ".." with no segment left takes one away, and a
      "." with no segment left puts it back. */
  predicate BothAfter(both: bool, stack: seq<string>, seg: string) {
    if stack != [] || seg == "" then both else seg == "."
  }

  predicate BothAtEnd(both: bool, stack: seq<string>, segs: seq<string>)
    decreases |segs|
  {
    if segs == [] then both else BothAtEnd(BothAfter(both, stack, segs[0]), Push(stack, segs[0]), segs[1..])
  }

  lemma StepRooted(both: bool, stack: seq<string>, trail: bool, seg: string) returns (trail': bool)
    requires Clean(stack) && '/' !in seg && (stack == [] ==> !trail)
    ensures Clean(Push(stack, seg)) && (Push(stack, seg) == [] ==> !trail')
    ensures Step(Rooted(both, stack, trail), seg) == Rooted(BothAfter(both, stack, seg), Push(stack, seg), trail')
  {
    PushClean(stack, seg);
    if stack == [] {
      trail' := false;
      StepFromSlashes(both, seg);
    } else if both {
      trail' := StepBehind("//", stack, trail, seg);
    } else {
      var lead;
      lead, trail' := StepPushes(true, stack, trail, seg);
    }
  }

  lemma StepFromSlashes(both: bool, seg: string)
    requires '/' !in seg
    ensures Step(Rooted(both, [], false), seg) == Rooted(BothAfter(both, [], seg), Push([], seg), false)
  {
    RootedNothing();
    if seg == "." {
      assert "/" + "/" == "//";
    } else if seg == ".." {
      assert LastIndexOf("/", '/') == 0;
    } else if seg != "" {
      assert [] + [seg] == [seg] && JoinAll([seg]) == seg;
      assert Path(true, [seg], false) == "/" + seg;
    }
  }

  lemma RootedNothing()
    ensures Rooted(true, [], false) == "//" && Rooted(false, [], false) == "/"
    ensures Strip("//") == "/" && Strip("/") == "/"
  {
    assert Path(false, [], false) == "" && Path(true, [], false) == "/";
  }

  lemma {:induction false} WalkRooted(both: bool, stack: seq<string>, trail: bool, segs: seq<string>)
    returns (trail': bool)
    requires Clean(stack) && (stack == [] ==> !trail) && forall i | 0 <= i < |segs| :: '/' !in segs[i]
    ensures Clean(WalkStack(stack, segs)) && (WalkStack(stack, segs) == [] ==> !trail')
    ensures Walk(Rooted(both, stack, trail), segs)
         == Rooted(BothAtEnd(both, stack, segs), WalkStack(stack, segs), trail')
    decreases |segs|
  {
    trail' := trail;
    if segs != [] {
      trail' := StepRooted(both, stack, trail, segs[0]);
      trail' := WalkRooted(BothAfter(both, stack, segs[0]), Push(stack, segs[0]), trail', segs[1..]);
    }
  }

  lemma RootedBoth(stack: seq<string>, trail: bool)
    requires Clean(stack)
    ensures "//" <= Rooted(true, stack, trail) && Segments(Rooted(true, stack, trail)) == stack
  {
    SegmentsOfPath(false, stack, trail);
    TwoInFront(Path(false, stack, trail));
  }

  lemma TwoInFront(path: string)
    ensures Segments("//" + path) == Segments(path)
  {
    SlashInFront(path);
    SlashInFront("/" + path);
    assert "/" + ("/" + path) == "//" + path;
  }

  lemma RootedOne(stack: seq<string>, trail: bool)
    requires Clean(stack) && (stack == [] ==> !trail)
    ensures !("//" <= Rooted(false, stack, trail)) && Segments(Rooted(false, stack, trail)) == stack
  {
    SegmentsOfPath(true, stack, trail);
    if stack == [] {
      RootedNothing();
    } else {
      JoinIsNormal(stack);
      assert Path(true, stack, trail)[1] == JoinAll(stack)[0];
    }
  }

  /** For a base whose only doubled slashes are its first two characters, the segments are the stack's in any case;
      both slashes are there at the end exactly when every name or ".." that met no segment left is followed by a
      "." that meets none either. */
  lemma {:induction false} ServerIsKept(rest: string, other: string)
    requires Normal(rest) && (rest == "" || rest[0] != '/')
    ensures var segs, r := Split(other, '/'), Walk("//" + rest, Split(other, '/'));
      && Segments(r) == WalkStack(Segments(rest), segs)
      && ("//" <= r <==> BothAtEnd(true, Segments(rest), segs))
  {
    var segs := Split(other, '/');
    SplitPieces(other);
    var lead, stack, trail := NormalIsPath(rest);
    SegmentsOfPath(lead, stack, trail);
    RestHasNoTrail(rest, lead, stack, trail);
    var trail' := WalkRooted(true, stack, trail, segs);
    if BothAtEnd(true, stack, segs) {
      RootedBoth(WalkStack(stack, segs), trail');
    } else {
      RootedOne(WalkStack(stack, segs), trail');
    }
  }

  /** Every base is without doubled slashes, or starts with its only ones, or has a root as above. */
  lemma EveryBase(base: string) returns (root: string, rest: string)
    ensures Normal(base)
         || (base == root + rest && (root == "//" || EndsWithTwo(root))
             && Normal(rest) && (rest == "" || rest[0] != '/'))
  {
    root, rest := "", base;
    if i: nat :| 0 < i && DoubledAt(base, i) {
      root, rest := RootAndRest(base);
    } else if DoubledAt(base, 0) {
      StartsDoubled(base);
      root, rest := "//", base[2..];
    } else {
      forall i | 0 <= i < |base| - 1 ensures base[i] != '/' || base[i + 1] != '/' {
        assert !DoubledAt(base, i);
      }
    }
  }

  lemma StartsDoubled(base: string)
    requires DoubledAt(base, 0) && forall i: nat | 0 < i :: !DoubledAt(base, i)
    ensures base == "//" + base[2..] && Normal(base[2..]) && (base[2..] == "" || base[2..][0] != '/')
  {
    var rest := base[2..];
    forall i | 0 <= i < |rest| - 1 ensures rest[i] != '/' || rest[i + 1] != '/' {
      assert !DoubledAt(base, 2 + i);
    }
    assert !DoubledAt(base, 1);
    assert base == "//" + rest;
  }

  /** A host lost: combining "http://a" with "../b" does not keep "http://". */
  lemma HostCanBeLost()
    ensures !("http://" <= Walk("http://" + "a", Split("../b", '/')))
  {
    SplitsOfExample();
    assert !StaysAbove(["a"], ["..", "b"]) by {
      assert Push(["a"], "..") == [] && ["..", "b"][1..] == ["b"];
    }
    HostIsKept("http://", "a", "../b");
  }

  lemma SplitsOfExample()
    ensures Split("../b", '/') == ["..", "b"] && Segments("a") == ["a"]
  {
    SplitFirst("..", '/', "b");
    assert ".." + ['/'] + "b" == "../b";
    assert Split("b", '/') == ["b"] && Split("a", '/') == ["a"];
  }
}
