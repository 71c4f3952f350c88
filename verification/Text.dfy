/** The string operations of JavaScript that the help runtime relies on. */
module Text {

  /** `toLowerCase`, on the letters A to Z. */
  function Lower(s: string): (r: string)
    ensures |r| == |s|
  {
    seq(|s|, i requires 0 <= i < |s| => LowerChar(s[i]))
  }

  function LowerChar(c: char): char {
    if 'A' <= c <= 'Z' then (c as int - 'A' as int + 'a' as int) as char else c
  }

  /** The small letter for each of the letters A to Z; other characters stand for themselves. */
  function Small(c: char): char {
    match c
    case 'A' => 'a' case 'B' => 'b' case 'C' => 'c' case 'D' => 'd' case 'E' => 'e'
    case 'F' => 'f' case 'G' => 'g' case 'H' => 'h' case 'I' => 'i' case 'J' => 'j'
    case 'K' => 'k' case 'L' => 'l' case 'M' => 'm' case 'N' => 'n' case 'O' => 'o'
    case 'P' => 'p' case 'Q' => 'q' case 'R' => 'r' case 'S' => 's' case 'T' => 't'
    case 'U' => 'u' case 'V' => 'v' case 'W' => 'w' case 'X' => 'x' case 'Y' => 'y'
    case 'Z' => 'z' case _ => c
  }

  /** A text with small letters for capital ones. */
  function InSmall(s: string): (r: string)
    ensures |r| == |s| && forall i | 0 <= i < |s| :: r[i] == Small(s[i])
  {
    seq(|s|, i requires 0 <= i < |s| => Small(s[i]))
  }

  lemma LowerIsSmall(s: string)
    ensures Lower(s) == InSmall(s)
  {
    LowerExactly(s, InSmall(s));
  }

  /** `t` is `s` with small letters for capital ones. */
  predicate SmallSpelling(s: string, t: string) {
    |t| == |s| && forall i | 0 <= i < |s| :: t[i] == Small(s[i])
  }

  /** The two texts differ at most in capital and small letters. */
  predicate SameLetters(s: string, t: string) {
    |t| == |s| && forall i | 0 <= i < |s| :: Small(t[i]) == Small(s[i])
  }

  lemma LowerCharIsSmall(c: char)
    ensures LowerChar(c) == Small(c)
  {
  }

  /** Lower-casing gives the spelling in small letters, and nothing else. */
  lemma LowerExactly(s: string, t: string)
    ensures t == Lower(s) <==> SmallSpelling(s, t)
  {
    forall i | 0 <= i < |s| ensures Lower(s)[i] == Small(s[i]) {
      LowerCharIsSmall(s[i]);
    }
  }

  /** Two texts have the same lower-cased form exactly when they have the same letters. */
  lemma SameLowerExactly(s: string, t: string)
    ensures Lower(s) == Lower(t) <==> SameLetters(s, t)
  {
    LowerExactly(s, Lower(s));
    LowerExactly(t, Lower(t));
    if SameLetters(s, t) {
      assert forall i | 0 <= i < |s| :: Lower(s)[i] == Lower(t)[i];
    } else if |s| == |t| {
      var i :| 0 <= i < |s| && Small(t[i]) != Small(s[i]);
      assert Lower(s)[i] != Lower(t)[i];
    }
  }

  /** JavaScript's `<` on strings. */
  predicate Lt(a: string, b: string) {
    if b == "" then false
    else if a == "" then true
    else a[0] < b[0] || (a[0] == b[0] && Lt(a[1..], b[1..]))
  }

  lemma {:induction false} LtOrder(a: string, b: string)
    ensures !Lt(a, a)
    ensures a == b || Lt(a, b) || Lt(b, a)
    ensures !(Lt(a, b) && Lt(b, a))
  {
    if a != "" {
      LtOrder(a[1..], if b == "" then "" else b[1..]);
    }
    if a != "" && b != "" {
      assert a == [a[0]] + a[1..] && b == [b[0]] + b[1..];
    }
  }

  lemma {:induction false} LtTransitive(a: string, b: string, c: string)
    requires Lt(a, b) && Lt(b, c)
    ensures Lt(a, c)
  {
    if a != "" && a[0] == b[0] == c[0] {
      LtTransitive(a[1..], b[1..], c[1..]);
    }
  }

  /** At `k` the texts differ for the first time, and `a` has the smaller character. */
  predicate SmallerAt(a: string, b: string, k: nat) {
    k < |a| && k < |b| && a[..k] == b[..k] && a[k] < b[k]
  }

  /** `a` stands before `b` in a list in ascending order: it is a beginning of it, or has the smaller character
      where they first differ. */
  ghost predicate Ascends(a: string, b: string) {
    a < b || exists k: nat :: SmallerAt(a, b, k)
  }

  /** The comparison is that order. */
  lemma {:induction false} LtExactly(a: string, b: string)
    ensures Lt(a, b) <==> Ascends(a, b)
  {
    if a != "" && b != "" {
      var x, y := a[1..], b[1..];
      assert a == [a[0]] + x && b == [b[0]] + y;
      if a[0] < b[0] {
        assert SmallerAt(a, b, 0);
      } else if a[0] == b[0] {
        LtExactly(x, y);
        AscendsBehind(a, b);
      } else {
        forall k: nat ensures !SmallerAt(a, b, k) {
          FirstsAgree(a, b, k);
        }
      }
    }
  }

  lemma FirstsAgree(a: string, b: string, k: nat)
    requires a != "" && b != ""
    ensures 0 < k <= |a| && k <= |b| && a[..k] == b[..k] ==> a[0] == b[0]
  {
    if 0 < k <= |a| && k <= |b| && a[..k] == b[..k] {
      assert a[0] == a[..k][0] == b[..k][0] == b[0];
    }
  }

  lemma AscendsBehind(a: string, b: string)
    requires a != "" && b != "" && a[0] == b[0]
    ensures Ascends(a, b) <==> Ascends(a[1..], b[1..])
  {
    var x, y := a[1..], b[1..];
    assert a == [a[0]] + x && b == [b[0]] + y;
    if k: nat :| SmallerAt(x, y, k) {
      assert a[..k + 1] == [a[0]] + x[..k] && b[..k + 1] == [b[0]] + y[..k];
      assert SmallerAt(a, b, k + 1);
    }
    if k: nat :| SmallerAt(a, b, k) {
      assert k > 0;
      assert x[..k - 1] == a[..k][1..] && y[..k - 1] == b[..k][1..];
      assert SmallerAt(x, y, k - 1);
    }
  }

  /** `indexOf` of one character; -1 when absent. */
  function IndexOf(s: string, c: char): (r: int)
    ensures -1 <= r < |s|
    ensures r == -1 <==> c !in s
    ensures r >= 0 ==> s[r] == c && c !in s[..r]
  {
    if s == [] then -1
    else if s[0] == c then 0
    else
      var r := IndexOf(s[1..], c);
      if r < 0 then -1
      else
        assert s[..r + 1] == [s[0]] + s[1..][..r];
        r + 1
  }

  /** `lastIndexOf` of one character; -1 when absent. */
  function LastIndexOf(s: string, c: char): (r: int)
    ensures -1 <= r < |s|
    ensures r == -1 <==> c !in s
    ensures r >= 0 ==> s[r] == c && c !in s[r + 1..]
  {
    if s == [] then -1
    else if s[|s| - 1] == c then |s| - 1
    else
      var t := s[..|s| - 1];
      assert s == t + [s[|s| - 1]];
      var r := LastIndexOf(t, c);
      assert r >= 0 ==> s[r + 1..] == t[r + 1..] + [s[|s| - 1]];
      r
  }

  lemma LastIndexIs(s: string, k: nat, c: char)
    requires k < |s| && s[k] == c && c !in s[k + 1..]
    ensures LastIndexOf(s, c) == k
  {
    var r := LastIndexOf(s, c);
    forall i | k < i < |s| ensures s[i] != c {
      assert s[i] == s[k + 1..][i - k - 1];
    }
    forall i | r < i < |s| ensures s[i] != c {
      assert s[i] == s[r + 1..][i - r - 1];
    }
  }

  /** `substring(n)`: empty when the string is shorter than `n`, and a negative `n` reads as 0. */
  function Drop(s: string, n: int): string {
    if n <= 0 then s else if n <= |s| then s[n..] else ""
  }

  /** `substring(0, n)`, with `n` brought into range. */
  function Take(s: string, n: int): string {
    if n <= 0 then "" else if n <= |s| then s[..n] else s
  }

  /** `StartsWith(prefix, false)`: a prefix test that ignores case. */
  predicate StartsWithIgnoreCase(s: string, prefix: string) {
    |prefix| <= |s| && Lower(s)[..|prefix|] == Lower(prefix)
  }

  lemma StartsExactly(s: string, prefix: string)
    ensures StartsWithIgnoreCase(s, prefix) <==> |prefix| <= |s| && SameLetters(s[..|prefix|], prefix)
  {
    if |prefix| <= |s| {
      SameLowerExactly(s[..|prefix|], prefix);
      assert Lower(s)[..|prefix|] == Lower(s[..|prefix|]);
    }
  }

  /** `split` at one character: always at least one piece. */
  function Split(s: string, c: char): (r: seq<string>)
    ensures |r| >= 1
    ensures c in s ==> |r| >= 2
    decreases |s|
  {
    var k := IndexOf(s, c);
    if k < 0 then [s] else [s[..k]] + Split(s[k + 1..], c)
  }

  /** The pieces with one `c` between neighbours: what `split` undoes. */
  function Join(pieces: seq<string>, c: char): string
    requires pieces != []
  {
    if |pieces| == 1 then pieces[0] else pieces[0] + [c] + Join(pieces[1..], c)
  }

  lemma {:induction false} IndexOfFirst(a: string, c: char, b: string)
    requires c !in a
    ensures IndexOf(a + [c] + b, c) == |a|
  {
    var s := a + [c] + b;
    assert s[|a|] == c;
    assert forall k | 0 <= k < |a| :: s[k] == a[k];
  }

  lemma SplitFirst(h: string, c: char, rest: string)
    requires c !in h
    ensures Split(h + [c] + rest, c) == [h] + Split(rest, c)
  {
    IndexOfFirst(h, c, rest);
    var s := h + [c] + rest;
    assert s[..|h|] == h && s[|h| + 1..] == rest;
  }

  lemma RegroupText(h: string, m: string, t: string, n: string, b: string)
    ensures (h + m + t) + n + b == h + m + (t + n + b)
  {
  }

  lemma {:induction false} SplitConcat(a: string, c: char, b: string)
    ensures Split(a + [c] + b, c) == Split(a, c) + Split(b, c)
    decreases |a|
  {
    var k := IndexOf(a, c);
    if k < 0 {
      SplitFirst(a, c, b);
    } else {
      var h, t := a[..k], a[k + 1..];
      assert a == h + [c] + t;
      SplitConcat(t, c, b);
      RegroupText(h, [c], t, [c], b);
      SplitFirst(h, c, t + [c] + b);
      SplitFirst(h, c, t);
      RegroupPieces(h, Split(t, c), Split(b, c));
    }
  }

  lemma RegroupPieces(h: string, x: seq<string>, y: seq<string>)
    ensures [h] + (x + y) == ([h] + x) + y
  {
  }

  /** Splitting joined pieces at the joining character gives the pieces back, provided none of
      them contains it. */
  lemma {:induction false} SplitJoin(pieces: seq<string>, c: char)
    requires pieces != []
    requires forall i | 0 <= i < |pieces| :: c !in pieces[i]
    ensures Split(Join(pieces, c), c) == pieces
  {
    if |pieces| == 1 {
      assert pieces == [pieces[0]];
    } else {
      SplitFirst(pieces[0], c, Join(pieces[1..], c));
      SplitJoin(pieces[1..], c);
      assert pieces == [pieces[0]] + pieces[1..];
    }
  }

  /** Splitting gives at least the joined pieces back, and more when the separator occurs
      inside one of them. */
  lemma {:induction false} SplitCount(pieces: seq<string>, c: char)
    requires pieces != []
    ensures |Split(Join(pieces, c), c)| >= |pieces|
    ensures (exists i :: 0 <= i < |pieces| && c in pieces[i]) ==> |Split(Join(pieces, c), c)| > |pieces|
  {
    if |pieces| > 1 {
      SplitConcat(pieces[0], c, Join(pieces[1..], c));
      SplitCount(pieces[1..], c);
      if i :| 0 < i < |pieces| && c in pieces[i] {
        assert c in pieces[1..][i - 1];
      }
    }
  }

  /** The decimal text of a natural number. */
  function Decimal(n: nat): (r: string)
    ensures |r| > 0 && forall i | 0 <= i < |r| :: '0' <= r[i] <= '9'
  {
    (if n < 10 then "" else Decimal(n / 10)) + [Digit(n % 10)]
  }

  function Digit(d: nat): char
    requires d < 10
  {
    ('0' as int + d) as char
  }

  /** The digits of a number's decimal text. */
  lemma DecimalDigits(n: nat, d: nat)
    requires d < 10
    ensures Decimal(d) == ["0123456789"[d]]
    ensures n > 0 ==> Decimal(10 * n + d) == Decimal(n) + ["0123456789"[d]]
  {
    assert Digit(d) == "0123456789"[d];
    assert (10 * n + d) / 10 == n && (10 * n + d) % 10 == d;
    assert "" + [Digit(d)] == [Digit(d)];
  }

  predicate IsSpace(c: char) {
    c in {' ', '\t', '\n', '\r', '\U{000B}', '\U{000C}', '\U{00A0}', '\U{FEFF}'}
  }

  function TrimLeft(s: string): string {
    if s != "" && IsSpace(s[0]) then TrimLeft(s[1..]) else s
  }

  /** `parseInt`: the number that the text spells after spaces and a sign, hexadecimal behind "0x", reading up
      to the first other character; -1 stands for NaN, since it takes the same branches. */
  function ParseInt(s: string): int {
    var t := TrimLeft(s);
    if t != "" && t[0] == '-' then
      var r := ParseUnsigned(t[1..]); if r < 0 then -1 else -r
    else ParseUnsigned(if t != "" && t[0] == '+' then t[1..] else t)
  }

  function ParseUnsigned(s: string): (r: int)
    ensures r >= -1
  {
    if |s| >= 2 && s[0] == '0' && s[1] in {'x', 'X'} then
      if |s| == 2 || HexValue(s[2]) < 0 then -1 else ParseHex(s[2..], 0)
    else if s == "" || !('0' <= s[0] <= '9') then -1
    else ParseDigits(s, 0)
  }

  /** The value of a hexadecimal digit; -1 for other characters. */
  function HexValue(c: char): int {
    if '0' <= c <= '9' then c as int - '0' as int
    else if 'a' <= c <= 'f' then c as int - 'a' as int + 10
    else if 'A' <= c <= 'F' then c as int - 'A' as int + 10
    else -1
  }

  function ParseHex(s: string, acc: nat): nat {
    if s == "" || HexValue(s[0]) < 0 then acc else ParseHex(s[1..], 16 * acc + HexValue(s[0]))
  }

  function ParseDigits(s: string, acc: nat): nat {
    if s == "" || !('0' <= s[0] <= '9') then acc
    else ParseDigits(s[1..], 10 * acc + (s[0] as int - '0' as int))
  }

  lemma {:induction false} ParseDigitsSplit(a: string, b: string, acc: nat)
    requires forall i | 0 <= i < |a| :: '0' <= a[i] <= '9'
    ensures ParseDigits(a + b, acc) == ParseDigits(b, ParseDigits(a, acc))
  {
    if a == [] {
      assert a + b == b;
    } else {
      assert (a + b)[1..] == a[1..] + b;
      ParseDigitsSplit(a[1..], b, 10 * acc + (a[0] as int - '0' as int));
    }
  }

  lemma {:induction false} ParseDecimalDigits(n: nat)
    ensures ParseDigits(Decimal(n), 0) == n
  {
    if n >= 10 {
      ParseDecimalDigits(n / 10);
      ParseDigitsSplit(Decimal(n / 10), [Digit(n % 10)], 0);
    }
  }

  /** Reading the decimal text of a number gives the number back. */
  lemma ParseDecimal(n: nat)
    ensures ParseInt(Decimal(n)) == n
  {
    ParseDecimalDigits(n);
    var d := Decimal(n);
    assert '0' <= d[0] <= '9';
    assert !IsSpace(d[0]) && TrimLeft(d) == d;
    assert |d| >= 2 ==> '0' <= d[1] <= '9';
  }

  lemma {:induction false} TrimSpaces(spaces: string, s: string)
    requires (forall i | 0 <= i < |spaces| :: IsSpace(spaces[i])) && s != "" && !IsSpace(s[0])
    ensures TrimLeft(spaces + s) == s
  {
    if spaces == "" {
      assert spaces + s == s;
    } else {
      assert (spaces + s)[1..] == spaces[1..] + s;
      TrimSpaces(spaces[1..], s);
    }
  }

  /** A number is read behind spaces and a sign, up to whatever is no digit. */
  lemma ParseIntReads(spaces: string, n: nat, tail: string)
    requires forall i | 0 <= i < |spaces| :: IsSpace(spaces[i])
    requires tail == "" || (!('0' <= tail[0] <= '9') && tail[0] !in {'x', 'X'})
    ensures ParseInt(spaces + (Decimal(n) + tail)) == n
    ensures ParseInt(spaces + ("+" + (Decimal(n) + tail))) == n
    ensures ParseInt(spaces + ("-" + (Decimal(n) + tail))) + n == 0
  {
    var t := Decimal(n) + tail;
    assert t[0] == Decimal(n)[0];
    TrimSpaces(spaces, t);
    TrimSpaces(spaces, "+" + t);
    TrimSpaces(spaces, "-" + t);
    assert ("+" + t)[1..] == t && ("-" + t)[1..] == t;
    UnsignedReads(n, tail);
  }

  lemma UnsignedReads(n: nat, tail: string)
    requires tail == "" || (!('0' <= tail[0] <= '9') && tail[0] !in {'x', 'X'})
    ensures ParseUnsigned(Decimal(n) + tail) == n
  {
    var d := Decimal(n);
    ParseDecimalDigits(n);
    ParseDigitsSplit(d, tail, 0);
    assert (d + tail)[0] == d[0];
    assert |d + tail| >= 2 ==> (d + tail)[1] == if |d| >= 2 then d[1] else tail[0];
  }

  /** The number that hexadecimal digits stand for. */
  function Hexadecimal(digits: seq<nat>): nat {
    if digits == [] then 0 else 16 * Hexadecimal(digits[..|digits| - 1]) + digits[|digits| - 1]
  }

  predicate SpellsHexadecimal(s: string, digits: seq<nat>) {
    |s| == |digits| && forall i | 0 <= i < |digits| ::
      digits[i] < 16 && s[i] in ["0123456789abcdef"[digits[i]], "0123456789ABCDEF"[digits[i]]]
  }

  lemma HexValueOf(d: nat)
    requires d < 16
    ensures HexValue("0123456789abcdef"[d]) == HexValue("0123456789ABCDEF"[d]) == d
  {
  }

  lemma {:induction false} ParseHexSplit(a: string, b: string, acc: nat)
    requires forall i | 0 <= i < |a| :: HexValue(a[i]) >= 0
    ensures ParseHex(a + b, acc) == ParseHex(b, ParseHex(a, acc))
  {
    if a == [] {
      assert a + b == b;
    } else {
      assert (a + b)[1..] == a[1..] + b;
      ParseHexSplit(a[1..], b, 16 * acc + HexValue(a[0]));
    }
  }

  lemma {:induction false} ParseHexReads(s: string, digits: seq<nat>)
    requires SpellsHexadecimal(s, digits)
    ensures ParseHex(s, 0) == Hexadecimal(digits) && forall i | 0 <= i < |s| :: HexValue(s[i]) == digits[i]
  {
    forall i | 0 <= i < |s| ensures HexValue(s[i]) == digits[i] {
      HexValueOf(digits[i]);
    }
    if s != [] {
      var last := |s| - 1;
      ParseHexReads(s[..last], digits[..last]);
      ParseHexSplit(s[..last], [s[last]], 0);
      assert s == s[..last] + [s[last]] && [s[last]][1..] == "";
    }
  }

  /** Behind "0x" a hexadecimal number is read, up to whatever is no such digit. */
  lemma HexadecimalReads(s: string, digits: seq<nat>, tail: string)
    requires s != "" && SpellsHexadecimal(s, digits) && (tail == "" || HexValue(tail[0]) < 0)
    ensures ParseInt("0x" + (s + tail)) == Hexadecimal(digits)
  {
    var t := "0x" + (s + tail);
    ParseHexReads(s, digits);
    ParseHexSplit(s, tail, 0);
    assert t[0] == '0' && t[1] == 'x' && t[2..] == s + tail && t[2] == s[0];
    assert TrimLeft(t) == t;
  }
}
