/** The parts of a URL that the runtime takes apart. */
module Url {
  import opened Text

  /** The text before the later of the first '#' and the first '?'. */
  function PlainPath(src: string): string {
    var fragment, query := IndexOf(src, '#'), IndexOf(src, '?');
    var pos := if fragment > query then fragment else query;
    if pos < 0 then src else src[..pos]
  }

  function FileName(plain: string): string {
    plain[LastIndexOf(plain, '/') + 1..]
  }

  function NameWithExtension(src: string): string {
    FileName(PlainPath(src))
  }

  /** The file name up to its last dot; empty when it has none. */
  function Name(src: string): string {
    BeforeDot(NameWithExtension(src))
  }

  function BeforeDot(file: string): string {
    Take(file, LastIndexOf(file, '.'))
  }

  /** The file name after its last dot; all of it when it has none. */
  function Extension(src: string): string {
    AfterDot(NameWithExtension(src))
  }

  function AfterDot(file: string): string {
    file[LastIndexOf(file, '.') + 1..]
  }

  /** The part of `url` after `base` when it starts with it, else all of it. */
  function ToRelative(url: string, base: string): string {
    if base <= url then url[|base|..] else url
  }

  function ToExtension(url: string, ext: string): string {
    Take(url, LastIndexOf(url, '.')) + "." + ext
  }

  /** The extension a URL already has can be set again without changing it. */
  lemma ToExtensionTwice(url: string, ext: string)
    requires '.' !in ext
    ensures ToExtension(ToExtension(url, ext), ext) == ToExtension(url, ext)
  {
    DotIsLast(Take(url, LastIndexOf(url, '.')), ext);
  }

  lemma {:induction false} DotIsLast(left: string, ext: string)
    requires '.' !in ext
    ensures LastIndexOf(left + "." + ext, '.') == |left|
    ensures Take(left + "." + ext, |left|) == left
  {
    var s := left + "." + ext;
    if ext != "" {
      var e := ext[..|ext| - 1];
      assert s[..|s| - 1] == left + "." + e;
      assert ext == e + [ext[|ext| - 1]];
      DotIsLast(left, e);
    }
  }

  lemma AfterLastSlash(plain: string)
    ensures '/' !in plain[LastIndexOf(plain, '/') + 1..]
  {
  }

  /** A file name holds no slash. */
  lemma NameHasNoSlash(src: string)
    ensures '/' !in Name(src)
  {
    AfterLastSlash(PlainPath(src));
    var file := NameWithExtension(src);
    TakeMembers(file, LastIndexOf(file, '.'), '/');
  }

  lemma TakeMembers(s: string, n: int, c: char)
    requires c !in s
    ensures c !in Take(s, n)
  {
  }

  // ----- What the parts are -----

  /** `text` is the address without its end: nothing is cut when it has neither a '#' nor a '?'; otherwise it is cut
      at the first '#' or the first '?', whichever comes later. */
  predicate IsPlain(src: string, text: string) {
    if '#' !in src && '?' !in src then text == src
    else
      text < src && if src[|text|] == '#' then '#' !in text && ('?' in src ==> '?' in text)
                    else src[|text|] == '?' && '?' !in text && ('#' in src ==> '#' in text)
  }

  lemma PlainPathExactly(src: string, text: string)
    ensures PlainPath(src) == text <==> IsPlain(src, text)
  {
    var fragment, query := IndexOf(src, '#'), IndexOf(src, '?');
    if text < src {
      assert text == src[..|text|];
      assert forall i | 0 <= i < |text| :: text[i] == src[i];
    }
    if '#' in src || '?' in src {
      CutBefore(src, fragment, '?');
      CutBefore(src, query, '#');
    }
  }

  /** A character is in what stands before `k` exactly when its first place is. */
  lemma CutBefore(src: string, k: int, c: char)
    ensures 0 <= k < |src| ==> (c in src[..k] <==> 0 <= IndexOf(src, c) < k)
  {
    var i := IndexOf(src, c);
    if 0 <= k < |src| && 0 <= i < k {
      assert src[..k][i] == c;
    }
  }

  /** `ext` is what stands after the last dot or slash of a text, or all of it. */
  predicate IsEnding(head: string, ext: string) {
    (head == "" || head[|head| - 1] in {'.', '/'}) && '.' !in ext && '/' !in ext
  }

  /** The extension is what stands after the last dot or slash of the address without its end. */
  lemma ExtensionOf(src: string, head: string, ext: string)
    requires IsPlain(src, head + ext) && IsEnding(head, ext)
    ensures Extension(src) == ext
  {
    PlainPathExactly(src, head + ext);
    EndingBehind(head, ext);
  }

  lemma EndingBehind(head: string, ext: string)
    requires IsEnding(head, ext)
    ensures AfterDot(FileName(head + ext)) == ext
  {
    if head == "" || head[|head| - 1] == '/' {
      EndingBehindSlash(head, ext);
    } else {
      EndingBehindDot(head, ext, LastIndexOf(head + ext, '/'));
    }
  }

  lemma EndingBehindSlash(head: string, ext: string)
    requires (head == "" || head[|head| - 1] == '/') && IsEnding(head, ext)
    ensures AfterDot(FileName(head + ext)) == ext
  {
    var plain := head + ext;
    assert plain[|head|..] == ext;
    if head != "" {
      LastIndexIs(plain, |head| - 1, '/');
    } else {
      assert plain == ext && plain[0..] == plain;
    }
    assert ext[0..] == ext;
  }

  lemma EndingBehindDot(head: string, ext: string, s: int)
    requires head != "" && head[|head| - 1] == '.' && IsEnding(head, ext) && s == LastIndexOf(head + ext, '/')
    ensures -1 <= s < |head| - 1
    ensures AfterDot((head + ext)[s + 1..]) == ext
  {
    var plain := head + ext;
    forall i | |head| <= i < |plain| ensures plain[i] != '/' {
      assert plain[i] == ext[i - |head|];
    }
    assert plain[|head| - 1] == '.';
    var file, k := plain[s + 1..], |head| - 2 - s;
    assert file[k] == '.' && file[k + 1..] == ext;
    LastIndexIs(file, k, '.');
  }

  /** A text behind the last `c`, with what stands before it. */
  lemma SplitsLast(s: string, c: char) returns (head: string)
    ensures head == s[..LastIndexOf(s, c) + 1] && s == head + s[LastIndexOf(s, c) + 1..]
    ensures (head == "" || head[|head| - 1] == c) && c !in s[LastIndexOf(s, c) + 1..]
  {
    head := s[..LastIndexOf(s, c) + 1];
  }

  /** Every address has such an ending. */
  lemma EndingExists(src: string) returns (head: string)
    ensures IsPlain(src, head + Extension(src)) && IsEnding(head, Extension(src))
  {
    var plain, file := PlainPath(src), NameWithExtension(src);
    PlainPathExactly(src, plain);
    var folder := SplitsLast(plain, '/');
    var base := SplitsLast(file, '.');
    head := folder + base;
    assert plain == folder + file && file == base + Extension(src);
    Regroup(folder, base, Extension(src));
    TailMembers(file, LastIndexOf(file, '.') + 1, '/');
  }

  lemma Regroup(a: string, b: string, c: string)
    ensures a + (b + c) == a + b + c
  {
  }

  lemma TailMembers(s: string, n: nat, c: char)
    requires n <= |s| && c !in s
    ensures c !in s[n..]
  {
  }

  /** The name is the file name without the extension and its dot. */
  lemma NameOf(src: string, folder: string, base: string, ext: string)
    requires IsPlain(src, folder + base + "." + ext) && (folder == "" || folder[|folder| - 1] == '/')
    requires '/' !in base && '.' !in ext && '/' !in ext
    ensures Name(src) == base
  {
    PlainPathExactly(src, folder + base + "." + ext);
    NameBehind(folder, base, ext);
  }

  lemma NameBehind(folder: string, base: string, ext: string)
    requires (folder == "" || folder[|folder| - 1] == '/') && '/' !in base && '.' !in ext && '/' !in ext
    ensures BeforeDot(FileName(folder + base + "." + ext)) == base
  {
    FileBehind(folder, base + "." + ext);
    assert folder + (base + "." + ext) == folder + base + "." + ext;
    DotIsLast(base, ext);
  }

  /** A file name without a dot has no name but an extension. */
  lemma NoDotNoName(src: string, folder: string, file: string)
    requires IsPlain(src, folder + file) && (folder == "" || folder[|folder| - 1] == '/')
    requires '/' !in file && '.' !in file
    ensures Name(src) == "" && Extension(src) == file
  {
    PlainPathExactly(src, folder + file);
    FileBehind(folder, file);
  }

  lemma FileBehind(folder: string, file: string)
    requires (folder == "" || folder[|folder| - 1] == '/') && '/' !in file
    ensures FileName(folder + file) == file
  {
    var plain := folder + file;
    assert plain[|folder|..] == file;
    if folder != "" {
      LastIndexIs(plain, |folder| - 1, '/');
    }
  }

  /** An address in whose plain part both marks are left over. */
  lemma KeepsAMark(src: string)
    ensures '#' in PlainPath(src) || '?' in PlainPath(src) <==> '#' in src && '?' in src
  {
    PlainPathExactly(src, PlainPath(src));
  }

  /** Setting an extension replaces what stands after the last dot; without a dot only the new extension is left. */
  lemma ToExtensionOf(left: string, was: string, ext: string)
    requires '.' !in was
    ensures ToExtension(left + "." + was, ext) == left + "." + ext
    ensures ToExtension(was, ext) == "." + ext
  {
    DotIsLast(left, was);
  }
}
