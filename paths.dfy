/**
 * Node's POSIX `path.extname`, which both the controller (on the uploaded file's name)
 * and the template (on the logo file name) use to pick the image format.
 */
module Paths {

  /** Index of the last `c` in `s`, or -1 when `s` has none. */
  function LastIndexOf(s: string, c: char): (k: int)
    ensures -1 <= k < |s|
    ensures k >= 0 ==> s[k] == c
    ensures forall i :: k < i < |s| ==> s[i] != c
  {
    if s == [] then -1
    else if s[|s| - 1] == c then |s| - 1
    else LastIndexOf(s[..|s| - 1], c)
  }

  /** `s` with its trailing slashes removed. */
  function TrimTrailingSlashes(s: string): (t: string)
    ensures |t| <= |s| && t == s[..|t|]
    ensures t == [] || t[|t| - 1] != '/'
    ensures forall i :: |t| <= i < |s| ==> s[i] == '/'
  {
    if s != [] && s[|s| - 1] == '/' then TrimTrailingSlashes(s[..|s| - 1]) else s
  }

  /** The last path component: the part after the last slash, once trailing slashes are gone. */
  function Basename(path: string): (b: string)
    ensures '/' !in b
    ensures '/' !in path ==> b == path
  {
    var t := TrimTrailingSlashes(path);
    assert '/' !in path ==> t == path;
    t[LastIndexOf(t, '/') + 1..]
  }

  /**
   * The last component is what follows the last slash of the path once its trailing slashes are
   * gone: a suffix of the trimmed path, preceded by a slash unless it is the whole trimmed path.
   */
  lemma BasenameAfterLastSlash(path: string)
    ensures var t, b := TrimTrailingSlashes(path), Basename(path);
      && |b| <= |t| && t[|t| - |b|..] == b
      && (|b| < |t| ==> t[|t| - |b| - 1] == '/')
  {
    var t := TrimTrailingSlashes(path);
    var k := LastIndexOf(t, '/');
    assert Basename(path) == t[k + 1..];
    SuffixAfter(t, k);
  }

  /** The part of `t` after index `k` is a suffix of `t`, preceded by `t[k]` when `k` is an index. */
  lemma SuffixAfter(t: string, k: int)
    requires -1 <= k < |t|
    ensures var b := t[k + 1..];
      |b| <= |t| && t[|t| - |b|..] == b && (|b| < |t| ==> t[|t| - |b| - 1] == t[k])
  {
    var b := t[k + 1..];
    assert |t| - |b| == k + 1;
  }

  /**
   * `path.extname(path)`: the last component's suffix from its last dot, or "" when the component
   * has no dot, when that dot is its first character, or when the component is "..".
   */
  function ExtName(path: string): (ext: string)
    ensures ext == [] || (ext[0] == '.' && '.' !in ext[1..] && '/' !in ext)
    ensures ext != [] ==> |ext| < |Basename(path)| && Basename(path)[|Basename(path)| - |ext|..] == ext
  {
    ComponentExt(Basename(path))
  }

  /** The extension of one path component. */
  function ComponentExt(base: string): (ext: string)
    requires '/' !in base
    ensures ext == [] || (ext[0] == '.' && '.' !in ext[1..] && '/' !in ext)
    ensures ext != [] ==> |ext| < |base| && base[|base| - |ext|..] == ext
  {
    var dot := LastIndexOf(base, '.');
    if dot <= 0 || base == ".." then []
    else
      base[dot..]
  }

  /** A file name `stem.tail` with a non-empty stem has extension `.tail`. */
  lemma ExtNameOfStem(stem: string, tail: string)
    requires stem != [] && '/' !in stem
    requires '.' !in tail && '/' !in tail
    requires !(stem == "." && tail == [])
    ensures ExtName(stem + "." + tail) == "." + tail
  {
    var name := stem + "." + tail;
    assert '/' !in name;
    assert Basename(name) == name;
    LastDotAfterStem(stem, tail);
    NotDotDot(stem, tail);
    assert name[|stem|..] == "." + tail;
  }

  /** In `stem.tail` with a dotless tail, the last dot is the one after the stem. */
  lemma LastDotAfterStem(stem: string, tail: string)
    requires '.' !in tail
    ensures LastIndexOf(stem + "." + tail, '.') == |stem|
  {
    var head := stem + ".";
    var name := head + tail;
    assert |head| == |stem| + 1 && head[|stem|] == '.';
    assert name[|stem|] == head[|stem|];
    forall i | |head| <= i < |name|
      ensures name[i] != '.'
    {
      IndexInTail(head, tail, i);
    }
    LastIndexOfIs(name, '.', |stem|);
  }

  /** An index past the first part of a concatenation lands in the second part. */
  lemma IndexInTail(a: string, b: string, i: int)
    requires |a| <= i < |a| + |b|
    ensures (a + b)[i] == b[i - |a|]
  {
  }

  /** An occurrence with none after it is the last one. */
  lemma LastIndexOfIs(s: string, c: char, k: nat)
    requires k < |s| && s[k] == c
    requires forall i :: k < i < |s| ==> s[i] != c
    ensures LastIndexOf(s, c) == k
  {
  }

  /** `stem.tail` is `..` only for the stem `.` and an empty tail. */
  lemma NotDotDot(stem: string, tail: string)
    requires stem != [] && !(stem == "." && tail == [])
    ensures stem + "." + tail != ".."
  {
    var name := stem + "." + tail;
    if |name| == 2 {
      assert |stem| == 1 && tail == [];
      assert stem == [name[0]];
    }
  }

  /**
   * Appending an extension (or nothing) to a stem without dots or slashes and taking `extname`
   * gives that extension back.
   */
  lemma ExtNameOfExtension(stem: string, ext: string)
    requires stem != [] && '.' !in stem && '/' !in stem
    requires ext == [] || (ext[0] == '.' && '.' !in ext[1..] && '/' !in ext)
    ensures ExtName(stem + ext) == ext
  {
    if ext == [] {
      assert stem + ext == stem;
      ExtNameEmpty(stem);
    } else {
      var tail := ext[1..];
      assert ext == "." + tail;
      AppendAssoc(stem, ".", tail);
      ExtNameOfStem(stem, tail);
    }
  }

  /** Concatenation is associative. */
  lemma AppendAssoc(a: string, b: string, c: string)
    ensures a + (b + c) == a + b + c
  {
  }

  /** The suffix from a last dot that is not the component's first character is the extension. */
  lemma ExtNameFromLastDot(path: string, k: nat)
    requires var b := Basename(path);
      && 0 < k < |b| && b[k] == '.' && b != ".."
      && forall j :: k < j < |b| ==> b[j] != '.'
    ensures ExtName(path) == Basename(path)[k..]
  {
    LastDotExt(Basename(path), k);
  }

  /** The same for one component. */
  lemma LastDotExt(b: string, k: nat)
    requires '/' !in b
    requires 0 < k < |b| && b[k] == '.' && b != ".."
    requires forall j :: k < j < |b| ==> b[j] != '.'
    ensures ComponentExt(b) == b[k..]
  {
    LastIndexOfIs(b, '.', k);
  }

  /** A component without a dot, or whose only dot starts it, has no extension. */
  lemma ExtNameEmpty(name: string)
    requires '/' !in name
    requires '.' !in name || (name != [] && name[0] == '.' && '.' !in name[1..])
    ensures ExtName(name) == []
  {
    var dot := LastIndexOf(name, '.');
    if '.' in name {
      assert forall i :: 0 < i < |name| ==> name[i] == name[1..][i - 1];
      assert dot == 0;
    }
  }

  /** A last component `..` names a directory, not a file with an extension. */
  lemma ExtNameDotDot(path: string)
    ensures Basename(path) == ".." ==> ExtName(path) == []
  {
    if Basename(path) == ".." {
      assert '/' !in "..";
    }
  }

}
