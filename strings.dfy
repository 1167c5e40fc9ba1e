/**
 * The string operations the invoice code calls on its inputs:
 * `String.prototype.toLowerCase`, `split` on one character and `Array.prototype.join`.
 */
module Strings {

  /** Lower-cases one character; only the ASCII letters A-Z are mapped. */
  function LowerChar(c: char): char {
    if 'A' <= c <= 'Z' then (c as int + 32) as char else c
  }

  predicate IsUpper(c: char) {
    'A' <= c <= 'Z'
  }

  /** `s.toLowerCase()`, character by character. */
  function ToLower(s: string): (r: string)
    ensures |r| == |s|
    ensures forall i :: 0 <= i < |s| ==> r[i] == LowerChar(s[i])
  {
    if s == [] then [] else [LowerChar(s[0])] + ToLower(s[1..])
  }

  /** Lower-casing leaves no upper-case letter behind and changes nothing else but letters. */
  lemma ToLowerShape(s: string)
    ensures forall i :: 0 <= i < |s| ==> !IsUpper(ToLower(s)[i])
    ensures forall i :: 0 <= i < |s| && !IsUpper(s[i]) ==> ToLower(s)[i] == s[i]
    ensures forall i :: 0 <= i < |s| ==> (ToLower(s)[i] == '.' <==> s[i] == '.')
    ensures forall i :: 0 <= i < |s| ==> (ToLower(s)[i] == '/' <==> s[i] == '/')
  {
  }

  /** A string with no upper-case letter is its own lower-case form. */
  lemma ToLowerOfLower(s: string)
    requires forall i :: 0 <= i < |s| ==> !IsUpper(s[i])
    ensures ToLower(s) == s
  {
  }

  /** Lower-casing twice is lower-casing once. */
  lemma ToLowerIdempotent(s: string)
    ensures ToLower(ToLower(s)) == ToLower(s)
  {
    ToLowerShape(s);
    ToLowerOfLower(ToLower(s));
  }

  /** `s.split(sep)`: the maximal runs of `s` that do not contain `sep`, in order. */
  function Split(s: string, sep: char): (parts: seq<string>)
    ensures |parts| >= 1
    ensures forall i :: 0 <= i < |parts| ==> sep !in parts[i]
  {
    if s == [] then [[]]
    else
      var rest := Split(s[1..], sep);
      if s[0] == sep then [[]] + rest
      else
        var first := [s[0]] + rest[0];
        assert sep !in first;
        [first] + rest[1..]
  }

  /** `parts.join(glue)`. */
  function Join(parts: seq<string>, glue: string): string {
    if parts == [] then []
    else if |parts| == 1 then parts[0]
    else parts[0] + glue + Join(parts[1..], glue)
  }

  /** Every occurrence of `c` replaced by `repl`; every other character kept, in order. */
  function ReplaceAll(s: string, c: char, repl: string): string {
    if s == [] then [] else (if s[0] == c then repl else [s[0]]) + ReplaceAll(s[1..], c, repl)
  }

  /** Splitting on `sep` and joining with `glue` is replacing each `sep` by `glue`. */
  lemma {:induction false} JoinSplit(s: string, sep: char, glue: string)
    ensures Join(Split(s, sep), glue) == ReplaceAll(s, sep, glue)
  {
    if s != [] {
      JoinSplit(s[1..], sep, glue);
      var rest := Split(s[1..], sep);
      if s[0] == sep {
        assert Split(s, sep) == [[]] + rest;
      } else {
        var parts := Split(s, sep);
        assert parts == [[s[0]] + rest[0]] + rest[1..];
        if |rest| == 1 {
          assert Join(parts, glue) == [s[0]] + rest[0];
        } else {
          assert parts[1..] == rest[1..];
          assert Join(rest, glue) == rest[0] + glue + Join(rest[1..], glue);
          assert Join(parts, glue) == [s[0]] + rest[0] + glue + Join(rest[1..], glue);
        }
      }
    }
  }

  /** Replacing a character by itself changes nothing. */
  lemma {:induction false} ReplaceAllBySelf(s: string, c: char)
    ensures ReplaceAll(s, c, [c]) == s
  {
    if s != [] {
      ReplaceAllBySelf(s[1..], c);
      assert s == [s[0]] + s[1..];
    }
  }

  /** Joining the pieces back with the separator restores the original string. */
  lemma SplitJoinRoundTrip(s: string, sep: char)
    ensures Join(Split(s, sep), [sep]) == s
  {
    JoinSplit(s, sep, [sep]);
    ReplaceAllBySelf(s, sep);
  }

  /** Replacement works piece by piece: it never looks across a boundary. */
  lemma {:induction false} ReplaceAllAppend(a: string, b: string, c: char, repl: string)
    ensures ReplaceAll(a + b, c, repl) == ReplaceAll(a, c, repl) + ReplaceAll(b, c, repl)
  {
    if a != [] {
      ReplaceAllAppend(a[1..], b, c, repl);
      assert (a + b)[1..] == a[1..] + b;
    } else {
      assert a + b == b;
    }
  }

  /** A string without the character is left unchanged. */
  lemma {:induction false} ReplaceAllAbsent(s: string, c: char, repl: string)
    ensures c !in s ==> ReplaceAll(s, c, repl) == s
  {
    if s != [] && c !in s {
      ReplaceAllAbsent(s[1..], c, repl);
      assert s == [s[0]] + s[1..];
    }
  }

  /** Around one character, the rest is replaced independently: `c` becomes `repl`, any other stays. */
  lemma ReplaceAllAt(a: string, x: char, b: string, c: char, repl: string)
    ensures ReplaceAll(a + [x] + b, c, repl)
         == ReplaceAll(a, c, repl) + (if x == c then repl else [x]) + ReplaceAll(b, c, repl)
  {
    ReplaceAllAppend(a + [x], b, c, repl);
    ReplaceAllAppend(a, [x], c, repl);
    assert ReplaceAll([x], c, repl) == (if x == c then repl else [x]) + ReplaceAll([], c, repl);
  }
}
