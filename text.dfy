/**
 * The handful of Python string operations the prompt and instruction
 * builders rely on: `str.splitlines`, `str.strip`, `sep.join` and
 * `str.replace` with a one-character pattern.
 *
 * Two deliberate restrictions hold throughout the model:
 *  - `SplitLines` breaks only at '\n' (Python also breaks at '\r', '\v',
 *    '\f', '\x1c'..'\x1e', '\x85', U+2028 and U+2029);
 *  - `IsSpace` is the ASCII part of Python's `str.isspace`
 *    (' ', '\t'..'\r', '\x1c'..'\x1f'); Unicode spaces are not trimmed.
 */
module Text {

  /** ASCII characters for which Python's `str.isspace()` holds. */
  predicate IsSpace(c: char) {
    c == ' ' || ('\t' <= c <= '\r') || ('\U{1C}' <= c <= '\U{1F}')
  }

  /** Every character of `s` is white space (vacuously true of ""). */
  predicate AllSpace(s: string) {
    forall i :: 0 <= i < |s| ==> IsSpace(s[i])
  }

  /** Python's truthiness test `s.strip()`: false exactly for blank text. */
  predicate IsBlank(s: string) {
    AllSpace(s)
  }

  predicate HasNewline(s: string) {
    '\n' in s
  }

  /** Position of the first `c` in `s`, or `|s|` when there is none. */
  function IndexOf(s: string, c: char): (k: nat)
    ensures k <= |s|
    ensures forall i :: 0 <= i < k ==> s[i] != c
    ensures k < |s| ==> s[k] == c
  {
    if s == [] then 0 else if s[0] == c then 0 else 1 + IndexOf(s[1..], c)
  }

  /** `sep.join(parts)`. */
  function Join(parts: seq<string>, sep: string): string
  {
    if |parts| == 0 then ""
    else if |parts| == 1 then parts[0]
    else parts[0] + sep + Join(parts[1..], sep)
  }

  /** Appending a part to a joined list adds one separator and the part, unless the list was empty. */
  lemma {:induction false} JoinSnoc(parts: seq<string>, last: string, sep: string)
    ensures Join(parts + [last], sep) == if parts == [] then last else Join(parts, sep) + sep + last
    decreases |parts|
  {
    if |parts| > 1 {
      assert (parts + [last])[1..] == parts[1..] + [last];
      JoinSnoc(parts[1..], last, sep);
    } else if |parts| == 1 {
      assert (parts + [last])[1..] == [last];
    }
  }

  /** The concatenation of all parts, `"".join(parts)`. */
  function Concat(parts: seq<string>): string
  {
    if parts == [] then "" else parts[0] + Concat(parts[1..])
  }

  /** `s` without one final '\n', the part `splitlines` does not turn into an empty line. */
  function DropFinalNewline(s: string): string
  {
    if s != [] && s[|s| - 1] == '\n' then s[..|s| - 1] else s
  }

  /**
   * `s.splitlines()` restricted to '\n': the text between newlines, with no
   * empty line produced by a final newline, and no line at all for "".
   */
  function SplitLines(s: string): (lines: seq<string>)
    ensures forall i :: 0 <= i < |lines| ==> !HasNewline(lines[i])
    ensures lines == [] <==> s == ""
    decreases |s|
  {
    if s == [] then []
    else
      var k := IndexOf(s, '\n');
      if k == |s| then [s] else [s[..k]] + SplitLines(s[k + 1..])
  }

  /** Joining the lines with '\n' gives the text back, less one final newline. */
  lemma {:induction false} JoinSplitLines(s: string)
    ensures Join(SplitLines(s), "\n") == DropFinalNewline(s)
    decreases |s|
  {
    if s != [] {
      var k := IndexOf(s, '\n');
      if k < |s| {
        var line, rest := s[..k], s[k + 1..];
        JoinSplitLines(rest);
        if rest == [] {
          assert s == line + "\n";
        } else {
          JoinCons(line, SplitLines(rest), "\n");
          DropFinalNewlineAppend(line + "\n", rest);
          assert s == (line + "\n") + rest;
        }
      }
    }
  }

  lemma JoinCons(head: string, tail: seq<string>, sep: string)
    requires tail != []
    ensures Join([head] + tail, sep) == head + sep + Join(tail, sep)
  {
    assert ([head] + tail)[1..] == tail;
  }

  lemma DropFinalNewlineAppend(p: string, rest: string)
    requires rest != []
    ensures DropFinalNewline(p + rest) == p + DropFinalNewline(rest)
  {
    var s := p + rest;
    assert s[|s| - 1] == rest[|rest| - 1];
    if rest[|rest| - 1] == '\n' {
      assert s[..|s| - 1] == p + rest[..|rest| - 1];
    }
  }

  /** Lines that `SplitLines` reproduces from their '\n'-join. */
  predicate SplittableLines(lines: seq<string>) {
    (forall i :: 0 <= i < |lines| ==> !HasNewline(lines[i]))
    && (lines == [] || lines[|lines| - 1] != "")
  }

  /** The converse direction: splitting the '\n'-join of such lines gives them back. */
  lemma {:induction false} SplitJoinLines(lines: seq<string>)
    requires SplittableLines(lines)
    ensures SplitLines(Join(lines, "\n")) == lines
    decreases |lines|
  {
    if |lines| == 1 {
      assert !HasNewline(lines[0]);
      IndexOfAbsent(lines[0], '\n');
    } else if |lines| > 1 {
      var head, tail := lines[0], lines[1..];
      SplittableTail(lines);
      SplitJoinLines(tail);
      assert lines == [head] + tail;
      JoinCons(head, tail, "\n");
      assert !HasNewline(head);
      SplitLinesCons(head, Join(tail, "\n"));
    }
  }

  lemma SplittableTail(lines: seq<string>)
    requires SplittableLines(lines) && lines != []
    ensures SplittableLines(lines[1..])
  {
    var tail := lines[1..];
    forall i | 0 <= i < |tail| ensures !HasNewline(tail[i]) { assert tail[i] == lines[i + 1]; }
  }

  lemma {:induction false} IndexOfAbsent(s: string, c: char)
    requires c !in s
    ensures IndexOf(s, c) == |s|
    decreases |s|
  {
    if s != [] {
      assert s[0] == s[0];
      assert c !in s[1..] by { assert forall i :: 0 <= i < |s| - 1 ==> s[1..][i] == s[i + 1]; }
      IndexOfAbsent(s[1..], c);
    }
  }

  lemma {:induction false} IndexOfPrefix(head: string, c: char, rest: string)
    requires c !in head
    ensures IndexOf(head + [c] + rest, c) == |head|
    decreases |head|
  {
    var s := head + [c] + rest;
    if head != [] {
      assert s[0] == head[0];
      assert s[1..] == head[1..] + [c] + rest;
      assert c !in head[1..] by { assert forall i :: 0 <= i < |head| - 1 ==> head[1..][i] == head[i + 1]; }
      IndexOfPrefix(head[1..], c, rest);
    } else {
      assert s[0] == c;
    }
  }

  /** One step of `SplitLines`: a newline-free line followed by '\n' is split off. */
  lemma SplitLinesCons(head: string, rest: string)
    requires !HasNewline(head)
    requires rest != []
    ensures SplitLines(head + "\n" + rest) == [head] + SplitLines(rest)
  {
    var s := head + "\n" + rest;
    IndexOfPrefix(head, '\n', rest);
    assert s[..|head|] == head;
    assert s[|head| + 1..] == rest;
  }

  /** `s.lstrip()` over ASCII white space. */
  function TrimStart(s: string): (r: string)
    ensures |r| <= |s| && r == s[|s| - |r|..]
    ensures AllSpace(s[..|s| - |r|])
    ensures r == [] || !IsSpace(r[0])
  {
    if s != [] && IsSpace(s[0]) then
      var r := TrimStart(s[1..]);
      assert s[1..][..|s| - 1 - |r|] == s[1..|s| - |r|];
      r
    else s
  }

  /** `s.rstrip()` over ASCII white space. */
  function TrimEnd(s: string): (r: string)
    ensures |r| <= |s| && r == s[..|r|]
    ensures AllSpace(s[|r|..])
    ensures r == [] || !IsSpace(r[|r| - 1])
  {
    if s != [] && IsSpace(s[|s| - 1]) then
      var r := TrimEnd(s[..|s| - 1]);
      assert s[..|s| - 1][|r|..] == s[|r|..|s| - 1];
      r
    else s
  }

  /** `s.strip()` over ASCII white space. */
  function Strip(s: string): (r: string)
    ensures |r| <= |s|
    ensures r == "" <==> IsBlank(s)
    ensures r == [] || (!IsSpace(r[0]) && !IsSpace(r[|r| - 1]))
  {
    StripBlank(s);
    TrimEnd(TrimStart(s))
  }

  lemma StripBlank(s: string)
    ensures TrimEnd(TrimStart(s)) == "" <==> IsBlank(s)
  {
    var t := TrimStart(s);
    var r := TrimEnd(t);
    if t != "" {
      assert s[|s| - |t|] == t[0];
      assert !IsBlank(s);
      assert r != "" by { assert !IsSpace(t[0]); assert t[..|r|] == r; }
    } else {
      assert AllSpace(s[..|s|]);
      assert s[..|s|] == s;
    }
  }

  /**
   * `Strip` removes exactly the white space around the text it keeps: any
   * white-space padding of a text that has no white space at either end
   * strips back to that text.
   */
  lemma StripPadded(pre: string, core: string, post: string)
    requires AllSpace(pre) && AllSpace(post)
    requires core == [] || (!IsSpace(core[0]) && !IsSpace(core[|core| - 1]))
    ensures Strip(pre + core + post) == core
  {
    var s := pre + core + post;
    if core == [] {
      assert IsBlank(s) by {
        forall i | 0 <= i < |s| ensures IsSpace(s[i]) {
          if i < |pre| { assert s[i] == pre[i]; } else { assert s[i] == post[i - |pre|]; }
        }
      }
    } else {
      TrimStartPadded(pre, core + post);
      assert s == pre + (core + post);
      TrimEndPadded(core, post);
    }
  }

  lemma {:induction false} TrimStartPadded(pre: string, rest: string)
    requires AllSpace(pre)
    requires rest != [] && !IsSpace(rest[0])
    ensures TrimStart(pre + rest) == rest
    decreases |pre|
  {
    if pre != [] {
      assert (pre + rest)[1..] == pre[1..] + rest;
      assert AllSpace(pre[1..]) by {
        forall i | 0 <= i < |pre| - 1 ensures IsSpace(pre[1..][i]) { assert pre[1..][i] == pre[i + 1]; }
      }
      TrimStartPadded(pre[1..], rest);
    } else {
      assert pre + rest == rest;
    }
  }

  lemma {:induction false} TrimEndPadded(rest: string, post: string)
    requires AllSpace(post)
    requires rest != [] && !IsSpace(rest[|rest| - 1])
    ensures TrimEnd(rest + post) == rest
    decreases |post|
  {
    if post != [] {
      var p := post[..|post| - 1];
      assert (rest + post)[..|rest + post| - 1] == rest + p;
      assert AllSpace(p) by {
        forall i | 0 <= i < |p| ensures IsSpace(p[i]) { assert p[i] == post[i]; }
      }
      TrimEndPadded(rest, p);
    } else {
      assert rest + post == rest;
    }
  }

  /** `s.replace(c, t)` for a one-character pattern `c`. */
  function ReplaceChar(s: string, c: char, t: string): (r: string)
    ensures c !in s ==> r == s
    ensures c !in t ==> c !in r
  {
    if s == [] then []
    else (if s[0] == c then t else [s[0]]) + ReplaceChar(s[1..], c, t)
  }

  /** Replacing distributes over concatenation, which lets chains of replacements be taken apart. */
  lemma {:induction false} ReplaceCharAppend(a: string, b: string, c: char, t: string)
    ensures ReplaceChar(a + b, c, t) == ReplaceChar(a, c, t) + ReplaceChar(b, c, t)
    decreases |a|
  {
    if a == [] {
      assert a + b == b;
    } else {
      assert (a + b)[1..] == a[1..] + b;
      ReplaceCharAppend(a[1..], b, c, t);
    }
  }
}
