/**
 * The post-processing of the team's response stream, identical on both
 * screens: chunks without text are dropped, tool-call log lines such as
 * "transfer_task_to_member(...) completed in 1.23s" are re-wrapped as
 * inline code set off by blank lines, and all other text passes through.
 *
 * The log-line test is the pattern `.*\)\s+completed in \d+\.\d+s.*`
 * anchored at the start of the text. `.` does not match a line break, so
 * the `)` must lie on the first line; `\s` is modelled by `Text.IsSpace`
 * and `\d` by the ASCII digits.
 */
module StreamFilter {
  import opened Text

  /** A stream chunk's content: a string, or something else (no content, or a non-string). */
  datatype Content = Str(text: string) | NonStr

  const Completed: string := "completed in "

  predicate IsDigit(c: char) {
    '0' <= c <= '9'
  }

  predicate AllDigits(s: string) {
    forall i :: 0 <= i < |s| ==> IsDigit(s[i])
  }

  // ---------------------------------------------------------------------
  // The pattern, stated as the regular expression reads

  /**
   * `t` (the text after the `)`) continues with `w` white-space characters,
   * "completed in ", `d1` digits, ".", `d2` digits and "s".
   */
  predicate TailAt(t: string, w: int, d1: int, d2: int) {
    1 <= w && 1 <= d1 && 1 <= d2 && w + |Completed| + d1 + d2 + 2 <= |t|
    && AllSpace(t[..w])
    && t[w..w + |Completed|] == Completed
    && AllDigits(t[w + |Completed|..w + |Completed| + d1])
    && t[w + |Completed| + d1] == '.'
    && AllDigits(t[w + |Completed| + d1 + 1..w + |Completed| + d1 + 1 + d2])
    && t[w + |Completed| + d1 + 1 + d2] == 's'
  }

  /** The part of the pattern after the `)` matches at the start of `t`. */
  ghost predicate Tail(t: string) {
    exists w, d1, d2 :: TailAt(t, w, d1, d2)
  }

  /** The pattern matches with its `)` at position `p` of the first line. */
  ghost predicate MatchAt(s: string, p: int) {
    0 <= p < IndexOf(s, '\n') && s[p] == ')' && Tail(s[p + 1..])
  }

  /** `re.match(r".*\)\s+completed in \d+\.\d+s.*", s)` succeeds. */
  ghost predicate IsLogLineSpec(s: string) {
    exists p :: MatchAt(s, p)
  }

  // ---------------------------------------------------------------------
  // A deterministic matcher

  /** The length of the longest white-space prefix. */
  function SpaceRun(t: string): (n: nat)
    ensures n <= |t| && AllSpace(t[..n]) && (n < |t| ==> !IsSpace(t[n]))
  {
    if t != [] && IsSpace(t[0]) then
      var n := 1 + SpaceRun(t[1..]);
      assert forall i :: 1 <= i < n ==> t[..n][i] == t[1..][..n - 1][i - 1];
      n
    else 0
  }

  /** The length of the longest digit prefix. */
  function DigitRun(t: string): (n: nat)
    ensures n <= |t| && AllDigits(t[..n]) && (n < |t| ==> !IsDigit(t[n]))
  {
    if t != [] && IsDigit(t[0]) then
      var n := 1 + DigitRun(t[1..]);
      assert forall i :: 1 <= i < n ==> t[..n][i] == t[1..][..n - 1][i - 1];
      n
    else 0
  }

  /**
   * The tail test without search: every run the pattern needs is followed
   * by a character the run cannot contain, so each run is the longest one.
   */
  predicate TailMatches(t: string) {
    var w := SpaceRun(t);
    1 <= w && w + |Completed| <= |t| && t[w..w + |Completed|] == Completed
    && var u := t[w + |Completed|..];
    var d1 := DigitRun(u);
    1 <= d1 && d1 < |u| && u[d1] == '.'
    && var v := u[d1 + 1..];
    var d2 := DigitRun(v);
    1 <= d2 && d2 < |v| && v[d2] == 's'
  }

  /** Some `)` at a position in `[p, limit)` is followed by a matching tail. */
  predicate ScanFrom(s: string, p: nat, limit: nat)
    requires limit <= |s|
    decreases limit - p
  {
    p < limit && ((s[p] == ')' && TailMatches(s[p + 1..])) || ScanFrom(s, p + 1, limit))
  }

  /** The log-line test as the stream filter evaluates it. */
  predicate IsLogLine(s: string) {
    ScanFrom(s, 0, IndexOf(s, '\n'))
  }

  // ---------------------------------------------------------------------
  // The matcher agrees with the pattern

  /** A prefix of predicate-satisfying characters followed by one that fails is the longest such prefix. */
  lemma {:induction false} SpaceRunExact(t: string, w: nat)
    requires w < |t| && AllSpace(t[..w]) && !IsSpace(t[w])
    ensures SpaceRun(t) == w
    decreases w
  {
    if w > 0 {
      assert IsSpace(t[..w][0]);
      assert t[1..][..w - 1] == t[1..w];
      assert forall i :: 0 <= i < w - 1 ==> t[1..w][i] == t[..w][i + 1];
      SpaceRunExact(t[1..], w - 1);
    }
  }

  lemma {:induction false} DigitRunExact(t: string, d: nat)
    requires d < |t| && AllDigits(t[..d]) && !IsDigit(t[d])
    ensures DigitRun(t) == d
    decreases d
  {
    if d > 0 {
      assert IsDigit(t[..d][0]);
      assert t[1..][..d - 1] == t[1..d];
      assert forall i :: 0 <= i < d - 1 ==> t[1..d][i] == t[..d][i + 1];
      DigitRunExact(t[1..], d - 1);
    }
  }

  /** The deterministic tail test succeeds exactly when the pattern's tail can be matched. */
  lemma TailMatchesSpec(t: string)
    ensures TailMatches(t) <==> Tail(t)
  {
    if TailMatches(t) {
      TailMatchesSound(t);
    }
    if Tail(t) {
      var w, d1, d2 :| TailAt(t, w, d1, d2);
      TailMatchesComplete(t, w, d1, d2);
    }
  }

  lemma TailMatchesSound(t: string)
    requires TailMatches(t)
    ensures Tail(t)
  {
    var w := SpaceRun(t);
    var u := t[w + |Completed|..];
    var d1 := DigitRun(u);
    var v := u[d1 + 1..];
    var d2 := DigitRun(v);
    assert t[w + |Completed|..w + |Completed| + d1] == u[..d1];
    assert t[w + |Completed| + d1 + 1..w + |Completed| + d1 + 1 + d2] == v[..d2];
    assert TailAt(t, w, d1, d2);
  }

  lemma TailMatchesComplete(t: string, w: nat, d1: nat, d2: nat)
    requires TailAt(t, w, d1, d2)
    ensures TailMatches(t)
  {
    assert t[w] == Completed[0];
    SpaceRunExact(t, w);
    var u := t[w + |Completed|..];
    assert u[..d1] == t[w + |Completed|..w + |Completed| + d1];
    DigitRunExact(u, d1);
    var v := u[d1 + 1..];
    assert v[..d2] == t[w + |Completed| + d1 + 1..w + |Completed| + d1 + 1 + d2];
    DigitRunExact(v, d2);
  }

  /** Scanning `[p, limit)` finds a match exactly when one sits at a position in that range. */
  lemma {:induction false} ScanFromSpec(s: string, p: nat, limit: nat)
    requires limit == IndexOf(s, '\n')
    ensures ScanFrom(s, p, limit) <==> exists q :: p <= q && MatchAt(s, q)
    decreases limit - p
  {
    if p < limit {
      ScanHere(s, p);
      ScanFromSpec(s, p + 1, limit);
      MatchFromSplit(s, p);
    } else {
      NoMatchBeyond(s, p);
    }
  }

  /** The test at one position of the first line is the pattern's test there. */
  lemma ScanHere(s: string, p: nat)
    requires p < IndexOf(s, '\n')
    ensures (s[p] == ')' && TailMatches(s[p + 1..])) <==> MatchAt(s, p)
  {
    TailMatchesSpec(s[p + 1..]);
  }

  /** A match at or after `p` is one at `p` or one after it. */
  lemma MatchFromSplit(s: string, p: nat)
    ensures (exists q :: p <= q && MatchAt(s, q)) <==> MatchAt(s, p) || exists q :: p + 1 <= q && MatchAt(s, q)
  {
    if exists q :: p <= q && MatchAt(s, q) {
      var q :| p <= q && MatchAt(s, q);
      assert q == p || p + 1 <= q;
    }
  }

  /** No match starts at or beyond the first line break. */
  lemma NoMatchBeyond(s: string, p: nat)
    requires IndexOf(s, '\n') <= p
    ensures !exists q :: p <= q && MatchAt(s, q)
  {
  }

  /** The filter's log-line test is the regular expression's. */
  lemma IsLogLineCorrect(s: string)
    ensures IsLogLine(s) <==> IsLogLineSpec(s)
  {
    ScanFromSpec(s, 0, IndexOf(s, '\n'));
  }

  // ---------------------------------------------------------------------
  // The filter

  /** A log line, stripped and set off as inline code between blank lines. */
  function Render(s: string): (r: string)
    ensures |r| == |Strip(s)| + 6
    ensures r[..3] == "\n\n`" && r[|r| - 3..] == "`\n\n"
    ensures r[3..|r| - 3] == Strip(s)
  {
    "\n\n`" + Strip(s) + "`\n\n"
  }

  /** What one non-empty text chunk becomes. */
  function Transform(s: string): string {
    if IsLogLine(s) then Render(s) else s
  }

  /** The reference filter: drop chunks without text, transform the others, keep the order. */
  function Filter(chunks: seq<Content>): seq<string>
  {
    if chunks == [] then []
    else
      var front := Filter(chunks[..|chunks| - 1]);
      match chunks[|chunks| - 1]
      case Str(s) => if s == "" then front else front + [Transform(s)]
      case NonStr => front
  }

  /** The chunks that carry text, in order. */
  function Texts(chunks: seq<Content>): (r: seq<string>)
    ensures forall i :: 0 <= i < |r| ==> r[i] != ""
  {
    if chunks == [] then []
    else
      var front := Texts(chunks[..|chunks| - 1]);
      match chunks[|chunks| - 1]
      case Str(s) => if s == "" then front else front + [s]
      case NonStr => front
  }

  /** One more chunk adds its transformed text, or nothing when it carries no text. */
  lemma FilterStep(chunks: seq<Content>, i: nat)
    requires i < |chunks|
    ensures Filter(chunks[..i + 1]) == Filter(chunks[..i])
      + (if chunks[i].Str? && chunks[i].text != "" then [Transform(chunks[i].text)] else [])
  {
    assert chunks[..i + 1][..i] == chunks[..i];
  }

  /** `run_team_debate_stream`'s loop over the chunks, collecting what it yields. */
  method RunStream(chunks: seq<Content>) returns (out: seq<string>)
    ensures out == Filter(chunks)
  {
    out := [];
    for i := 0 to |chunks|
      invariant out == Filter(chunks[..i])
    {
      FilterStep(chunks, i);
      var content := chunks[i];
      if content.NonStr? || content.text == "" {
        continue;
      }
      if IsLogLine(content.text) {
        out := out + [Render(content.text)];
      } else {
        out := out + [content.text];
      }
    }
    assert chunks[..|chunks|] == chunks;
  }

  /** Filtering is dropping the text-less chunks and transforming each remaining text in place. */
  lemma {:induction false} FilterIsMapOfTexts(chunks: seq<Content>)
    ensures |Filter(chunks)| == |Texts(chunks)|
    ensures forall i :: 0 <= i < |Texts(chunks)| ==> Filter(chunks)[i] == Transform(Texts(chunks)[i])
    decreases |chunks|
  {
    if chunks != [] {
      FilterIsMapOfTexts(chunks[..|chunks| - 1]);
    }
  }

  /** The filter works chunk by chunk: filtering a stream in two parts gives the two results one after the other. */
  lemma {:induction false} FilterAppend(a: seq<Content>, b: seq<Content>)
    ensures Filter(a + b) == Filter(a) + Filter(b)
    decreases |b|
  {
    if b == [] {
      assert a + b == a;
    } else {
      var b' := b[..|b| - 1];
      assert (a + b)[..|a + b| - 1] == a + b';
      assert (a + b)[|a + b| - 1] == b[|b| - 1];
      FilterAppend(a, b');
    }
  }

  /** A rendered log line starts with a line break, so it is never itself a log line. */
  lemma RenderIsNotLogLine(s: string)
    ensures !IsLogLine(Render(s))
  {
    var r := Render(s);
    assert r[0] == '\n';
    assert IndexOf(r, '\n') == 0;
  }

  /** Transforming is idempotent. */
  lemma TransformIdempotent(s: string)
    ensures Transform(Transform(s)) == Transform(s)
  {
    if IsLogLine(s) {
      RenderIsNotLogLine(s);
    }
  }

  /** The filter's output, fed back in as string chunks. */
  function AsChunks(out: seq<string>): (r: seq<Content>)
    ensures |r| == |out| && forall i :: 0 <= i < |out| ==> r[i] == Str(out[i])
  {
    seq(|out|, i requires 0 <= i < |out| => Str(out[i]))
  }

  lemma FilterOne(y: string)
    requires y != ""
    ensures Filter([Str(y)]) == [Transform(y)]
  {
    assert [Str(y)][..0] == [];
  }

  /** Filtering the filtered stream again changes nothing. */
  lemma {:induction false} FilterIdempotent(chunks: seq<Content>)
    ensures Filter(AsChunks(Filter(chunks))) == Filter(chunks)
    decreases |chunks|
  {
    if chunks != [] {
      var front := chunks[..|chunks| - 1];
      FilterIdempotent(front);
      var f := Filter(front);
      match chunks[|chunks| - 1]
      case NonStr =>
      case Str(x) =>
        if x != "" {
          var y := Transform(x);
          assert Filter(chunks) == f + [y];
          assert y != "" by {
            if IsLogLine(x) { assert |Render(x)| >= 6; }
          }
          assert AsChunks(f + [y]) == AsChunks(f) + [Str(y)];
          FilterAppend(AsChunks(f), [Str(y)]);
          FilterOne(y);
          TransformIdempotent(x);
        }
    }
  }
}
