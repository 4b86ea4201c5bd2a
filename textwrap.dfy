/** Python's `textwrap.dedent` and `textwrap.indent`, the two library calls
    `create_fallback_code` makes on the fallback source. */
module TextWrap {
  import opened Text
  import opened Frames

  predicate IsTabOrSpace(c: char) {
    c == ' ' || c == '\t'
  }

  /** Made only of blanks and tabs (the empty string included). */
  predicate TabsAndSpaces(s: string) {
    forall i | 0 <= i < |s| :: IsTabOrSpace(s[i])
  }

  lemma IsPrefixTrans(a: string, b: string, c: string)
    requires IsPrefix(a, b) && IsPrefix(b, c)
    ensures IsPrefix(a, c)
  {
    assert c[..|a|] == c[..|b|][..|a|];
  }

  // ---------------------------------------------------------------------------
  // Lines as `^` and `$` see them under `re.MULTILINE`: separated by '\n'
  // ---------------------------------------------------------------------------

  function Lines(t: string): (ls: seq<string>)
    ensures |ls| >= 1
    ensures forall k | 0 <= k < |ls| :: '\n' !in ls[k]
    ensures IsPrefix(ls[0], t) && (|ls[0]| == |t| || t[|ls[0]|] == '\n')
    decreases |t|
  {
    if t == [] then [[]]
    else
      var r := Lines(t[1..]);
      if t[0] == '\n' then [[]] + r
      else
        var ls := [[t[0]] + r[0]] + r[1..];
        assert forall k | 1 <= k < |ls| :: ls[k] == r[k];
        ls
  }

  /** Joining the lines with '\n' gives the text back. */
  lemma {:induction false} JoinOfLines(t: string)
    ensures JoinWith(Lines(t), "\n") == t
    decreases |t|
  {
    if t != [] {
      var r := Lines(t[1..]);
      JoinOfLines(t[1..]);
      if t[0] == '\n' {
        JoinCons([], r, "\n");
      } else if |r| == 1 {
        assert Lines(t) == [[t[0]] + r[0]];
      } else {
        assert r == [r[0]] + r[1..];
        JoinCons(r[0], r[1..], "\n");
        JoinCons([t[0]] + r[0], r[1..], "\n");
      }
    }
  }

  lemma {:induction false} LinesCons(line: string, rest: string)
    requires '\n' !in line
    ensures Lines(line + "\n" + rest) == [line] + Lines(rest)
    decreases |line|
  {
    var t := line + "\n" + rest;
    if line == [] {
      assert t[1..] == rest;
    } else {
      assert t[1..] == line[1..] + "\n" + rest;
      LinesCons(line[1..], rest);
      assert [line[0]] + line[1..] == line;
    }
  }

  lemma {:induction false} LinesOfLine(line: string)
    requires '\n' !in line
    ensures Lines(line) == [line]
    decreases |line|
  {
    if line != [] {
      LinesOfLine(line[1..]);
      assert [line[0]] + line[1..] == line;
    }
  }

  /** Splitting lines joined with '\n' gives the lines back. */
  lemma {:induction false} LinesOfJoin(ls: seq<string>)
    requires |ls| >= 1
    requires forall k | 0 <= k < |ls| :: '\n' !in ls[k]
    ensures Lines(JoinWith(ls, "\n")) == ls
  {
    if |ls| == 1 {
      LinesOfLine(ls[0]);
    } else {
      LinesOfJoin(ls[1..]);
      LinesCons(ls[0], JoinWith(ls[1..], "\n"));
      assert ls == [ls[0]] + ls[1..];
    }
  }

  // ---------------------------------------------------------------------------
  // dedent
  // ---------------------------------------------------------------------------

  /** The leading run of blanks and tabs of a line. */
  function Indentation(l: string): (p: string)
    ensures IsPrefix(p, l) && TabsAndSpaces(p)
    ensures |p| == |l| || !IsTabOrSpace(l[|p|])
  {
    if l != [] && IsTabOrSpace(l[0]) then [l[0]] + Indentation(l[1..]) else []
  }

  /** The longest common prefix of two strings. */
  function CommonPrefix(a: string, b: string): (c: string)
    ensures IsPrefix(c, a) && IsPrefix(c, b)
    ensures |c| == |a| || |c| == |b| || a[|c|] != b[|c|]
  {
    if a != [] && b != [] && a[0] == b[0] then [a[0]] + CommonPrefix(a[1..], b[1..]) else []
  }

  lemma CommonPrefixLongest(p: string, a: string, b: string)
    requires IsPrefix(p, a) && IsPrefix(p, b)
    ensures IsPrefix(p, CommonPrefix(a, b))
  {
    var c := CommonPrefix(a, b);
    assert c[..|p|] == a[..|p|];
  }

  /** A line `dedent` measures: one holding something other than blanks and tabs.
      Other lines become empty. */
  predicate HasText(l: string) {
    !TabsAndSpaces(l)
  }

  /** The margin `dedent` removes, computed line by line as the library's loop does:
      the first indentation seen, then its common prefix with each later one; `None`
      when no line has text. */
  function MarginFrom(ls: seq<string>, acc: Option<string>): (m: Option<string>)
    ensures m.None? <==> acc.None? && forall k | 0 <= k < |ls| :: !HasText(ls[k])
    ensures m.Some? ==> forall k | 0 <= k < |ls| && HasText(ls[k]) :: IsPrefix(m.value, Indentation(ls[k]))
    ensures m.Some? && acc.Some? ==> IsPrefix(m.value, acc.value)
    decreases |ls|
  {
    if ls == [] then acc
    else
      var next := if !HasText(ls[0]) then acc
                  else if acc.None? then Some(Indentation(ls[0]))
                  else Some(CommonPrefix(acc.value, Indentation(ls[0])));
      var m := MarginFrom(ls[1..], next);
      assert forall k | 1 <= k < |ls| :: ls[k] == ls[1..][k - 1];
      MarginStep(m, acc, ls[0], next);
      m
  }

  /** What one step of `MarginFrom` keeps: the margin found later is a prefix of the
      indentation just seen and of everything seen before. */
  lemma MarginStep(m: Option<string>, acc: Option<string>, l: string, next: Option<string>)
    requires next == if !HasText(l) then acc
                     else if acc.None? then Some(Indentation(l))
                     else Some(CommonPrefix(acc.value, Indentation(l)))
    requires m.Some? && next.Some? ==> IsPrefix(m.value, next.value)
    ensures m.Some? && acc.Some? ==> IsPrefix(m.value, acc.value)
    ensures m.Some? && HasText(l) ==> IsPrefix(m.value, Indentation(l))
  {
    if m.Some? && HasText(l) && acc.Some? {
      IsPrefixTrans(m.value, next.value, acc.value);
      IsPrefixTrans(m.value, next.value, Indentation(l));
    }
  }

  /** No string longer than the margin is a prefix of every indentation. */
  lemma {:induction false} MarginLongest(ls: seq<string>, acc: Option<string>, p: string)
    requires forall k | 0 <= k < |ls| && HasText(ls[k]) :: IsPrefix(p, Indentation(ls[k]))
    requires acc.Some? ==> IsPrefix(p, acc.value)
    requires MarginFrom(ls, acc).Some?
    ensures IsPrefix(p, MarginFrom(ls, acc).value)
    decreases |ls|
  {
    if ls != [] {
      var next := if !HasText(ls[0]) then acc
                  else if acc.None? then Some(Indentation(ls[0]))
                  else Some(CommonPrefix(acc.value, Indentation(ls[0])));
      if HasText(ls[0]) && acc.Some? {
        CommonPrefixLongest(p, acc.value, Indentation(ls[0]));
      }
      assert forall k | 0 <= k < |ls| - 1 :: ls[1..][k] == ls[k + 1];
      MarginLongest(ls[1..], next, p);
    }
  }

  /** The margin `dedent` removes from the text `t` ("" when no line has text). */
  function DedentMargin(t: string): string {
    var m := MarginFrom(Lines(t), None);
    if m.Some? then m.value else []
  }

  /** One line after `dedent`: emptied when it has no text, else without the margin. */
  function DedentLine(l: string, m: string): string {
    if HasText(l) && IsPrefix(m, l) then l[|m|..]
    else if HasText(l) then l
    else []
  }

  function DedentedLines(ls: seq<string>, m: string): (ds: seq<string>)
    ensures |ds| == |ls|
    ensures forall k | 0 <= k < |ls| :: ds[k] == DedentLine(ls[k], m)
  {
    seq(|ls|, k requires 0 <= k < |ls| => DedentLine(ls[k], m))
  }

  /** `textwrap.dedent(t)`. */
  function Dedent(t: string): string {
    JoinWith(DedentedLines(Lines(t), DedentMargin(t)), "\n")
  }

  /** The margin is a prefix of the indentation of every line with text, and every
      other common prefix of those indentations is a prefix of it. */
  lemma DedentMarginIsLongest(t: string, p: string)
    requires forall k | 0 <= k < |Lines(t)| && HasText(Lines(t)[k]) :: IsPrefix(p, Indentation(Lines(t)[k]))
    requires exists k | 0 <= k < |Lines(t)| :: HasText(Lines(t)[k])
    ensures forall k | 0 <= k < |Lines(t)| && HasText(Lines(t)[k]) ::
      IsPrefix(DedentMargin(t), Indentation(Lines(t)[k]))
    ensures IsPrefix(p, DedentMargin(t))
  {
    MarginLongest(Lines(t), None, p);
  }

  /** Splitting the dedented text gives back the dedented lines. */
  lemma DedentedLinesOf(t: string)
    ensures Lines(Dedent(t)) == DedentedLines(Lines(t), DedentMargin(t))
  {
    var ds := DedentedLines(Lines(t), DedentMargin(t));
    forall k | 0 <= k < |ds| ensures '\n' !in ds[k] {
      assert forall c | c in ds[k] :: c in Lines(t)[k];
    }
    LinesOfJoin(ds);
  }

  /** The margin is made of blanks and tabs. */
  lemma DedentMarginBlank(t: string)
    ensures TabsAndSpaces(DedentMargin(t))
  {
    var ls := Lines(t);
    var m := DedentMargin(t);
    if MarginFrom(ls, None).Some? {
      var k :| 0 <= k < |ls| && HasText(ls[k]);
      IsPrefixTrans(m, Indentation(ls[k]), ls[k]);
      assert forall i | 0 <= i < |m| :: m[i] == Indentation(ls[k])[i];
    }
  }

  /** A line with text that starts with the margin is the margin and its dedented form. */
  lemma MarginOff(l: string, m: string)
    requires HasText(l) && IsPrefix(m, Indentation(l))
    ensures l == m + DedentLine(l, m)
  {
    IsPrefixTrans(m, Indentation(l), l);
    assert l == m + l[|m|..];
  }

  /** The lines of the dedented text, one for one with those of `t`: lines without
      text are emptied and every other line loses the margin, a run of blanks and
      tabs that starts its indentation. */
  lemma DedentLines(t: string)
    ensures var ls := Lines(t); var m := DedentMargin(t);
      TabsAndSpaces(m) &&
      Lines(Dedent(t)) == DedentedLines(ls, m) &&
      forall k | 0 <= k < |ls| :: if HasText(ls[k]) then IsPrefix(m, Indentation(ls[k])) && ls[k] == m + DedentLine(ls[k], m) else DedentLine(ls[k], m) == []
  {
    var ls := Lines(t);
    var m := DedentMargin(t);
    forall k | 0 <= k < |ls| && HasText(ls[k])
      ensures IsPrefix(m, Indentation(ls[k])) && ls[k] == m + DedentLine(ls[k], m)
    {
      assert MarginFrom(ls, None).Some?;
      MarginOff(ls[k], m);
    }
    DedentMarginBlank(t);
    DedentedLinesOf(t);
  }

  /** A line's indentation is the only run of blanks and tabs that starts it and is
      followed by another character or by the end of the line. */
  lemma {:induction false} IndentationUnique(l: string, p: string)
    requires IsPrefix(p, l) && TabsAndSpaces(p)
    requires |p| == |l| || !IsTabOrSpace(l[|p|])
    ensures Indentation(l) == p
    decreases |l|
  {
    if p != [] {
      assert l[0] == p[0];
      IndentationUnique(l[1..], p[1..]);
      assert [p[0]] + p[1..] == p;
    }
  }

  /** `DedentFlushLeft` for a text whose first line is the one at the left edge. */
  lemma DedentFirstLineFlush(first: string, rest: string)
    requires '\n' !in first && HasText(first) && Indentation(first) == []
    ensures var t := first + "\n" + rest;
      DedentMargin(t) == [] &&
      var ls := Lines(t);
      Lines(Dedent(t)) == seq(|ls|, j requires 0 <= j < |ls| => if HasText(ls[j]) then ls[j] else [])
  {
    var t := first + "\n" + rest;
    LinesCons(first, rest);
    assert Lines(t)[0] == first;
    DedentFlushLeft(t, 0);
  }

  /** `dedent` only empties the lines without text when one line with text starts at
      the left edge. */
  lemma DedentFlushLeft(t: string, k: nat)
    requires k < |Lines(t)| && HasText(Lines(t)[k]) && Indentation(Lines(t)[k]) == []
    ensures DedentMargin(t) == []
    ensures var ls := Lines(t);
      Lines(Dedent(t)) == seq(|ls|, j requires 0 <= j < |ls| => if HasText(ls[j]) then ls[j] else [])
  {
    MarginOfFlushLine(t, k);
    DedentedLinesOf(t);
    DedentedLinesNoMargin(Lines(t));
  }

  lemma MarginOfFlushLine(t: string, k: nat)
    requires k < |Lines(t)| && HasText(Lines(t)[k]) && Indentation(Lines(t)[k]) == []
    ensures DedentMargin(t) == []
  {
    assert IsPrefix(DedentMargin(t), Indentation(Lines(t)[k]));
  }

  /** With no margin, dedenting only empties the lines without text. */
  lemma DedentedLinesNoMargin(ls: seq<string>)
    ensures DedentedLines(ls, []) == seq(|ls|, j requires 0 <= j < |ls| => if HasText(ls[j]) then ls[j] else [])
  {
    var ds := DedentedLines(ls, []);
    forall j | 0 <= j < |ls| ensures ds[j] == if HasText(ls[j]) then ls[j] else [] {
      assert ls[j][0..] == ls[j];
    }
  }

  /** A line with text, once the margin is off, still has text and is indented by
      what was left of its indentation. */
  lemma DedentedTextLine(l: string, m: string)
    requires HasText(l) && IsPrefix(m, Indentation(l))
    ensures HasText(l[|m|..]) && Indentation(l[|m|..]) == Indentation(l)[|m|..]
  {
    var ind := Indentation(l);
    IsPrefixTrans(m, ind, l);
    var d := l[|m|..];
    assert d[|ind| - |m|] == l[|ind|];
    IndentationUnique(d, ind[|m|..]);
  }

  lemma PrefixStep(m: string, m2: string, x: string)
    requires IsPrefix(m, x) && m2 != [] && IsPrefix(m2, x[|m|..])
    ensures IsPrefix(m + [m2[0]], x)
  {
    assert x[|m|] == x[|m|..][0];
    assert x[..|m| + 1] == x[..|m|] + [x[|m|]];
  }

  /** After `dedent` no blank or tab is common to the start of every line with text. */
  lemma DedentedMarginEmpty(t: string)
    ensures DedentMargin(Dedent(t)) == []
  {
    var ls := Lines(t);
    var m := DedentMargin(t);
    var d := Dedent(t);
    DedentLines(t);
    var ds := Lines(d);
    var m2 := DedentMargin(d);
    if m2 != [] {
      assert MarginFrom(ds, None).Some?;
      var k :| 0 <= k < |ds| && HasText(ds[k]);
      assert HasText(ls[k]);
      var p := m + [m2[0]];
      forall j | 0 <= j < |ls| && HasText(ls[j]) ensures IsPrefix(p, Indentation(ls[j])) {
        var ind := Indentation(ls[j]);
        DedentedTextLine(ls[j], m);
        assert ds[j] == ls[j][|m|..];
        assert IsPrefix(m2, ind[|m|..]);
        PrefixStep(m, m2, ind);
      }
      DedentMarginIsLongest(t, p);
    }
  }

  /** Dedenting twice is dedenting once. */
  lemma DedentIdempotent(t: string)
    ensures Dedent(Dedent(t)) == Dedent(t)
  {
    var ls := Lines(t);
    var m := DedentMargin(t);
    var d := Dedent(t);
    DedentLines(t);
    DedentedMarginEmpty(t);
    var ds := Lines(d);
    forall k | 0 <= k < |ds| ensures DedentLine(ds[k], []) == ds[k] {
      if HasText(ls[k]) {
        DedentedTextLine(ls[k], m);
      }
    }
    assert DedentedLines(ds, []) == ds;
    JoinOfLines(d);
  }

  // ---------------------------------------------------------------------------
  // indent
  // ---------------------------------------------------------------------------

  /** The characters `str.splitlines` ends a line at. */
  predicate LineBreak(c: char) {
    || c == '\n' || c == '\r' || c == '\U{B}' || c == '\U{C}'
    || ('\U{1C}' <= c <= '\U{1E}')
    || c == '\U{85}' || c == '\U{2028}' || c == '\U{2029}'
  }

  predicate NoLineBreak(s: string) {
    forall i | 0 <= i < |s| :: !LineBreak(s[i])
  }

  /** Whether `q` is one line as `splitlines(keepends=True)` returns it, given what
      follows it: no line break before its last character (other than the '\r' of a
      closing "\r\n"), and, unless it is the text's last line, a line break at its end
      that is not a '\r' whose '\n' follows. */
  predicate IsLineBefore(q: string, w: string) {
    && q != []
    && (forall i | 0 <= i < |q| - 1 :: !LineBreak(q[i]) || (i == |q| - 2 && q[i] == '\r' && q[i + 1] == '\n'))
    && (w != [] ==> LineBreak(q[|q| - 1]) && !(q[|q| - 1] == '\r' && w[0] == '\n'))
  }

  /** The length of the first line of `t.splitlines(keepends=True)`. */
  function FirstLineLength(t: string): (n: nat)
    requires t != []
    ensures 0 < n <= |t|
    ensures IsLineBefore(t[..n], t[n..])
    decreases |t|
  {
    if LineBreak(t[0]) then (if t[0] == '\r' && |t| > 1 && t[1] == '\n' then 2 else 1)
    else if |t| == 1 then 1
    else
      var n := 1 + FirstLineLength(t[1..]);
      assert t[..n] == [t[0]] + t[1..][..n - 1];
      assert t[n..] == t[1..][n - 1..];
      n
  }

  /** The first line is found wherever the text is cut after a line. */
  lemma {:induction false} FirstLineOf(q: string, w: string)
    requires IsLineBefore(q, w)
    ensures FirstLineLength(q + w) == |q|
    decreases |q|
  {
    var t := q + w;
    if !LineBreak(q[0]) && |t| > 1 {
      assert t[1..] == q[1..] + w;
      FirstLineOf(q[1..], w);
    }
  }

  /** `t.splitlines(keepends=True)`. */
  function SplitLines(t: string): (ls: seq<string>)
    ensures forall k | 0 <= k < |ls| :: ls[k] != []
    decreases |t|
  {
    if t == [] then []
    else
      var n := FirstLineLength(t);
      [t[..n]] + SplitLines(t[n..])
  }

  /** One line of `textwrap.indent`: prefixed unless it is only whitespace. */
  function IndentLine(q: string, p: string): string {
    if AllSpace(q) then q else p + q
  }

  /** `textwrap.indent(t, p)`: every line of `t.splitlines(keepends=True)` through
      `IndentLine`, joined. */
  function Indent(t: string, p: string): string
    decreases |t|
  {
    if t == [] then []
    else
      var n := FirstLineLength(t);
      IndentLine(t[..n], p) + Indent(t[n..], p)
  }

  /** The inverse of `Indent(_, p)`: `p` comes off every line that starts with it and
      is not only whitespace without it. */
  function Outdent(u: string, p: string): string
    decreases |u|
  {
    if u == [] then []
    else
      var n := FirstLineLength(u);
      var q := u[..n];
      (if IsPrefix(p, q) && !AllSpace(q[|p|..]) then q[|p|..] else q) + Outdent(u[n..], p)
  }

  lemma IndentStart(t: string, p: string)
    requires t != []
    ensures Indent(t, p) != []
    ensures Indent(t, p)[0] == t[0] || (p != [] && Indent(t, p)[0] == p[0])
  {
  }

  /** An indented line is still a line, before whatever the rest of the text becomes. */
  lemma IndentedLineBefore(t: string, p: string)
    requires t != [] && NoLineBreak(p)
    ensures var n := FirstLineLength(t); IsLineBefore(IndentLine(t[..n], p), Indent(t[n..], p))
  {
    var n := FirstLineLength(t);
    var q, rest := t[..n], t[n..];
    var w := Indent(rest, p);
    if rest != [] {
      IndentStart(rest, p);
      assert w[0] == rest[0] || !LineBreak(w[0]);
    }
    LineBeforeOther(q, rest, w);
    if !AllSpace(q) {
      PrefixedLine(p, q, w);
    }
  }

  /** A line stays a line before any text that starts like the old one or without a
      line break. */
  lemma LineBeforeOther(q: string, w: string, w2: string)
    requires IsLineBefore(q, w)
    requires w2 != [] ==> w != [] && (w2[0] == w[0] || !LineBreak(w2[0]))
    ensures IsLineBefore(q, w2)
  {
  }

  /** A line with a prefix free of line breaks in front is still a line. */
  lemma PrefixedLine(p: string, q: string, w: string)
    requires NoLineBreak(p) && IsLineBefore(q, w)
    ensures IsLineBefore(p + q, w)
  {
    var q' := p + q;
    assert q'[|q'| - 1] == q[|q| - 1];
    forall i | 0 <= i < |q'| - 1
      ensures !LineBreak(q'[i]) || (i == |q'| - 2 && q'[i] == '\r' && q'[i + 1] == '\n')
    {
      if i >= |p| {
        assert q'[i] == q[i - |p|];
        assert q'[i + 1] == q[i + 1 - |p|];
      }
    }
  }

  function IndentedLines(ls: seq<string>, p: string): (r: seq<string>)
    ensures |r| == |ls|
    ensures forall k | 0 <= k < |ls| :: r[k] == IndentLine(ls[k], p)
  {
    seq(|ls|, k requires 0 <= k < |ls| => IndentLine(ls[k], p))
  }

  lemma IndentedLinesCons(q: string, rs: seq<string>, p: string)
    ensures IndentedLines([q] + rs, p) == [IndentLine(q, p)] + IndentedLines(rs, p)
  {
    assert forall k | 1 <= k <= |rs| :: ([q] + rs)[k] == rs[k - 1];
  }

  /** The lines of the indented text are those of `t`, one for one, each with `p` in
      front unless it is only whitespace. */
  lemma {:induction false} IndentLines(t: string, p: string)
    requires NoLineBreak(p)
    ensures SplitLines(Indent(t, p)) == IndentedLines(SplitLines(t), p)
    decreases |t|
  {
    if t != [] {
      var n := FirstLineLength(t);
      var q, rest := t[..n], t[n..];
      var q' := IndentLine(q, p);
      var u := q' + Indent(rest, p);
      IndentedLineBefore(t, p);
      FirstLineOf(q', Indent(rest, p));
      assert u[..|q'|] == q' && u[|q'|..] == Indent(rest, p);
      assert SplitLines(u) == [q'] + SplitLines(Indent(rest, p));
      IndentLines(rest, p);
      IndentedLinesCons(q, SplitLines(rest), p);
    }
  }

  /** `Outdent` undoes `Indent`. */
  lemma {:induction false} OutdentIndent(t: string, p: string)
    requires NoLineBreak(p)
    ensures Outdent(Indent(t, p), p) == t
    decreases |t|
  {
    if t != [] {
      var n := FirstLineLength(t);
      var q, rest := t[..n], t[n..];
      assert q + rest == t;
      var q' := IndentLine(q, p);
      var u := q' + Indent(rest, p);
      IndentedLineBefore(t, p);
      FirstLineOf(q', Indent(rest, p));
      assert u[..|q'|] == q' && u[|q'|..] == Indent(rest, p);
      var back := if IsPrefix(p, q') && !AllSpace(q'[|p|..]) then q'[|p|..] else q';
      assert back == q by {
        if AllSpace(q) {
          assert IsPrefix(p, q) ==> AllSpace(q[|p|..]);
        } else {
          assert q'[|p|..] == q;
        }
      }
      assert Outdent(u, p) == back + Outdent(Indent(rest, p), p);
      OutdentIndent(rest, p);
    }
  }
}
