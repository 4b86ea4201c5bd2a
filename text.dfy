/** String operations of Python's `str` and `re` that the generator, the generated
    routine and the oracle test rely on, over Dafny strings (sequences of code points). */
module Text {

  /** Python's `str.isspace()` character set. `str.strip()`, `str.split()` and the
      regular-expression class `\s` (on `str` patterns) all use this same set. */
  predicate IsSpace(c: char) {
    || c == ' '
    || ('\t' <= c <= '\r')
    || ('\U{1C}' <= c <= '\U{1F}')
    || c == '\U{85}' || c == '\U{A0}' || c == '\U{1680}'
    || ('\U{2000}' <= c <= '\U{200A}')
    || c == '\U{2028}' || c == '\U{2029}' || c == '\U{202F}' || c == '\U{205F}' || c == '\U{3000}'
  }

  predicate AllSpace(s: string) {
    forall i | 0 <= i < |s| :: IsSpace(s[i])
  }

  predicate NoSpace(s: string) {
    forall i | 0 <= i < |s| :: !IsSpace(s[i])
  }

  /** No two adjacent whitespace characters. */
  predicate NoAdjacentSpaces(s: string) {
    forall i, j | 0 <= i < |s| && 0 <= j < |s| && j == i + 1 :: !(IsSpace(s[i]) && IsSpace(s[j]))
  }

  /** Every whitespace character is the plain space. */
  predicate OnlyBlanks(s: string) {
    forall i | 0 <= i < |s| && IsSpace(s[i]) :: s[i] == ' '
  }

  /** The number of whitespace characters `s` starts with. */
  function LeadingSpaces(s: string): (n: nat)
    ensures n <= |s|
    ensures forall i | 0 <= i < n :: IsSpace(s[i])
    ensures n < |s| ==> !IsSpace(s[n])
  {
    if s != [] && IsSpace(s[0]) then 1 + LeadingSpaces(s[1..]) else 0
  }

  /** The number of whitespace characters `s` ends with. */
  function TrailingSpaces(s: string): (n: nat)
    ensures n <= |s|
    ensures forall i | |s| - n <= i < |s| :: IsSpace(s[i])
    ensures n < |s| ==> !IsSpace(s[|s| - n - 1])
  {
    if s != [] && IsSpace(s[|s| - 1]) then 1 + TrailingSpaces(s[..|s| - 1]) else 0
  }

  /** `s.lstrip()`. */
  function StripLeft(s: string): string {
    s[LeadingSpaces(s)..]
  }

  /** `s.rstrip()`. */
  function StripRight(s: string): string {
    s[..|s| - TrailingSpaces(s)]
  }

  /** Stripping a string with no whitespace at either end changes nothing. */
  lemma StripKeepsTrimmed(s: string)
    requires s != [] && !IsSpace(s[0]) && !IsSpace(s[|s| - 1])
    ensures Strip(s) == s
  {
    assert LeadingSpaces(s) == 0;
    assert StripLeft(s) == s;
    assert TrailingSpaces(s) == 0;
  }

  /** `s.strip()`: `s` without its leading and trailing whitespace. */
  function Strip(s: string): (r: string)
    ensures r == [] || (!IsSpace(r[0]) && !IsSpace(r[|r| - 1]))
    ensures var lead := LeadingSpaces(s);
      lead + |r| <= |s| && r == s[lead..lead + |r|]
      && AllSpace(s[..lead]) && AllSpace(s[lead + |r|..])
  {
    StripRight(StripLeft(s))
  }

  /** `re.sub(r"\s+", " ", s)`: every maximal run of whitespace becomes one space. */
  function Collapse(s: string): string
    decreases |s|
  {
    if s == [] then []
    else if IsSpace(s[0]) then [' '] + Collapse(StripLeft(s))
    else [s[0]] + Collapse(s[1..])
  }

  /** What `Collapse` guarantees: single plain spaces only, and it keeps whether `s`
      is empty and whether it starts with whitespace. */
  lemma {:induction false} CollapseShape(s: string)
    ensures var r := Collapse(s);
      && NoAdjacentSpaces(r) && OnlyBlanks(r)
      && (r == [] <==> s == [])
      && (s != [] ==> (IsSpace(r[0]) <==> IsSpace(s[0])))
    decreases |s|
  {
    if s == [] {
    } else if IsSpace(s[0]) {
      var rest := StripLeft(s);
      CollapseShape(rest);
      var r := Collapse(s);
      assert forall i | 1 <= i < |r| :: r[i] == Collapse(rest)[i - 1];
    } else {
      CollapseShape(s[1..]);
      var r := Collapse(s);
      assert forall i | 1 <= i < |r| :: r[i] == Collapse(s[1..])[i - 1];
    }
  }

  /** The length of the first word of `s`: its longest prefix without whitespace. */
  function WordLength(s: string): (n: nat)
    ensures n <= |s|
    ensures forall i | 0 <= i < n :: !IsSpace(s[i])
    ensures n < |s| ==> IsSpace(s[n])
  {
    if s == [] || IsSpace(s[0]) then 0 else 1 + WordLength(s[1..])
  }

  /** `s.split()`: the maximal runs of non-whitespace characters, in order. */
  function Words(s: string): (ws: seq<string>)
    ensures forall w | w in ws :: w != [] && NoSpace(w)
    decreases |s|
  {
    var t := StripLeft(s);
    if t == [] then []
    else
      var n := WordLength(t);
      [t[..n]] + Words(t[n..])
  }

  /** `sep.join(parts)`. */
  function JoinWith(parts: seq<string>, sep: string): string {
    if parts == [] then []
    else if |parts| == 1 then parts[0]
    else parts[0] + sep + JoinWith(parts[1..], sep)
  }

  /** `str.lower()` restricted to the ASCII letters. */
  function LowerChar(c: char): char {
    if 'A' <= c <= 'Z' then (c as int + 32) as char else c
  }

  function Lower(s: string): (r: string)
    ensures |r| == |s|
  {
    seq(|s|, i requires 0 <= i < |s| => LowerChar(s[i]))
  }

  predicate IsPrefix(p: string, s: string) {
    |p| <= |s| && s[..|p|] == p
  }

  /** Python's `needle in hay` on strings. */
  predicate Contains(hay: string, needle: string) {
    exists i | 0 <= i <= |hay| - |needle| :: IsPrefix(needle, hay[i..])
  }

  /** `s.replace(pat, rep)`: left to right, non-overlapping, every occurrence. */
  function Replace(s: string, pat: string, rep: string): string
    requires pat != []
    decreases |s|
  {
    if |s| < |pat| then s
    else if IsPrefix(pat, s) then rep + Replace(s[|pat|..], pat, rep)
    else [s[0]] + Replace(s[1..], pat, rep)
  }

  /** Decimal rendering of a natural number, as `str(n)` or an f-string prints it. */
  function Decimal(n: nat): (r: string)
    ensures r != []
    ensures forall i | 0 <= i < |r| :: '0' <= r[i] <= '9'
  {
    var d := ['0' + (n % 10) as char];
    if n < 10 then d else Decimal(n / 10) + d
  }


  // ---------------------------------------------------------------------------
  // Whitespace normal form: trimming and collapsing is " ".join(s.split())
  // ---------------------------------------------------------------------------

  lemma {:induction false} CollapseChars(s: string)
    ensures forall c | c in Collapse(s) :: c in s || c == ' '
    decreases |s|
  {
    if s == [] {
    } else if IsSpace(s[0]) {
      CollapseChars(StripLeft(s));
    } else {
      CollapseChars(s[1..]);
    }
  }

  lemma {:induction false} CollapseWordPrefix(w: string, rest: string)
    requires NoSpace(w)
    ensures Collapse(w + rest) == w + Collapse(rest)
  {
    if w != [] {
      var s := w + rest;
      assert s[0] == w[0] && !IsSpace(w[0]);
      assert s[1..] == w[1..] + rest;
      CollapseWordPrefix(w[1..], rest);
      assert Collapse(s) == [w[0]] + Collapse(s[1..]);
      assert [w[0]] + (w[1..] + Collapse(rest)) == w + Collapse(rest);
    } else {
      assert w + rest == rest;
    }
  }

  lemma CollapseSpaceHead(s: string)
    requires s != [] && IsSpace(s[0])
    ensures Collapse(s) == [' '] + Collapse(StripLeft(s))
  {
  }

  lemma {:induction false} LeadingSpacesAppend(x: string, y: string)
    requires LeadingSpaces(x) < |x|
    ensures LeadingSpaces(x + y) == LeadingSpaces(x)
  {
    if IsSpace(x[0]) {
      assert (x + y)[1..] == x[1..] + y;
      LeadingSpacesAppend(x[1..], y);
    }
  }

  lemma {:induction false} WordLengthAppend(v: string, y: string)
    requires WordLength(v) < |v| || y == [] || IsSpace(y[0])
    ensures WordLength(v + y) == WordLength(v)
  {
    if v == [] {
      assert v + y == y;
    } else if !IsSpace(v[0]) {
      assert (v + y)[1..] == v[1..] + y;
      WordLengthAppend(v[1..], y);
    }
  }

  lemma WordLengthFull(w: string)
    requires NoSpace(w)
    ensures WordLength(w) == |w|
  {
  }

  lemma WordsCons(t: string)
    requires t != [] && !IsSpace(t[0])
    ensures var n := WordLength(t); 0 < n && Words(t) == [t[..n]] + Words(t[n..])
  {
    assert StripLeft(t) == t;
  }

  lemma WordsSkipSpace(s: string)
    ensures Words(s) == Words(StripLeft(s))
  {
    var u := StripLeft(s);
    assert StripLeft(u) == u;
  }

  /** Cutting `a + b` within `a`. */
  lemma SliceAppend(a: string, b: string, n: nat)
    requires n <= |a|
    ensures (a + b)[..n] == a[..n] && (a + b)[n..] == a[n..] + b
  {
  }

  /** Text that does not start with whitespace: `x + y` strips to the stripped `x`
      followed by `y`, and its first word is that of `x`. */
  lemma StripWordAppend(x: string, y: string)
    requires LeadingSpaces(x) < |x| && (y == [] || IsSpace(y[0]))
    ensures var v := StripLeft(x); var n := WordLength(v);
      StripLeft(x + y) == v + y && WordLength(v + y) == n
  {
    LeadingSpacesAppend(x, y);
    SliceAppend(x, y, LeadingSpaces(x));
    var v := StripLeft(x);
    WordLengthAppend(v, y);
  }

  /** Trailing whitespace adds no word. */
  lemma {:induction false} WordsTrailingSpace(x: string, sp: string)
    requires AllSpace(sp)
    ensures Words(x + sp) == Words(x)
    decreases |x|
  {
    var k := LeadingSpaces(x);
    if k == |x| {
      assert AllSpace(x + sp);
      assert LeadingSpaces(x + sp) == |x + sp|;
    } else {
      var v := StripLeft(x);
      var n := WordLength(v);
      StripWordAppend(x, sp);
      SliceAppend(v, sp, n);
      WordsTrailingSpace(v[n..], sp);
    }
  }

  lemma {:induction false} LeadingSpacesPrefix(sp: string, y: string)
    requires AllSpace(sp)
    ensures LeadingSpaces(sp + y) == |sp| + LeadingSpaces(y)
    decreases |sp|
  {
    if sp == [] {
      assert sp + y == y;
    } else {
      assert (sp + y)[1..] == sp[1..] + y;
      LeadingSpacesPrefix(sp[1..], y);
    }
  }

  /** Leading whitespace adds no word. */
  lemma WordsLeadingSpace(sp: string, y: string)
    requires AllSpace(sp)
    ensures Words(sp + y) == Words(y)
  {
    LeadingSpacesPrefix(sp, y);
    assert StripLeft(sp + y) == StripLeft(y);
    WordsSkipSpace(sp + y);
    WordsSkipSpace(y);
  }

  /** Collapsing whitespace runs keeps the words. */
  lemma {:induction false} WordsOfCollapse(x: string)
    ensures Words(Collapse(x)) == Words(x)
    decreases |x|
  {
    if x == [] {
    } else if IsSpace(x[0]) {
      CollapseSpaceHead(x);
      var u := StripLeft(x);
      WordsOfCollapse(u);
      WordsLeadingSpace([' '], Collapse(u));
      WordsSkipSpace(x);
    } else {
      var n := WordLength(x);
      var w := x[..n];
      var rest := x[n..];
      assert x == w + rest;
      CollapseWordPrefix(w, rest);
      WordsCons(x);
      WordsOfCollapse(rest);
      var c := Collapse(rest);
      CollapseShape(rest);
      var y := w + c;
      WordLengthFull(w);
      WordLengthAppend(w, c);
      WordsCons(y);
      assert y[..|w|] == w;
      assert y[|w|..] == c;
    }
  }

  lemma WordsOfStrip(s: string)
    ensures Words(Strip(s)) == Words(s)
  {
    var u := StripLeft(s);
    var r := StripRight(u);
    assert u == r + u[|r|..];
    WordsTrailingSpace(r, u[|r|..]);
    WordsSkipSpace(s);
  }

  lemma JoinCons(w: string, ws: seq<string>, sep: string)
    requires ws != []
    ensures JoinWith([w] + ws, sep) == w + sep + JoinWith(ws, sep)
  {
    assert ([w] + ws)[1..] == ws;
  }

  lemma CollapseOneWord(t: string)
    requires t != [] && WordLength(t) == |t|
    ensures Collapse(t) == JoinWith(Words(t), " ")
  {
    WordsCons(t);
    assert t[..|t|] == t;
    assert Words(t[|t|..]) == [];
    CollapseWordPrefix(t, []);
    assert t + [] == t;
  }

  /** Collapsing keeps a leading word and goes on after it. */
  lemma CollapseAfterWord(t: string)
    requires t != [] && !IsSpace(t[0])
    ensures var n := WordLength(t); Collapse(t) == t[..n] + Collapse(t[n..])
  {
    var n := WordLength(t);
    assert t == t[..n] + t[n..];
    CollapseWordPrefix(t[..n], t[n..]);
  }

  /** The words of a text that starts with a word and goes on after whitespace. */
  lemma WordsAfterWord(t: string)
    requires t != [] && !IsSpace(t[0])
    ensures var n := WordLength(t); Words(t) == [t[..n]] + Words(StripLeft(t[n..]))
  {
    WordsCons(t);
    WordsSkipSpace(t[WordLength(t)..]);
  }

  /** One step of `CollapseTrimmed`: the first word, one space, and the collapsed remainder. */
  lemma CollapseTrimmedStep(t: string, u: string)
    requires t != [] && !IsSpace(t[0]) && WordLength(t) < |t|
    requires u == StripLeft(t[WordLength(t)..]) && u != [] && !IsSpace(u[0])
    requires Collapse(u) == JoinWith(Words(u), " ")
    ensures Collapse(t) == JoinWith(Words(t), " ")
  {
    var n := WordLength(t);
    var w, rest := t[..n], t[n..];
    CollapseAfterWord(t);
    CollapseSpaceHead(rest);
    WordsAfterWord(t);
    WordsCons(u);
    JoinCons(w, Words(u), " ");
    ConcatAssoc(w, " ", Collapse(u));
  }

  lemma ConcatAssoc(a: string, b: string, c: string)
    ensures a + (b + c) == a + b + c
  {
  }

  /** Collapsing a string that has no whitespace at either end joins its words with one space. */
  lemma {:induction false} CollapseTrimmed(t: string)
    requires t == [] || (!IsSpace(t[0]) && !IsSpace(t[|t| - 1]))
    ensures Collapse(t) == JoinWith(Words(t), " ")
    decreases |t|
  {
    if t != [] {
      var n := WordLength(t);
      var rest := t[n..];
      if rest == [] {
        CollapseOneWord(t);
      } else {
        var u := StripLeft(rest);
        assert u != [] && !IsSpace(u[0]) && !IsSpace(u[|u| - 1]) by {
          assert rest[|rest| - 1] == t[|t| - 1];
        }
        CollapseTrimmed(u);
        CollapseTrimmedStep(t, u);
      }
    }
  }

  /** `re.sub(r"\s+", " ", s.strip())` equals `" ".join(s.split())`. */
  lemma NormalForm(s: string)
    ensures Collapse(Strip(s)) == JoinWith(Words(s), " ")
  {
    CollapseTrimmed(Strip(s));
    WordsOfStrip(s);
  }

  lemma JoinStartsWithWord(ws: seq<string>)
    requires ws != []
    requires forall w | w in ws :: w != [] && NoSpace(w)
    ensures var j := JoinWith(ws, " "); j != [] && !IsSpace(j[0])
  {
    assert ws[0] in ws;
    if |ws| > 1 {
      assert ws == [ws[0]] + ws[1..];
      JoinCons(ws[0], ws[1..], " ");
    }
  }

  /** Splitting words joined by single spaces gives the words back. */
  lemma {:induction false} WordsOfJoin(ws: seq<string>)
    requires forall w | w in ws :: w != [] && NoSpace(w)
    ensures Words(JoinWith(ws, " ")) == ws
  {
    if ws == [] {
    } else {
      var w := ws[0];
      assert w in ws;
      WordLengthFull(w);
      if |ws| == 1 {
        WordsCons(w);
        assert w[..|w|] == w;
        assert Words(w[|w|..]) == [];
      } else {
        var rest := ws[1..];
        var j := JoinWith(rest, " ");
        assert ws == [w] + rest;
        JoinCons(w, rest, " ");
        var s := w + (" " + j);
        assert s == w + " " + j;
        WordLengthAppend(w, " " + j);
        WordsCons(s);
        assert s[..|w|] == w;
        assert s[|w|..] == " " + j;
        assert forall x | x in rest :: x in ws;
        WordsOfJoin(rest);
        JoinStartsWithWord(rest);
        WordsSkipSpace(" " + j);
        assert StripLeft(" " + j) == j;
      }
    }
  }

  /** Trimming and collapsing is idempotent. */
  lemma NormalFormIdempotent(s: string)
    ensures var n := Collapse(Strip(s)); Collapse(Strip(n)) == n
  {
    var n := Collapse(Strip(s));
    NormalForm(s);
    NormalForm(n);
    WordsOfJoin(Words(s));
  }
}
