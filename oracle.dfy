/** The oracle test that `write_test_file` generates (agent.py:94-114): where it is
    written, the module it imports, and the `_normalize` comparison that decides whether
    a parsed table equals the expected CSV. */
module Oracle {
  import opened Text
  import opened Frames

  // ---------------------------------------------------------------------------
  // Naming (paths are relative to the project root)
  // ---------------------------------------------------------------------------

  /** `TESTS_DIR / f"test_{target}.py"`. */
  function TestPath(target: string): string {
    "tests/test_" + target + ".py"
  }

  /** The module the test imports `parse` from. */
  function ParserModule(target: string): string {
    "custom_parsers." + target + "_parser"
  }

  /** `CUSTOM_DIR / f"{target}_parser.py"`. */
  function ParserPath(target: string): string {
    "custom_parsers/" + target + "_parser" + ".py"
  }

  /** The two generated files never share a path: one lies under `tests/`, the other
      under `custom_parsers/`. */
  lemma TestAndParserPathsDiffer(target: string)
    ensures TestPath(target) != ParserPath(target)
  {
    assert TestPath(target)[0] == 't' && ParserPath(target)[0] == 'c';
  }

  /** The test file, the module it imports and the parser file all carry the target
      name as given. */
  lemma PathsSpelled(target: string)
    ensures TestPath(target) == "tests/test_" + target + ".py"
    ensures ParserModule(target) == "custom_parsers." + target + "_parser"
    ensures ParserPath(target) == "custom_parsers/" + target + "_parser.py"
  {
    assert "custom_parsers/" + target + "_parser" + ".py" == "custom_parsers/" + target + "_parser.py";
  }

  /** The file Python's import system loads for a dotted module name under the root. */
  function ModuleFile(module_name: string): string {
    Replace(module_name, ".", "/") + ".py"
  }

  lemma {:induction false} ReplaceAbsent(s: string, c: char, rep: string)
    requires c !in s
    ensures Replace(s, [c], rep) == s
    decreases |s|
  {
    if |s| >= 1 {
      assert s[0] in s;
      assert !IsPrefix([c], s);
      assert forall x | x in s[1..] :: x in s;
      ReplaceAbsent(s[1..], c, rep);
    }
  }

  lemma {:induction false} ReplaceAppendChar(a: string, b: string, c: char, rep: string)
    ensures Replace(a + b, [c], rep) == Replace(a, [c], rep) + Replace(b, [c], rep)
    decreases |a|
  {
    if a == [] {
      assert a + b == b;
    } else {
      assert (a + b)[1..] == a[1..] + b;
      assert IsPrefix([c], a + b) <==> IsPrefix([c], a);
      ReplaceAppendChar(a[1..], b, c, rep);
    }
  }

  lemma ReplacedModuleName(target: string)
    requires '.' !in target
    ensures Replace(ParserModule(target), ".", "/") == "custom_parsers" + ("/" + (target + "_parser"))
  {
    var pkg, suffix := "custom_parsers", "_parser";
    assert ParserModule(target) == pkg + ("." + (target + suffix));
    ReplaceAppendChar(pkg, "." + (target + suffix), '.', "/");
    ReplaceAppendChar(".", target + suffix, '.', "/");
    ReplaceAppendChar(target, suffix, '.', "/");
    ReplaceAbsent(pkg, '.', "/");
    ReplaceAbsent(target, '.', "/");
    ReplaceAbsent(suffix, '.', "/");
    assert Replace(".", ".", "/") == "/" by {
      assert IsPrefix(".", ".");
      assert Replace(""[..], ".", "/") == "";
    }
  }

  /** A target name without a dot makes the imported module exactly the file the loop
      writes, so the test exercises the generated parser. */
  lemma ImportedModuleIsWrittenFile(target: string)
    requires '.' !in target
    ensures ModuleFile(ParserModule(target)) == ParserPath(target)
  {
    ReplacedModuleName(target);
    assert "custom_parsers/" == "custom_parsers" + "/";
  }

  // ---------------------------------------------------------------------------
  // The test source
  // ---------------------------------------------------------------------------

  /** `from custom_parsers.{target}_parser import parse`. */
  function ImportLine(target: string): string {
    "from " + ParserModule(target) + " import parse"
  }

  /** The `_normalize` helper and the test function's head, as the generated file spells
      them; its behaviour is `Normalized` below. */
  const NormalizeSource: string :=
    "\ndef _normalize(df: pd.DataFrame) -> pd.DataFrame:\n" +
    "    df = df.copy()\n" +
    "    df = df.fillna(\"\")\n" +
    "    for c in df.columns:\n" +
    "        df[c] = df[c].astype(str).str.strip().replace(r\"\\s+\", \" \", regex=True)\n" +
    "    df = df.reindex(columns=expected.columns, fill_value=\"\")\n" +
    "    return df\n\n" +
    "def test_parse_equals_expected():\n"

  /** The text `write_test_file` writes for a target and the two sample paths. */
  function TestSource(target: string, pdf_path: string, csv_path: string): (text: string)
    ensures Contains(text, ImportLine(target))
  {
    var head := "\nimport pandas as pd\n";
    var rest := "\nexpected = pd.read_csv(r\"" + csv_path + "\")\n" + NormalizeSource +
      "    parsed = parse(r\"" + pdf_path + "\")\n" +
      "    assert _normalize(parsed).equals(_normalize(expected)), \"Parsed DataFrame does not match expected CSV\"\n";
    ContainsMiddle(head, ImportLine(target), rest);
    head + ImportLine(target) + rest
  }

  lemma ContainsMiddle(a: string, x: string, b: string)
    ensures Contains(a + x + b, x)
  {
    assert (a + x + b)[|a|..][..|x|] == x;
    assert IsPrefix(x, (a + x + b)[|a|..]);
  }

  // ---------------------------------------------------------------------------
  // _normalize
  // ---------------------------------------------------------------------------

  /** One cell: `fillna("")`, then `.str.strip()`, then `\s+` replaced by one space. */
  function NormalizeCell(c: Cell): string {
    Collapse(Strip(OrEmpty(c)))
  }

  /** The frame after `fillna("")` and the per-column rewrite. */
  function NormalizeCells(f: Frame): (g: Frame)
    ensures g.columns == f.columns && |g.rows| == |f.rows|
    ensures forall i, j | 0 <= i < |f.rows| && 0 <= j < |f.columns| :: g.rows[i][j] == Some(NormalizeCell(f.rows[i][j]))
  {
    var rows := seq(|f.rows|, i requires 0 <= i < |f.rows| =>
      seq(|f.columns|, j requires 0 <= j < |f.columns| => Some(NormalizeCell(f.rows[i][j]))));
    assert forall r | r in rows :: |r| == |f.columns|;
    Table(f.columns, rows)
  }

  /** `df.reindex(columns=names, fill_value="")` on a frame with distinct labels: the
      named columns in that order, "" for a name the frame lacks, others dropped. */
  function Reindex(f: Frame, names: seq<string>): (g: Frame)
    ensures g.columns == names && |g.rows| == |f.rows|
    ensures forall i, j | 0 <= i < |f.rows| && 0 <= j < |names| ::
      g.rows[i][j] == if names[j] in f.columns then f.rows[i][FirstIndex(f.columns, names[j])] else Some("")
  {
    var rows := seq(|f.rows|, i requires 0 <= i < |f.rows| =>
      seq(|names|, j requires 0 <= j < |names| =>
        if names[j] in f.columns then f.rows[i][FirstIndex(f.columns, names[j])] else Some("")));
    assert forall r | r in rows :: |r| == |names|;
    Table(names, rows)
  }

  /** `_normalize(df)` against the expected CSV's columns. Repeated labels make
      `df[c].str` fail, so the test errors instead of comparing. */
  function Normalized(f: Frame, names: seq<string>): (r: Option<Frame>)
    ensures r.Some? <==> Distinct(f.columns)
    ensures r.Some? ==> r.value.columns == names && |r.value.rows| == |f.rows| && NoMissingOrBlankEdges(r.value)
  {
    if !Distinct(f.columns) then None
    else
      var g := NormalizeCells(f);
      NormalizeCellShape(f);
      Some(Reindex(g, names))
  }

  /** Every cell present, with no whitespace at either end and single blanks inside. */
  predicate NoMissingOrBlankEdges(f: Frame) {
    forall i, j | 0 <= i < |f.rows| && 0 <= j < |f.columns| ::
      f.rows[i][j].Some? && Tidy(f.rows[i][j].value)
  }

  predicate Tidy(s: string) {
    (s == [] || (!IsSpace(s[0]) && !IsSpace(s[|s| - 1]))) && NoAdjacentSpaces(s) && OnlyBlanks(s)
  }

  lemma NormalizeCellTidy(c: Cell)
    ensures Tidy(NormalizeCell(c))
  {
    var s := OrEmpty(c);
    NormalForm(s);
    JoinTidy(Words(s));
    CollapseShape(Strip(s));
  }

  lemma NormalizeCellShape(f: Frame)
    ensures forall i, j | 0 <= i < |f.rows| && 0 <= j < |f.columns| :: Tidy(NormalizeCell(f.rows[i][j]))
  {
    forall i, j | 0 <= i < |f.rows| && 0 <= j < |f.columns| ensures Tidy(NormalizeCell(f.rows[i][j])) {
      NormalizeCellTidy(f.rows[i][j]);
    }
  }

  /** Words joined by one blank neither start nor end with whitespace. */
  lemma {:induction false} JoinTidy(ws: seq<string>)
    requires forall w | w in ws :: w != [] && NoSpace(w)
    ensures var j := JoinWith(ws, " "); j == [] || (!IsSpace(j[0]) && !IsSpace(j[|j| - 1]))
  {
    if |ws| == 1 {
      assert ws[0] in ws;
    } else if |ws| > 1 {
      assert ws[0] in ws;
      assert forall w | w in ws[1..] :: w in ws;
      JoinTidy(ws[1..]);
      JoinStartsWithWord(ws[1..]);
    }
  }

  /** The `_normalize` body as the test runs it: copy, `fillna("")`, rewrite the columns
      one at a time, then reindex. */
  method Normalize(df: Frame, names: seq<string>) returns (r: Option<Frame>)
    ensures r == Normalized(df, names)
  {
    // with a repeated label, `df[c]` is a frame and `.str` raises on it
    if !Distinct(df.columns) {
      return None;
    }
    var d: Frame := df;
    for k := 0 to |df.columns|
      invariant d.columns == df.columns && |d.rows| == |df.rows|
      invariant forall i, j | 0 <= i < |df.rows| && 0 <= j < |df.columns| ::
        d.rows[i][j] == if j < k then Some(NormalizeCell(df.rows[i][j])) else df.rows[i][j]
    {
      d := SetColumn(d, k, seq(|d.rows|, i requires 0 <= i < |d.rows| => Some(NormalizeCell(d.rows[i][k]))));
    }
    assert d == NormalizeCells(df) by {
      var g := NormalizeCells(df);
      forall i | 0 <= i < |df.rows| ensures d.rows[i] == g.rows[i] {
        assert d.rows[i] in d.rows && g.rows[i] in g.rows;
      }
    }
    return Some(Reindex(d, names));
  }

  /** `df[d.columns[k]] = values`. */
  function SetColumn(d: Frame, k: nat, values: seq<Cell>): (e: Frame)
    requires k < |d.columns| && |values| == |d.rows|
    ensures e.columns == d.columns && |e.rows| == |d.rows|
    ensures forall i, j | 0 <= i < |d.rows| && 0 <= j < |d.columns| :: e.rows[i][j] == if j == k then values[i] else d.rows[i][j]
  {
    assert forall i | 0 <= i < |d.rows| :: d.rows[i] in d.rows;
    var rows := seq(|d.rows|, i requires 0 <= i < |d.rows| => d.rows[i][k := values[i]]);
    assert forall r | r in rows :: |r| == |d.columns|;
    Table(d.columns, rows)
  }

  // ---------------------------------------------------------------------------
  // The verdict
  // ---------------------------------------------------------------------------

  /** `_normalize(parsed).equals(_normalize(expected))`, normalising both against the
      expected CSV's columns; an exception in either is a failing test. */
  predicate Passes(parsed: Frame, expected: Frame) {
    var p := Normalized(parsed, expected.columns);
    var e := Normalized(expected, expected.columns);
    p.Some? && e.Some? && p.value == e.value
  }

  // ---------------------------------------------------------------------------
  // Properties
  // ---------------------------------------------------------------------------

  /** Trimming and collapsing is `" ".join(s.split())`: the normalised cell is determined
      by the cell's words alone. */
  lemma NormalizeCellIsWords(c: Cell)
    ensures NormalizeCell(c) == JoinWith(Words(OrEmpty(c)), " ")
  {
    NormalForm(OrEmpty(c));
  }

  /** A missing cell compares like an empty string. */
  lemma MissingIsEmpty()
    ensures NormalizeCell(None) == NormalizeCell(Some(""))
  {
  }

  /** Whitespace around a value does not matter. */
  lemma {:induction false} PaddingIgnored(pad1: string, s: string, pad2: string)
    requires AllSpace(pad1) && AllSpace(pad2)
    ensures NormalizeCell(Some(pad1 + s + pad2)) == NormalizeCell(Some(s))
  {
    NormalizeCellIsWords(Some(pad1 + s + pad2));
    NormalizeCellIsWords(Some(s));
    WordsTrailingSpace(pad1 + s, pad2);
    WordsLeadingSpace(pad1, s);
  }

  /** " 100.00 " compares equal to "100.00". */
  lemma PaddedAmountEqual()
    ensures NormalizeCell(Some(" 100.00 ")) == NormalizeCell(Some("100.00"))
  {
    assert " 100.00 " == " " + "100.00" + " ";
    PaddingIgnored(" ", "100.00", " ");
  }

  /** Normalising a cell twice is normalising it once. */
  lemma NormalizeCellIdempotent(c: Cell)
    ensures NormalizeCell(Some(NormalizeCell(c))) == NormalizeCell(c)
  {
    NormalFormIdempotent(OrEmpty(c));
  }

  /** `_normalize` is idempotent when the expected column names are distinct. */
  lemma NormalizedIdempotent(f: Frame, names: seq<string>)
    requires Distinct(names) && Distinct(f.columns)
    ensures var n := Normalized(f, names).value;
      Normalized(n, names) == Some(n)
  {
    var n := Normalized(f, names).value;
    NormalizeCellsOfTidy(n);
    ReindexSelf(n);
  }

  /** A frame whose cells are all present and tidy is left alone by the cell rewrite. */
  lemma NormalizeCellsOfTidy(n: Frame)
    requires NoMissingOrBlankEdges(n)
    ensures NormalizeCells(n) == n
  {
    var m := NormalizeCells(n);
    forall i | 0 <= i < |n.rows| ensures m.rows[i] == n.rows[i] {
      forall j | 0 <= j < |n.columns| ensures m.rows[i][j] == n.rows[i][j] {
        TidyIsNormal(n.rows[i][j].value);
      }
    }
    assert m.rows == n.rows;
  }

  /** Reindexing a frame with distinct labels by its own labels changes nothing. */
  lemma ReindexSelf(n: Frame)
    requires Distinct(n.columns)
    ensures Reindex(n, n.columns) == n
  {
    var names := n.columns;
    var m := Reindex(n, names);
    forall j | 0 <= j < |names| ensures FirstIndex(names, names[j]) == j {
      var k := FirstIndex(names, names[j]);
      assert !(k < j) && !(j < k);
    }
    forall i | 0 <= i < |n.rows| ensures m.rows[i] == n.rows[i] {
      assert forall j | 0 <= j < |names| :: m.rows[i][j] == n.rows[i][j];
    }
    assert m.rows == n.rows;
  }

  /** A tidy string is its own normal form. */
  lemma TidyIsNormal(s: string)
    requires Tidy(s)
    ensures NormalizeCell(Some(s)) == s
  {
    assert Strip(s) == s by {
      if s != [] {
        assert LeadingSpaces(s) == 0;
        assert TrailingSpaces(s) == 0;
      }
    }
    CollapseOfTidy(s);
  }

  lemma {:induction false} CollapseOfTidy(s: string)
    requires NoAdjacentSpaces(s) && OnlyBlanks(s)
    requires s == [] || !IsSpace(s[0])
    ensures Collapse(s) == s
    decreases |s|
  {
    if s != [] {
      var n := WordLength(s);
      var w, rest := s[..n], s[n..];
      assert s == w + rest;
      CollapseWordPrefix(w, rest);
      if rest != [] {
        var u := rest[1..];
        TidyAfterWord(s);
        CollapseSpaceHead(rest);
        CollapseOfTidy(u);
        assert rest == [' '] + u;
      } else {
        assert Collapse(rest) == rest;
      }
    }
  }

  /** In a tidy text, a word that is not the last is followed by one blank and then a
      tidy text again. */
  lemma TidyAfterWord(s: string)
    requires NoAdjacentSpaces(s) && OnlyBlanks(s)
    requires s != [] && !IsSpace(s[0]) && WordLength(s) < |s|
    ensures var n := WordLength(s); var u := s[n + 1..];
      s[n] == ' ' && StripLeft(s[n..]) == u &&
      NoAdjacentSpaces(u) && OnlyBlanks(u) && (u == [] || !IsSpace(u[0]))
  {
    var n := WordLength(s);
    var rest, u := s[n..], s[n + 1..];
    assert rest[1..] == u;
    if u != [] {
      assert s[n + 1] == u[0];
    }
    assert LeadingSpaces(rest) == 1 by {
      assert rest[1..] == u;
    }
    assert forall i | 0 <= i < |u| :: u[i] == s[n + 1 + i];
  }

  /** Cells that carry the same words compare equal: the verdict is blind to
      whitespace, and to a missing cell against an empty one. */
  lemma SameWordsSameVerdictInput(a: Frame, b: Frame, names: seq<string>)
    requires a.columns == b.columns && Distinct(a.columns) && |a.rows| == |b.rows|
    requires forall i, j | 0 <= i < |a.rows| && 0 <= j < |a.columns| ::
      Words(OrEmpty(a.rows[i][j])) == Words(OrEmpty(b.rows[i][j]))
    ensures Normalized(a, names) == Normalized(b, names)
  {
    SameWordsSameCells(a, b);
  }

  lemma SameWordsSameCells(a: Frame, b: Frame)
    requires a.columns == b.columns && |a.rows| == |b.rows|
    requires forall i, j | 0 <= i < |a.rows| && 0 <= j < |a.columns| ::
      Words(OrEmpty(a.rows[i][j])) == Words(OrEmpty(b.rows[i][j]))
    ensures NormalizeCells(a) == NormalizeCells(b)
  {
    var na, nb := NormalizeCells(a), NormalizeCells(b);
    forall i | 0 <= i < |a.rows| ensures na.rows[i] == nb.rows[i] {
      forall j | 0 <= j < |a.columns| ensures na.rows[i][j] == nb.rows[i][j] {
        SameWordsSameCell(a.rows[i][j], b.rows[i][j]);
      }
    }
    assert na.rows == nb.rows;
  }

  lemma SameWordsSameCell(x: Cell, y: Cell)
    requires Words(OrEmpty(x)) == Words(OrEmpty(y))
    ensures NormalizeCell(x) == NormalizeCell(y)
  {
    NormalizeCellIsWords(x);
    NormalizeCellIsWords(y);
  }


  /** The expected table always passes against itself when its labels are distinct. */
  lemma ExpectedPassesItself(expected: Frame)
    requires Distinct(expected.columns)
    ensures Passes(expected, expected)
  {
  }

  /** A parse that yields the empty table fails against any expected CSV with a row. */
  lemma EmptyParseFails(expected: Frame)
    requires |expected.rows| > 0
    ensures !Passes(EmptyFrame(expected.columns), expected)
  {
  }

  /** Columns the expected CSV lacks are dropped, and a missing one reads as "". */
  lemma ReindexDropsAndFills(f: Frame, names: seq<string>, j: nat)
    requires Distinct(f.columns) && j < |names| && names[j] !in f.columns
    ensures var n := Normalized(f, names).value;
      forall i | 0 <= i < |n.rows| :: n.rows[i][j] == Some("")
  {
  }
}
