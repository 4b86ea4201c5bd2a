/** The generated extraction routine `icici_parser.py` (the body of the parser
    template): cell cleaning, the table strategy with its header match and column
    coercion, the text-pattern fallback, and the empty-table default.

    The PDF engine's output is an input: per page, the tables it extracts (rows of
    optional strings) or the page text, and an explicit failure wherever the engine
    can raise. The regular expression's `findall` is a function parameter. */
module IciciParser {
  import opened Text
  import opened Frames

  /** `EXPECTED_COLUMNS` of the ICICI instance. */
  const IciciColumns: seq<string> := ["Date", "Description", "Debit Amt", "Credit Amt", "Balance"]

  /** The character class `[â‚¹$,]` that `_clean_cell` deletes (the first three are
      the UTF-8 bytes of the rupee sign read as Windows-1252). */
  const Removed: set<char> := {'\U{E2}', '\U{201A}', '\U{B9}', '$', ','}

  // ---------------------------------------------------------------------------
  // The extraction engine's output
  // ---------------------------------------------------------------------------

  /** A table as the engine returns it: rows of cells, `None` for an empty cell. */
  type RawTable = seq<seq<Cell>>

  /** One page's extraction result, or the engine raising on that page. */
  datatype Page<T> = PageFailed | PageOk(content: T)

  /** Opening the document fails, or gives its pages in order. */
  datatype Extraction<T> = OpenFailed | Opened(pages: seq<Page<T>>)

  /** What the engine yields for one PDF: each page's tables for the table strategy,
      each page's text (`None` when it has none) for the fallback. */
  datatype Document = Document(tables: Extraction<seq<RawTable>>, text: Extraction<Option<string>>)

  /** One `findall` match of the fallback pattern: (date, description, amount). */
  datatype Capture = Capture(date: string, desc: string, amount: string)

  // ---------------------------------------------------------------------------
  // _clean_cell
  // ---------------------------------------------------------------------------

  /** `re.sub(r"[â‚¹$,]", "", s)`. */
  function RemoveSymbols(s: string): (r: string)
    ensures forall c | c in r :: c !in Removed
    ensures forall c | c in s && c !in Removed :: c in r
  {
    if s == [] then []
    else (if s[0] in Removed then [] else [s[0]]) + RemoveSymbols(s[1..])
  }

  /** `_clean_cell`: `None` becomes "", otherwise trim, delete the symbols, then
      collapse whitespace runs. */
  function CleanCell(x: Cell): string {
    match x
    case None => ""
    case Some(s) => Collapse(RemoveSymbols(Strip(s)))
  }

  /** A cleaned cell holds none of the deleted symbols and only single plain blanks. */
  lemma CleanCellShape(x: Cell)
    ensures var r := CleanCell(x);
      (x.None? ==> r == "") && (forall c | c in r :: c !in Removed) && NoAdjacentSpaces(r) && OnlyBlanks(r)
  {
    if x.Some? {
      var t := RemoveSymbols(Strip(x.value));
      CollapseShape(t);
      CollapseChars(t);
    }
  }

  lemma {:induction false} RemoveSymbolsAppend(a: string, b: string)
    ensures RemoveSymbols(a + b) == RemoveSymbols(a) + RemoveSymbols(b)
  {
    if a != [] {
      assert (a + b)[1..] == a[1..] + b;
      RemoveSymbolsAppend(a[1..], b);
      var h := if a[0] in Removed then [] else [a[0]];
      ConcatAssoc(h, RemoveSymbols(a[1..]), RemoveSymbols(b));
    } else {
      assert a + b == b;
    }
  }

  lemma {:induction false} RemoveSymbolsKeepsSpace(a: string)
    requires AllSpace(a)
    ensures RemoveSymbols(a) == a
  {
    if a != [] {
      assert a[0] !in Removed by { assert IsSpace(a[0]); }
      RemoveSymbolsKeepsSpace(a[1..]);
      assert RemoveSymbols(a) == [a[0]] + RemoveSymbols(a[1..]);
      assert [a[0]] + a[1..] == a;
    }
  }

  /** The cleaned cell has the words of the raw cell once the symbols are deleted: the
      trim and the collapse change only whitespace. */
  lemma CleanCellWords(s: string)
    ensures Words(CleanCell(Some(s))) == Words(RemoveSymbols(s))
  {
    var m := Strip(s);
    var lead := LeadingSpaces(s);
    var a, b := s[..lead], s[lead + |m|..];
    assert s == a + m + b;
    RemoveSymbolsAppend(a + m, b);
    RemoveSymbolsAppend(a, m);
    RemoveSymbolsKeepsSpace(a);
    RemoveSymbolsKeepsSpace(b);
    var m' := RemoveSymbols(m);
    WordsTrailingSpace(a + m', b);
    WordsLeadingSpace(a, m');
    WordsOfCollapse(m');
  }

  /** Deleting a symbol after the trim can leave a blank at the edge: "$ a" cleans to " a". */
  lemma CleanCellKeepsEdgeBlank()
    ensures CleanCell(Some("$ a")) == " a"
  {
    StripKeepsTrimmed("$ a");
    RemoveLeadingDollar();
    CollapseLeadingBlank();
  }

  lemma RemoveLeadingDollar()
    ensures RemoveSymbols("$ a") == " a"
  {
    var s := "$ a";
    assert RemoveSymbols(s[2..]) == "a";
    assert RemoveSymbols(s[1..]) == " a";
  }

  lemma CollapseLeadingBlank()
    ensures Collapse(" a") == " a"
  {
    var t := " a";
    assert LeadingSpaces(t) == 1 by { assert LeadingSpaces(t[1..]) == 0; }
    assert StripLeft(t) == "a";
    assert Collapse("a") == "a" by { assert Collapse("a"[1..]) == []; }
  }

  function CleanRow(row: seq<Cell>): (r: seq<string>)
    ensures |r| == |row|
    ensures forall j | 0 <= j < |row| :: r[j] == CleanCell(row[j])
  {
    if row == [] then [] else [CleanCell(row[0])] + CleanRow(row[1..])
  }

  function CleanRows(rows: seq<seq<Cell>>): (r: seq<seq<string>>)
    ensures |r| == |rows|
    ensures forall i | 0 <= i < |rows| :: r[i] == CleanRow(rows[i])
  {
    if rows == [] then []
    else
      assert forall i | 1 <= i < |rows| :: rows[1..][i - 1] == rows[i];
      [CleanRow(rows[0])] + CleanRows(rows[1..])
  }

  // ---------------------------------------------------------------------------
  // Header match
  // ---------------------------------------------------------------------------

  /** `name.lower().split()`: the tokens of a column name; `[0]` of it is its first token. */
  function Tokens(name: string): seq<string> {
    Words(Lower(name))
  }

  /** The lowercased, space-joined header that the tokens are searched in. */
  function HeaderText(header: seq<string>): string {
    Lower(JoinWith(header, " "))
  }

  /** `any(ec.lower().split()[0] in text for ec in expected)`: left to right, stopping
      at the first hit; indexing the tokens of a blank name raises `IndexError`. */
  function AnyTokenIn(expected: seq<string>, text: string): Outcome<bool> {
    if expected == [] then Returned(false)
    else if Tokens(expected[0]) == [] then Raised
    else if Contains(text, Tokens(expected[0])[0]) then Returned(true)
    else AnyTokenIn(expected[1..], text)
  }

  function HeaderMatches(expected: seq<string>, header: seq<string>): Outcome<bool> {
    AnyTokenIn(expected, HeaderText(header))
  }

  predicate TokenHit(name: string, text: string) {
    Tokens(name) != [] && Contains(text, Tokens(name)[0])
  }

  /** When no expected name is blank, the header matches exactly when the first token of
      some expected name occurs in the header text. */
  lemma {:induction false} AnyTokenInIff(expected: seq<string>, text: string)
    requires forall k | 0 <= k < |expected| :: Tokens(expected[k]) != []
    ensures AnyTokenIn(expected, text).Returned?
    ensures AnyTokenIn(expected, text).value <==> exists k | 0 <= k < |expected| :: TokenHit(expected[k], text)
  {
    if expected != [] {
      AnyTokenInIff(expected[1..], text);
      if !TokenHit(expected[0], text) {
        assert (exists k | 0 <= k < |expected| :: TokenHit(expected[k], text))
          <==> (exists k | 0 <= k < |expected[1..]| :: TokenHit(expected[1..][k], text)) by {
          forall k | 0 < k < |expected| ensures expected[k] == expected[1..][k - 1] { }
        }
      }
    }
  }

  /** A name whose first token is present and absent from the text: the scan moves on. */
  predicate Passes(name: string, text: string) {
    Tokens(name) != [] && !TokenHit(name, text)
  }

  /** The scan reaches the blank name at `k`: every name before it passes. */
  predicate RaisesAt(expected: seq<string>, text: string, k: int) {
    0 <= k < |expected| && Tokens(expected[k]) == [] && forall j | 0 <= j < k :: Passes(expected[j], text)
  }

  lemma RaisesAtShift(expected: seq<string>, text: string, k: int)
    requires 0 < k < |expected|
    ensures RaisesAt(expected, text, k) <==> Passes(expected[0], text) && RaisesAt(expected[1..], text, k - 1)
  {
    assert forall j | 0 <= j < k - 1 :: expected[1..][j] == expected[j + 1];
    if Passes(expected[0], text) && RaisesAt(expected[1..], text, k - 1) {
      forall j | 0 <= j < k ensures Passes(expected[j], text) {
        if j > 0 { assert expected[j] == expected[1..][j - 1]; }
      }
    }
  }

  /** The `IndexError` case: the scan raises exactly when it reaches a blank name
      before any name whose first token occurs in the text. */
  lemma {:induction false} AnyTokenInRaises(expected: seq<string>, text: string)
    ensures AnyTokenIn(expected, text) == Raised <==> exists k :: RaisesAt(expected, text, k)
  {
    if expected != [] {
      AnyTokenInRaises(expected[1..], text);
      var e := expected[0];
      if Tokens(e) == [] {
        assert RaisesAt(expected, text, 0);
      } else if TokenHit(e, text) {
        assert !Passes(expected[0], text);
        forall k ensures !RaisesAt(expected, text, k) {
          if k > 0 {
            assert !Passes(expected[0], text);
          }
        }
      } else if AnyTokenIn(expected, text) == Raised {
        var k' :| RaisesAt(expected[1..], text, k');
        RaisesAtShift(expected, text, k' + 1);
      } else {
        forall k ensures !RaisesAt(expected, text, k) {
          if 0 < k < |expected| { RaisesAtShift(expected, text, k); }
        }
      }
    }
  }

  // ---------------------------------------------------------------------------
  // Column coercion
  // ---------------------------------------------------------------------------

  /** The cell of `row` under the column called `name`, or "" when there is none (the
      column `df[col] = ""` adds). */
  function CellUnder(columns: seq<string>, row: seq<Cell>, name: string): Cell
    requires |row| == |columns|
  {
    if name in columns then row[FirstIndex(columns, name)] else Some("")
  }

  function CoerceRow(columns: seq<string>, row: seq<Cell>, expected: seq<string>): (r: seq<Cell>)
    requires |row| == |columns|
    ensures |r| == |expected|
    ensures forall j | 0 <= j < |expected| :: r[j] == CellUnder(columns, row, expected[j])
  {
    if expected == [] then []
    else [CellUnder(columns, row, expected[0])] + CoerceRow(columns, row, expected[1..])
  }

  /** Add an empty column for every expected name the frame lacks, then keep the
      expected columns in the expected order (`df[EXPECTED_COLUMNS]`), one column per
      expected name. */
  function Coerce(f: Frame, expected: seq<string>): (g: Frame)
    ensures g.columns == expected && |g.rows| == |f.rows|
    ensures forall i, j | 0 <= i < |f.rows| && 0 <= j < |expected| ::
      g.rows[i][j] == if expected[j] in f.columns then f.rows[i][FirstIndex(f.columns, expected[j])] else Some("")
  {
    var rows := seq(|f.rows|, i requires 0 <= i < |f.rows| => CoerceRow(f.columns, f.rows[i], expected));
    assert forall r | r in rows :: |r| == |expected|;
    Table(expected, rows)
  }

  /** All positions of `name` in `names`, in increasing order. */
  function Positions(names: seq<string>, name: string): (ps: seq<nat>)
    ensures forall k | 0 <= k < |ps| :: ps[k] < |names| && names[ps[k]] == name
    ensures forall p | 0 <= p < |names| && names[p] == name :: p in ps
  {
    if names == [] then []
    else
      var n := |names| - 1;
      Positions(names[..n], name) + (if names[n] == name then [n] else [])
  }

  /** `df[EXPECTED_COLUMNS]` as pandas evaluates it: an expected name that several
      header columns carry selects every one of them. */
  function CoerceAsWritten(f: Frame, expected: seq<string>): (t: Table)
    ensures |t.rows| == |f.rows|
  {
    Table(SelectedNames(f.columns, expected),
          seq(|f.rows|, i requires 0 <= i < |f.rows| => SelectedCells(f.columns, f.rows[i], expected)))
  }

  function SelectedNames(columns: seq<string>, expected: seq<string>): seq<string> {
    if expected == [] then []
    else
      var e := expected[0];
      var ps := Positions(columns, e);
      NamesFor(e, |ps|) + SelectedNames(columns, expected[1..])
  }

  /** The names one expected name selects: itself, once per header column carrying it,
      or once as a blank column when none does. */
  function NamesFor(e: string, n: nat): (r: seq<string>)
    ensures |r| == if n == 0 then 1 else n
  {
    if n == 0 then [e] else seq(n, k => e)
  }

  lemma NamesForOne(e: string, n: nat)
    requires n <= 1
    ensures NamesFor(e, n) == [e]
  {
    if n == 1 {
      assert NamesFor(e, n)[0] == e;
    }
  }

  function SelectedCells(columns: seq<string>, row: seq<Cell>, expected: seq<string>): seq<Cell>
    requires |row| == |columns|
  {
    if expected == [] then []
    else
      var ps := Positions(columns, expected[0]);
      (if ps == [] then [Some("")] else seq(|ps|, k requires 0 <= k < |ps| => row[ps[k]]))
        + SelectedCells(columns, row, expected[1..])
  }

  /** The as-written selection has one column per expected name that the header lacks
      and one per header column carrying an expected name: at least as many columns as
      expected, and more as soon as one expected name is carried twice. */
  lemma {:induction false} SelectedNamesWiden(columns: seq<string>, expected: seq<string>)
    ensures |SelectedNames(columns, expected)| >= |expected|
    ensures (exists k | 0 <= k < |expected| :: |Positions(columns, expected[k])| >= 2) ==>
      |SelectedNames(columns, expected)| > |expected|
  {
    if expected != [] {
      SelectedNamesWiden(columns, expected[1..]);
      if exists k | 0 <= k < |expected| :: |Positions(columns, expected[k])| >= 2 {
        var k :| 0 <= k < |expected| && |Positions(columns, expected[k])| >= 2;
        if k > 0 {
          assert expected[1..][k - 1] == expected[k];
        }
      }
    }
  }

  /** Two header columns carrying the same expected name give the as-written result
      more columns than expected, while the coercion keeps exactly the expected ones. */
  lemma DuplicateWidens(f: Frame, expected: seq<string>, k: nat, p: nat, q: nat)
    requires k < |expected| && p < q < |f.columns|
    requires f.columns[p] == expected[k] && f.columns[q] == expected[k]
    ensures |CoerceAsWritten(f, expected).columns| > |expected|
    ensures Coerce(f, expected).columns == expected
  {
    var ps := Positions(f.columns, expected[k]);
    assert p in ps && q in ps;
    assert |ps| >= 2;
    SelectedNamesWiden(f.columns, expected);
  }

  /** Concretely: any table under a header carrying "Date" twice yields more than five
      columns as written, not the five of `EXPECTED_COLUMNS`. */
  lemma DuplicateHeaderWidensResult(f: Frame)
    requires f.columns == ["Date", "Date", "Description", "Debit Amt", "Credit Amt", "Balance"]
    ensures |CoerceAsWritten(f, IciciColumns).columns| > 5
    ensures |Coerce(f, IciciColumns).columns| == 5
  {
    DuplicateWidens(f, IciciColumns, 0, 0, 1);
  }

  /** Where no expected name is carried by two header columns, the selection pandas
      performs is the coercion the model uses. */
  lemma {:induction false} CoerceAgreesWithoutDuplicates(f: Frame, expected: seq<string>)
    requires forall k | 0 <= k < |expected| :: |Positions(f.columns, expected[k])| <= 1
    ensures CoerceAsWritten(f, expected) == Coerce(f, expected)
  {
    SelectedNamesAgree(f.columns, expected);
    forall i | 0 <= i < |f.rows|
      ensures SelectedCells(f.columns, f.rows[i], expected) == CoerceRow(f.columns, f.rows[i], expected)
    {
      SelectedCellsAgree(f.columns, f.rows[i], expected);
    }
  }

  lemma SinglePosition(names: seq<string>, name: string)
    requires name in names && |Positions(names, name)| == 1
    ensures Positions(names, name) == [FirstIndex(names, name)]
  {
    var ps := Positions(names, name);
    assert names[ps[0]] == name;
    assert FirstIndex(names, name) in ps;
  }

  lemma {:induction false} SelectedNamesAgree(columns: seq<string>, expected: seq<string>)
    requires forall k | 0 <= k < |expected| :: |Positions(columns, expected[k])| <= 1
    ensures SelectedNames(columns, expected) == expected
  {
    if expected != [] {
      assert forall k | 1 <= k < |expected| :: expected[1..][k - 1] == expected[k];
      SelectedNamesAgree(columns, expected[1..]);
      var e := expected[0];
      var ps := Positions(columns, e);
      NamesForOne(e, |ps|);
      assert expected == [e] + expected[1..];
    }
  }

  lemma {:induction false} SelectedCellsAgree(columns: seq<string>, row: seq<Cell>, expected: seq<string>)
    requires |row| == |columns|
    requires forall k | 0 <= k < |expected| :: |Positions(columns, expected[k])| <= 1
    ensures SelectedCells(columns, row, expected) == CoerceRow(columns, row, expected)
  {
    if expected != [] {
      SelectedCellsAgree(columns, row, expected[1..]);
      var e := expected[0];
      var ps := Positions(columns, e);
      if ps != [] {
        assert columns[ps[0]] == e;
        SinglePosition(columns, e);
        assert seq(|ps|, k requires 0 <= k < |ps| => row[ps[k]]) == [row[FirstIndex(columns, e)]];
      }
    }
  }

  // ---------------------------------------------------------------------------
  // Coercion step by step: add the missing columns one by one, then the corrected
  // selection (each name's first column; pandas' own selection is `CoerceAsWritten`)
  // ---------------------------------------------------------------------------

  /** `df[name] = value` for a column the frame lacks: a new last column. */
  function AddColumn(f: Frame, name: string, value: Cell): (g: Frame)
    ensures g.columns == f.columns + [name] && |g.rows| == |f.rows|
    ensures forall i | 0 <= i < |f.rows| :: g.rows[i] == f.rows[i] + [value]
  {
    var rows := seq(|f.rows|, i requires 0 <= i < |f.rows| => f.rows[i] + [value]);
    assert forall r | r in rows :: |r| == |f.columns| + 1;
    Table(f.columns + [name], rows)
  }

  /** The corrected `df[expected]` when every expected name is a column: one column per
      name, taken from its first occurrence. pandas keeps every column carrying the name
      instead, which `CoerceAsWritten` models. */
  function Select(f: Frame, expected: seq<string>): (g: Frame)
    requires forall j | 0 <= j < |expected| :: expected[j] in f.columns
    ensures g.columns == expected && |g.rows| == |f.rows|
  {
    var rows := seq(|f.rows|, i requires 0 <= i < |f.rows| =>
      seq(|expected|, j requires 0 <= j < |expected| => f.rows[i][FirstIndex(f.columns, expected[j])]));
    assert forall r | r in rows :: |r| == |expected|;
    Table(expected, rows)
  }

  lemma SelectIsCoerce(f: Frame, expected: seq<string>)
    requires forall j | 0 <= j < |expected| :: expected[j] in f.columns
    ensures Select(f, expected) == Coerce(f, expected)
  {
    var s, c := Select(f, expected), Coerce(f, expected);
    forall i | 0 <= i < |f.rows| ensures s.rows[i] == c.rows[i] {
      assert forall j | 0 <= j < |expected| :: s.rows[i][j] == c.rows[i][j];
    }
  }

  lemma FirstIndexAppend(a: seq<string>, b: seq<string>, name: string)
    requires name in a + b
    ensures name in a ==> FirstIndex(a + b, name) == FirstIndex(a, name)
    ensures name !in a ==> FirstIndex(a + b, name) >= |a|
  {
    if name in a {
      var k' := FirstIndex(a, name);
      assert (a + b)[k'] == name;
    }
  }

  /** `g` is `f` with columns appended that `f` lacks, each holding "". */
  predicate Extends(g: Frame, f: Frame) {
    var n := |f.columns|;
    |g.rows| == |f.rows| && |g.columns| >= n && g.columns[..n] == f.columns &&
    (forall i | 0 <= i < |f.rows| :: g.rows[i][..n] == f.rows[i]) &&
    (forall i, c | 0 <= i < |f.rows| && n <= c < |g.columns| :: g.rows[i][c] == Some("")) &&
    (forall c | n <= c < |g.columns| :: g.columns[c] !in f.columns)
  }

  lemma ExtendsSelf(f: Frame)
    ensures Extends(f, f)
  {
    assert f.columns[..|f.columns|] == f.columns;
    assert forall i | 0 <= i < |f.rows| :: f.rows[i][..|f.columns|] == f.rows[i];
  }

  lemma ExtendsAdd(f: Frame, g: Frame, name: string)
    requires Extends(g, f) && name !in g.columns
    ensures Extends(AddColumn(g, name, Some("")), f)
  {
    var h := AddColumn(g, name, Some(""));
    var n := |f.columns|;
    assert h.columns[..n] == g.columns[..n];
    forall i | 0 <= i < |f.rows| ensures h.rows[i][..n] == f.rows[i] {
      assert h.rows[i][..n] == g.rows[i][..n];
    }
  }

  /** Appending columns that `f` lacks changes nothing under the first occurrences. */
  lemma ExtendsCoerce(f: Frame, g: Frame, expected: seq<string>)
    requires Extends(g, f)
    ensures Coerce(g, expected) == Coerce(f, expected)
  {
    var c, d := Coerce(f, expected), Coerce(g, expected);
    forall i | 0 <= i < |f.rows| ensures d.rows[i] == c.rows[i] {
      forall j | 0 <= j < |expected| ensures d.rows[i][j] == c.rows[i][j] {
        ExtendsCell(f, g, expected[j], i);
      }
    }
    assert d.rows == c.rows;
  }

  /** Under any name, row `i` of the extended frame holds what row `i` of `f` holds. */
  lemma ExtendsCell(f: Frame, g: Frame, e: string, i: int)
    requires Extends(g, f) && 0 <= i < |f.rows|
    ensures (if e in g.columns then g.rows[i][FirstIndex(g.columns, e)] else Some("")) ==
      (if e in f.columns then f.rows[i][FirstIndex(f.columns, e)] else Some(""))
  {
    var n := |f.columns|;
    var extra := g.columns[n..];
    assert g.columns == f.columns + extra;
    if e in g.columns {
      FirstIndexAppend(f.columns, extra, e);
      if e in f.columns {
        var k := FirstIndex(f.columns, e);
        assert g.rows[i][k] == g.rows[i][..n][k];
      }
    }
  }

  /** The coercion of the primary strategy (`for col in EXPECTED_COLUMNS: if col not in
      df.columns: df[col] = ""`, then the corrected `df[EXPECTED_COLUMNS]`), step by step
      on the frame. */
  method CoerceColumns(f: Frame, expected: seq<string>) returns (g: Frame)
    ensures g == Coerce(f, expected)
  {
    var df := f;
    ExtendsSelf(f);
    for k := 0 to |expected|
      invariant Extends(df, f)
      invariant forall j | 0 <= j < k :: expected[j] in df.columns
    {
      var col := expected[k];
      if col !in df.columns {
        ExtendsAdd(f, df, col);
        df := AddColumn(df, col, Some(""));
      }
    }
    g := Select(df, expected);
    SelectIsCoerce(df, expected);
    ExtendsCoerce(f, df, expected);
  }

  // ---------------------------------------------------------------------------
  // The table strategy
  // ---------------------------------------------------------------------------

  /** How the table strategy ends: a frame, nothing found, or an exception that
      abandons it. */
  datatype Scan = Found(frame: Frame) | NotFound | Aborted

  /** One table. Tables of fewer than two rows are skipped; a header that matches turns
      the cleaned data rows into a frame under the cleaned header and coerces it; a
      header match that raises or data too wide or too narrow for the header aborts.
      The frame is coerced with the corrected selection, `Coerce`. */
  function ScanTable(expected: seq<string>, tbl: RawTable): (s: Scan)
    ensures s.Found? ==> s.frame.columns == expected && |s.frame.rows| == |tbl| - 1
  {
    if |tbl| < 2 then NotFound
    else
      var header := CleanRow(tbl[0]);
      match HeaderMatches(expected, header)
      case Raised => Aborted
      case Returned(hit) =>
        if !hit then NotFound
        else
          match FromRows(header, CleanRows(tbl[1..]))
          case Raised => Aborted
          case Returned(f) => Found(Coerce(f, expected))
  }

  /** The tables of one page in order: the first that does not come back empty-handed
      decides. */
  function ScanTables(expected: seq<string>, tables: seq<RawTable>): (s: Scan)
    ensures s.Found? ==> s.frame.columns == expected
  {
    if tables == [] then NotFound
    else
      var s := ScanTable(expected, tables[0]);
      if s.NotFound? then ScanTables(expected, tables[1..]) else s
  }

  /** The pages in order; a page the engine fails on aborts the strategy. */
  function ScanPages(expected: seq<string>, pages: seq<Page<seq<RawTable>>>): (s: Scan)
    ensures s.Found? ==> s.frame.columns == expected
  {
    if pages == [] then NotFound
    else match pages[0]
      case PageFailed => Aborted
      case PageOk(tables) =>
        var s := ScanTables(expected, tables);
        if s.NotFound? then ScanPages(expected, pages[1..]) else s
  }

  function TableStrategy(expected: seq<string>, ex: Extraction<seq<RawTable>>): (s: Scan)
    ensures s.Found? ==> s.frame.columns == expected
  {
    match ex
    case OpenFailed => Aborted
    case Opened(pages) => ScanPages(expected, pages)
  }

  /** The first try block of `parse`: the nested loops over pages and tables with their
      early returns. `rows` collects the data rows of non-matching tables and, as in the
      code, is never read. */
  method RunTableStrategy(expected: seq<string>, ex: Extraction<seq<RawTable>>) returns (s: Scan)
    ensures s == TableStrategy(expected, ex)
  {
    if ex.OpenFailed? {
      return Aborted;
    }
    var pages := ex.pages;
    var rows: seq<seq<string>> := [];
    var p := 0;
    while p < |pages|
      invariant 0 <= p <= |pages|
      invariant ScanPages(expected, pages) == ScanPages(expected, pages[p..])
    {
      assert pages[p..][1..] == pages[p + 1..];
      if pages[p].PageFailed? {
        return Aborted;
      }
      var tables := pages[p].content;
      var k := 0;
      while k < |tables|
        invariant 0 <= k <= |tables|
        invariant ScanTables(expected, tables) == ScanTables(expected, tables[k..])
      {
        assert tables[k..][1..] == tables[k + 1..];
        var tbl := tables[k];
        if |tbl| >= 2 {
          var header := CleanRow(tbl[0]);
          var data := CleanRows(tbl[1..]);
          var hit := HeaderMatches(expected, header);
          if hit.Raised? {
            return Aborted;
          }
          if hit.value {
            var built := FromRows(header, data);
            if built.Raised? {
              return Aborted;
            }
            var df := CoerceColumns(built.value, expected);
            return Found(df);
          }
          rows := rows + data;
        }
        k := k + 1;
      }
      p := p + 1;
    }
    return NotFound;
  }

  // ---------------------------------------------------------------------------
  // The text fallback
  // ---------------------------------------------------------------------------

  /** No page failed. */
  predicate AllRead<T>(pages: seq<Page<T>>) {
    forall i | 0 <= i < |pages| :: pages[i].PageOk?
  }

  function PageTexts(pages: seq<Page<Option<string>>>): (ts: seq<string>)
    requires AllRead(pages)
    ensures |ts| == |pages|
  {
    seq(|pages|, i requires 0 <= i < |pages| => OrEmpty(pages[i].content))
  }

  /** `[date.strip(), desc.strip(), amt.strip()]`. */
  function CaptureRow(c: Capture): seq<string> {
    [Strip(c.date), Strip(c.desc), Strip(c.amount)]
  }

  function CaptureRows(ms: seq<Capture>): (rows: seq<seq<string>>)
    ensures |rows| == |ms|
  {
    MapSnoc(CaptureRow, ms)
  }

  /** `[f(x) for x in xs]`, built by appending one element at a time as the loops do. */
  function MapSnoc<A, B>(f: A -> B, xs: seq<A>): (ys: seq<B>)
    ensures |ys| == |xs|
  {
    if xs == [] then [] else MapSnoc(f, xs[..|xs| - 1]) + [f(xs[|xs| - 1])]
  }

  /** Element `i` of the mapped sequence is `f` of element `i`. */
  lemma {:induction false} MapSnocIndex<A, B>(f: A -> B, xs: seq<A>)
    ensures forall i | 0 <= i < |xs| :: MapSnoc(f, xs)[i] == f(xs[i])
  {
    if xs != [] {
      var init := xs[..|xs| - 1];
      MapSnocIndex(f, init);
      assert forall i | 0 <= i < |init| :: init[i] == xs[i];
    }
  }

  /** Row `i` is built from match `i`. */
  lemma CaptureRowsIndex(ms: seq<Capture>)
    ensures forall i | 0 <= i < |ms| :: CaptureRows(ms)[i] == CaptureRow(ms[i])
  {
    MapSnocIndex(CaptureRow, ms);
  }

  /** The second try block: the page texts joined by newlines, every match of the
      pattern as a stripped row, and a frame under the expected columns when there is
      at least one row. A failed page or a width error gives nothing. */
  function TextStrategy(expected: seq<string>, ex: Extraction<Option<string>>, findall: string -> seq<Capture>): (r: Option<Frame>)
    ensures r.Some? ==> r.value.columns == expected && r.value.rows != []
  {
    match ex
    case OpenFailed => None
    case Opened(pages) =>
      if !AllRead(pages) then None
      else
        var rows := CaptureRows(findall(JoinWith(PageTexts(pages), "\n")));
        if rows == [] then None
        else
          match FromRows(expected, rows)
          case Raised => None
          case Returned(f) => Some(Coerce(f, expected))
  }

  /** The page loop of the fallback: every page's text, or nothing when the engine
      fails on one. */
  method ReadPageTexts(pages: seq<Page<Option<string>>>) returns (r: Option<seq<string>>)
    ensures r == if AllRead(pages) then Some(PageTexts(pages)) else None
  {
    var texts: seq<string> := [];
    for p := 0 to |pages|
      invariant forall i | 0 <= i < p :: pages[i].PageOk?
      invariant |texts| == p && forall i | 0 <= i < p :: texts[i] == OrEmpty(pages[i].content)
    {
      if pages[p].PageFailed? {
        return None;
      }
      texts := texts + [OrEmpty(pages[p].content)];
    }
    assert texts == PageTexts(pages);
    return Some(texts);
  }

  /** The match loop of the fallback: one stripped row per match, in order. */
  method CaptureAll(ms: seq<Capture>) returns (rows: seq<seq<string>>)
    ensures rows == CaptureRows(ms)
  {
    rows := [];
    for m := 0 to |ms|
      invariant rows == CaptureRows(ms[..m])
    {
      assert ms[..m + 1][..m] == ms[..m];
      rows := rows + [CaptureRow(ms[m])];
    }
    assert ms[..|ms|] == ms;
  }

  method RunTextStrategy(expected: seq<string>, ex: Extraction<Option<string>>, findall: string -> seq<Capture>)
    returns (r: Option<Frame>)
    ensures r == TextStrategy(expected, ex, findall)
  {
    if ex.OpenFailed? {
      return None;
    }
    var texts := ReadPageTexts(ex.pages);
    if texts.None? {
      return None;
    }
    var combined := JoinWith(texts.value, "\n");
    var ms := findall(combined);
    var rows := CaptureAll(ms);
    if rows == [] {
      return None;
    }
    var built := FromRows(expected, rows);
    if built.Raised? {
      return None;
    }
    SelectIsCoerce(built.value, expected);
    return Some(Select(built.value, expected));
  }

  // ---------------------------------------------------------------------------
  // parse
  // ---------------------------------------------------------------------------

  /** `parse`, with the corrected selection: the table strategy's frame, else the
      fallback's, else an empty frame. It never raises and always has exactly the
      expected columns. */
  function Parsed(expected: seq<string>, doc: Document, findall: string -> seq<Capture>): (r: Frame)
    ensures r.columns == expected
  {
    match TableStrategy(expected, doc.tables)
    case Found(f) => f
    case _ =>
      match TextStrategy(expected, doc.text, findall)
      case Some(f) => f
      case None => EmptyFrame(expected)
  }

  method Parse(expected: seq<string>, doc: Document, findall: string -> seq<Capture>) returns (r: Frame)
    ensures r == Parsed(expected, doc, findall)
  {
    var primary := RunTableStrategy(expected, doc.tables);
    if primary.Found? {
      return primary.frame;
    }
    var fallback := RunTextStrategy(expected, doc.text, findall);
    if fallback.Some? {
      return fallback.value;
    }
    return EmptyFrame(expected);
  }

  // ---------------------------------------------------------------------------
  // Properties of the table strategy
  // ---------------------------------------------------------------------------

  /** Scanning a list of tables is scanning its first part, then its second part if the
      first found nothing. */
  lemma {:induction false} ScanTablesAppend(expected: seq<string>, a: seq<RawTable>, b: seq<RawTable>)
    ensures ScanTables(expected, a + b) ==
      if ScanTables(expected, a).NotFound? then ScanTables(expected, b) else ScanTables(expected, a)
  {
    if a == [] {
      assert a + b == b;
    } else {
      assert (a + b)[0] == a[0];
      assert (a + b)[1..] == a[1..] + b;
      ScanTablesAppend(expected, a[1..], b);
    }
  }

  lemma {:induction false} ScanPagesAppend(expected: seq<string>, a: seq<Page<seq<RawTable>>>, b: seq<Page<seq<RawTable>>>)
    ensures ScanPages(expected, a + b) ==
      if ScanPages(expected, a).NotFound? then ScanPages(expected, b) else ScanPages(expected, a)
  {
    if a == [] {
      assert a + b == b;
    } else {
      assert (a + b)[0] == a[0];
      assert (a + b)[1..] == a[1..] + b;
      ScanPagesAppend(expected, a[1..], b);
    }
  }

  /** An empty table or a table of one row can be removed without changing the outcome. */
  lemma ShortTableIgnored(expected: seq<string>, a: seq<RawTable>, tbl: RawTable, b: seq<RawTable>)
    requires |tbl| < 2
    ensures ScanTables(expected, a + [tbl] + b) == ScanTables(expected, a + b)
  {
    ScanTablesAppend(expected, a + [tbl], b);
    ScanTablesAppend(expected, a, [tbl]);
    ScanTablesAppend(expected, a, b);
    assert ScanTables(expected, [tbl]) == NotFound by {
      assert [tbl][1..] == [];
    }
  }

  /** Tables before the first one that decides are irrelevant, and so is everything after
      it: a found frame is returned at once, an abort abandons the rest. */
  lemma FirstDecidingTable(expected: seq<string>, a: seq<RawTable>, tbl: RawTable, b: seq<RawTable>)
    requires forall k | 0 <= k < |a| :: ScanTable(expected, a[k]).NotFound?
    requires !ScanTable(expected, tbl).NotFound?
    ensures ScanTables(expected, a + [tbl] + b) == ScanTable(expected, tbl)
  {
    ScanTablesAppend(expected, a, [tbl] + b);
    assert a + [tbl] + b == a + ([tbl] + b);
    NothingFoundIn(expected, a);
  }

  lemma {:induction false} NothingFoundIn(expected: seq<string>, a: seq<RawTable>)
    requires forall k | 0 <= k < |a| :: ScanTable(expected, a[k]).NotFound?
    ensures ScanTables(expected, a) == NotFound
  {
    if a != [] {
      assert forall k | 0 <= k < |a[1..]| :: a[1..][k] == a[k + 1];
      NothingFoundIn(expected, a[1..]);
    }
  }

  /** Pages that were read and had no deciding table are irrelevant. */
  predicate Passed(expected: seq<string>, pages: seq<Page<seq<RawTable>>>) {
    forall k | 0 <= k < |pages| :: pages[k].PageOk? && ScanTables(expected, pages[k].content).NotFound?
  }

  lemma {:induction false} NothingFoundOn(expected: seq<string>, pages: seq<Page<seq<RawTable>>>)
    requires Passed(expected, pages)
    ensures ScanPages(expected, pages) == NotFound
  {
    if pages != [] {
      assert forall k | 0 <= k < |pages[1..]| :: pages[1..][k] == pages[k + 1];
      NothingFoundOn(expected, pages[1..]);
    }
  }

  /** The first page with a deciding table decides the strategy; the pages after it are
      never looked at. */
  lemma FirstDecidingPage(expected: seq<string>, pre: seq<Page<seq<RawTable>>>, tables: seq<RawTable>, post: seq<Page<seq<RawTable>>>)
    requires Passed(expected, pre)
    requires !ScanTables(expected, tables).NotFound?
    ensures TableStrategy(expected, Opened(pre + [PageOk(tables)] + post)) == ScanTables(expected, tables)
  {
    assert pre + [PageOk(tables)] + post == pre + ([PageOk(tables)] + post);
    ScanPagesAppend(expected, pre, [PageOk(tables)] + post);
    NothingFoundOn(expected, pre);
  }

  /** An engine error on a page reached by the scan abandons the table strategy, even
      when a later page holds a matching table. */
  lemma PageErrorAbandons(expected: seq<string>, pre: seq<Page<seq<RawTable>>>, post: seq<Page<seq<RawTable>>>)
    requires Passed(expected, pre)
    ensures TableStrategy(expected, Opened(pre + [PageFailed] + post)) == Aborted
  {
    assert pre + [PageFailed] + post == pre + ([PageFailed] + post);
    ScanPagesAppend(expected, pre, [PageFailed] + post);
    NothingFoundOn(expected, pre);
  }

  /** The header test of a table: case-insensitive and by substring, over the first token
      of every expected name. */
  lemma HeaderMatchOfTable(expected: seq<string>, tbl: RawTable)
    requires |tbl| >= 2
    requires forall k | 0 <= k < |expected| :: Tokens(expected[k]) != []
    ensures var text := HeaderText(CleanRow(tbl[0]));
      ScanTable(expected, tbl).NotFound? <==> !exists k | 0 <= k < |expected| :: TokenHit(expected[k], text)
  {
    AnyTokenInIff(expected, HeaderText(CleanRow(tbl[0])));
  }

  /** The widths pandas accepts: no data row wider than the header and at least one as
      wide. */
  predicate WidthsFit(tbl: RawTable)
    requires |tbl| >= 1
  {
    var data := tbl[1..];
    (forall i | 0 <= i < |data| :: |data[i]| <= |tbl[0]|) && exists i | 0 <= i < |data| :: |data[i]| == |tbl[0]|
  }

  /** Cleaning the cells keeps every row's width, so the widest row too. */
  lemma {:induction false} MaxWidthOfCleanRows(rows: seq<seq<Cell>>)
    ensures MaxWidth(CleanRows(rows)) == MaxWidth(rows)
  {
    if rows != [] {
      MaxWidthOfCleanRows(rows[1..]);
      assert CleanRows(rows)[1..] == CleanRows(rows[1..]);
    }
  }

  lemma MaxWidthIs<T>(rows: seq<seq<T>>, w: nat)
    requires rows != []
    ensures MaxWidth(rows) == w <==> (forall i | 0 <= i < |rows| :: |rows[i]| <= w) && exists i | 0 <= i < |rows| :: |rows[i]| == w
  {
    var m := MaxWidth(rows);
    if (forall i | 0 <= i < |rows| :: |rows[i]| <= w) && exists i | 0 <= i < |rows| :: |rows[i]| == w {
      var i :| 0 <= i < |rows| && |rows[i]| == w;
      var k :| 0 <= k < |rows| && |rows[k]| == m;
      assert m >= w && m <= w;
    }
  }

  /** When the header matches, the table gives a frame exactly when its widths fit and
      aborts otherwise. */
  lemma WidthsFitMax(tbl: RawTable)
    requires |tbl| >= 2
    ensures WidthsFit(tbl) <==> MaxWidth(CleanRows(tbl[1..])) == |tbl[0]|
  {
    MaxWidthOfCleanRows(tbl[1..]);
    MaxWidthIs(tbl[1..], |tbl[0]|);
  }

  lemma MatchedTableOutcome(expected: seq<string>, tbl: RawTable)
    requires |tbl| >= 2 && HeaderMatches(expected, CleanRow(tbl[0])) == Returned(true)
    ensures ScanTable(expected, tbl).Found? <==> WidthsFit(tbl)
    ensures ScanTable(expected, tbl).Found? || ScanTable(expected, tbl).Aborted?
  {
    WidthsFitMax(tbl);
    var header := CleanRow(tbl[0]);
    var data := CleanRows(tbl[1..]);
    assert ScanTable(expected, tbl).Found? <==> FromRows(header, data).Returned?;
  }

  /** The frame a matching table yields: one row per data row, and under each expected
      name the cleaned cell of the first header column with exactly that name (missing
      where the data row is short), or "" when no header column has that name. The
      cleaned data rows are the raw rows through `CleanCell`, cell by cell
      (`CleanedData`). */
  lemma FoundFrameContents(expected: seq<string>, tbl: RawTable)
    requires ScanTable(expected, tbl).Found?
    ensures |tbl| >= 2
    ensures var f := ScanTable(expected, tbl).frame;
      var header, data := CleanRow(tbl[0]), CleanRows(tbl[1..]);
      f.columns == expected && |f.rows| == |data| == |tbl| - 1 &&
      forall i, j | 0 <= i < |f.rows| && 0 <= j < |expected| ::
        f.rows[i][j] ==
          if expected[j] in header then
            var k := FirstIndex(header, expected[j]);
            if k < |data[i]| then Some(data[i][k]) else None
          else Some("")
  {
    ScanTableFound(expected, tbl);
    var header, data := CleanRow(tbl[0]), CleanRows(tbl[1..]);
    CoercedRows(FromRows(header, data).value, expected, header, data);
  }

  /** A table that yields a frame yields the coerced frame of its cleaned rows. */
  lemma ScanTableFound(expected: seq<string>, tbl: RawTable)
    requires ScanTable(expected, tbl).Found?
    ensures |tbl| >= 2
    ensures var o := FromRows(CleanRow(tbl[0]), CleanRows(tbl[1..]));
      o.Returned? && ScanTable(expected, tbl).frame == Coerce(o.value, expected)
  {
  }

  /** The frame built from rows under a header and then coerced, cell by cell. */
  lemma CoercedRows(f: Frame, expected: seq<string>, header: seq<string>, data: seq<seq<string>>)
    requires FromRows(header, data) == Returned(f)
    ensures var g := Coerce(f, expected);
      g.columns == expected && |g.rows| == |data| &&
      forall i, j | 0 <= i < |data| && 0 <= j < |expected| ::
        g.rows[i][j] ==
          if expected[j] in header then
            var k := FirstIndex(header, expected[j]);
            if k < |data[i]| then Some(data[i][k]) else None
          else Some("")
  {
  }

  /** The cleaned data rows, cell by cell. */
  lemma CleanedData(tbl: RawTable)
    requires |tbl| >= 1
    ensures var data := CleanRows(tbl[1..]);
      |data| == |tbl| - 1 &&
      forall i | 0 <= i < |data| :: |data[i]| == |tbl[i + 1]| &&
        forall k | 0 <= k < |data[i]| :: data[i][k] == CleanCell(tbl[i + 1][k])
  {
    assert forall i | 0 <= i < |tbl| - 1 :: tbl[1..][i] == tbl[i + 1];
  }

  lemma {:induction false} RemoveSymbolsNone(s: string)
    requires forall c | c in s :: c !in Removed
    ensures RemoveSymbols(s) == s
  {
    if s != [] {
      assert s[0] in s;
      assert forall c | c in s[1..] :: c in s;
      RemoveSymbolsNone(s[1..]);
    }
  }

  /** A cell without whitespace and without the deleted symbols is kept as it is. */
  lemma CleanCellOfWord(h: string)
    requires h != [] && NoSpace(h) && forall c | c in h :: c !in Removed
    ensures CleanCell(Some(h)) == h
  {
    var r := Strip(h);
    assert LeadingSpaces(h) == 0;
    assert r == h;
    RemoveSymbolsNone(h);
    CollapseWordPrefix(h, []);
    assert h + [] == h;
  }

  lemma LowerNoSpace(s: string)
    requires NoSpace(s)
    ensures NoSpace(Lower(s))
  {
    forall i | 0 <= i < |s| ensures !IsSpace(Lower(s)[i]) {
      assert !IsSpace(s[i]);
    }
  }

  /** The single word of a nonempty string without whitespace. */
  lemma WordsOfWord(w: string)
    requires w != [] && NoSpace(w)
    ensures Words(w) == [w]
  {
    WordsCons(w);
    WordLengthFull(w);
    assert w[..|w|] == w;
    assert Words(w[|w|..]) == [];
  }

  /** A one-cell header that equals the name up to case passes the header test. */
  lemma CaseOnlyHeaderMatches(e: string, h: string)
    requires e != [] && NoSpace(e) && Lower(h) == Lower(e)
    ensures HeaderMatches([e], [h]) == Returned(true)
  {
    var t := Lower(e);
    LowerNoSpace(e);
    WordsOfWord(t);
    assert HeaderText([h]) == t;
    assert IsPrefix(t, t[0..]);
  }

  /** The header test lowercases but the coercion compares names exactly: a header cell
      that differs from an expected name only in case makes the table match and yet
      leaves that name's column "". */
  lemma CaseOnlyHeaderGivesEmptyColumn(e: string, h: string, tbl: RawTable)
    requires e != [] && NoSpace(e) && NoSpace(h) && forall c | c in h :: c !in Removed
    requires h != e && Lower(h) == Lower(e)
    requires |tbl| >= 2 && tbl[0] == [Some(h)]
    requires forall i | 1 <= i < |tbl| :: |tbl[i]| == 1
    ensures ScanTable([e], tbl).Found?
    ensures forall i | 0 <= i < |tbl| - 1 :: ScanTable([e], tbl).frame.rows[i] == [Some("")]
  {
    CleanCellOfWord(h);
    assert CleanRow(tbl[0]) == [h];
    CaseOnlyHeaderMatches(e, h);
    assert e !in [h];
    UnnamedColumnBlank(e, h, tbl);
  }

  /** A table whose one-cell header passes the test for `e` but is not `e` gives a
      frame whose one column is "". */
  lemma UnnamedColumnBlank(e: string, h: string, tbl: RawTable)
    requires e !in [h] && |tbl| >= 2 && CleanRow(tbl[0]) == [h]
    requires HeaderMatches([e], [h]) == Returned(true)
    requires forall i | 1 <= i < |tbl| :: |tbl[i]| == |tbl[0]|
    ensures ScanTable([e], tbl).Found?
    ensures forall i | 0 <= i < |tbl| - 1 :: ScanTable([e], tbl).frame.rows[i] == [Some("")]
  {
    UniformWidthsFit(tbl);
    MatchedTableOutcome([e], tbl);
    AbsentColumnBlank([e], tbl, 0);
    BlankColumn(ScanTable([e], tbl).frame);
  }

  /** Under an expected name no header column carries, every row of the frame holds "". */
  lemma AbsentColumnBlank(expected: seq<string>, tbl: RawTable, j: int)
    requires ScanTable(expected, tbl).Found? && 0 <= j < |expected| && expected[j] !in CleanRow(tbl[0])
    ensures var f := ScanTable(expected, tbl).frame;
      f.columns == expected && forall i | 0 <= i < |f.rows| :: f.rows[i][j] == Some("")
  {
    FoundFrameContents(expected, tbl);
  }

  /** Data rows all as wide as the header fit it. */
  lemma UniformWidthsFit(tbl: RawTable)
    requires |tbl| >= 2 && forall i | 1 <= i < |tbl| :: |tbl[i]| == |tbl[0]|
    ensures WidthsFit(tbl)
  {
    assert |tbl[1..][0]| == |tbl[0]|;
  }

  /** A one-column frame whose every cell is "". */
  lemma BlankColumn(g: Frame)
    requires |g.columns| == 1
    requires forall i | 0 <= i < |g.rows| :: g.rows[i][0] == Some("")
    ensures forall i | 0 <= i < |g.rows| :: g.rows[i] == [Some("")]
  {
    forall i | 0 <= i < |g.rows| ensures g.rows[i] == [Some("")] {
      assert g.rows[i] in g.rows;
    }
  }

  /** Concretely: a header "DATE" matches the name "Date" but yields an empty Date column. */
  lemma UpperCaseHeaderGivesEmptyColumn(tbl: RawTable)
    requires |tbl| >= 2 && tbl[0] == [Some("DATE")]
    requires forall i | 1 <= i < |tbl| :: |tbl[i]| == 1
    ensures ScanTable(["Date"], tbl).Found?
    ensures forall i | 0 <= i < |tbl| - 1 :: ScanTable(["Date"], tbl).frame.rows[i] == [Some("")]
  {
    var h, e := "DATE", "Date";
    assert Lower(h) == Lower(e) by {
      forall i | 0 <= i < 4 ensures LowerChar(h[i]) == LowerChar(e[i]) {
      }
    }
    CaseOnlyHeaderGivesEmptyColumn(e, h, tbl);
  }

  // ---------------------------------------------------------------------------
  // Properties of the fallback and of parse
  // ---------------------------------------------------------------------------

  /** With distinct names, coercing a frame to its own columns changes nothing. */
  lemma CoerceIdentity(f: Frame)
    requires Distinct(f.columns)
    ensures Coerce(f, f.columns) == f
  {
    var g := Coerce(f, f.columns);
    forall j | 0 <= j < |f.columns| ensures FirstIndex(f.columns, f.columns[j]) == j {
      var k := FirstIndex(f.columns, f.columns[j]);
      assert !(k < j) && !(j < k);
    }
    forall i | 0 <= i < |f.rows| ensures g.rows[i] == f.rows[i] {
      assert f.rows[i] in f.rows;
    }
  }

  lemma CaptureRowsWidth(ms: seq<Capture>)
    requires ms != []
    ensures MaxWidth(CaptureRows(ms)) == 3
  {
    var rows := CaptureRows(ms);
    CaptureRowsIndex(ms);
    MaxWidthIs(rows, 3);
    assert |rows[0]| == 3;
  }

  /** Every captured row has three values, so under the five ICICI names the fallback
      always meets pandas' width error and never yields a frame. */
  lemma IciciFallbackNeverFrames(ex: Extraction<Option<string>>, findall: string -> seq<Capture>)
    ensures TextStrategy(IciciColumns, ex, findall) == None
  {
    if ex.Opened? && AllRead(ex.pages) {
      var ms := findall(JoinWith(PageTexts(ex.pages), "\n"));
      if ms != [] {
        CaptureRowsWidth(ms);
      }
    }
  }

  /** Hence, for the ICICI names, when no table decides in favour of a frame the result
      is the empty table. */
  lemma IciciWithoutTableIsEmpty(doc: Document, findall: string -> seq<Capture>)
    requires !TableStrategy(IciciColumns, doc.tables).Found?
    ensures Parsed(IciciColumns, doc, findall) == EmptyFrame(IciciColumns)
  {
    IciciFallbackNeverFrames(doc.text, findall);
  }

  /** The fallback's outcome once every page was read and something matched. */
  lemma FallbackOfCaptures(expected: seq<string>, pages: seq<Page<Option<string>>>, findall: string -> seq<Capture>)
    requires AllRead(pages)
    requires findall(JoinWith(PageTexts(pages), "\n")) != []
    ensures var rows := CaptureRows(findall(JoinWith(PageTexts(pages), "\n")));
      TextStrategy(expected, Opened(pages), findall) ==
        match FromRows(expected, rows) case Raised => None case Returned(f) => Some(Coerce(f, expected))
  {
  }

  /** A row of strings as frame cells, none missing. */
  function Present(row: seq<string>): (r: seq<Cell>)
    ensures |r| == |row| && forall j | 0 <= j < |row| :: r[j] == Some(row[j])
  {
    seq(|row|, j requires 0 <= j < |row| => Some(row[j]))
  }

  /** The stripped captures as cells, one row per match. */
  function CaptureCells(ms: seq<Capture>): (cells: seq<seq<Cell>>)
    ensures |cells| == |ms|
  {
    seq(|ms|, i requires 0 <= i < |ms| => Present(CaptureRow(ms[i])))
  }

  /** Rows all as wide as the names give a frame holding exactly those strings. */
  lemma RowsFrame(columns: seq<string>, rows: seq<seq<string>>)
    requires rows != [] && forall i | 0 <= i < |rows| :: |rows[i]| == |columns|
    ensures var o := FromRows(columns, rows);
      o.Returned? && o.value.columns == columns &&
      o.value.rows == seq(|rows|, i requires 0 <= i < |rows| => Present(rows[i]))
  {
    MaxWidthIs(rows, |columns|);
    assert |rows[0]| == |columns|;
    var f := FromRows(columns, rows).value;
    forall i | 0 <= i < |rows| ensures f.rows[i] == Present(rows[i]) {
      assert f.rows[i] in f.rows;
    }
  }

  lemma CaptureRowsFrame(expected: seq<string>, ms: seq<Capture>)
    requires |expected| == 3 && ms != []
    ensures var o := FromRows(expected, CaptureRows(ms));
      o.Returned? && o.value.columns == expected && o.value.rows == CaptureCells(ms)
  {
    var rows := CaptureRows(ms);
    CaptureRowsIndex(ms);
    RowsFrame(expected, rows);
  }

  /** Under exactly three distinct names the fallback yields the captures, stripped, one
      row per match in order, as soon as there is a match. */
  lemma ThreeColumnFallback(expected: seq<string>, pages: seq<Page<Option<string>>>, findall: string -> seq<Capture>)
    requires |expected| == 3 && Distinct(expected) && AllRead(pages)
    requires findall(JoinWith(PageTexts(pages), "\n")) != []
    ensures var r := TextStrategy(expected, Opened(pages), findall);
      r.Some? && r.value.columns == expected && r.value.rows == CaptureCells(findall(JoinWith(PageTexts(pages), "\n")))
  {
    var ms := findall(JoinWith(PageTexts(pages), "\n"));
    FallbackOfCaptures(expected, pages, findall);
    CaptureRowsFrame(expected, ms);
    CoerceIdentity(FromRows(expected, CaptureRows(ms)).value);
  }
}
