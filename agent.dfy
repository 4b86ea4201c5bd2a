/** `langgraph_generate_parser` (agent.py:117-146): for one bank, find the sample PDF
    and CSV, write the oracle test once, then up to `MaxAttempts` times write the parser
    module from the template and run the test, stopping at the first run that passes. */
module Agent {
  import opened Text
  import opened Frames
  import opened Oracle
  import opened Template

  /** `MAX_ATTEMPTS`. */
  const MaxAttempts: nat := 3

  /** What a file under the project root holds. A file the loop generates is recorded
      by the arguments it was generated from; `Render` gives its text. */
  datatype Content =
    | ParserFile(attempt: int, columns: seq<string>)  // PARSER_TEMPLATE filled on that attempt
    | TestFile(target: string, pdf: string, csv: string)  // what `write_test_file` writes
    | Plain(text: string)                             // any file the loop did not write

  /** The text of a file. */
  function Render(c: Content): string {
    match c
    case ParserFile(attempt, columns) => ParserCode(attempt, columns)
    case TestFile(target, pdf, csv) => TestSource(target, pdf, csv)
    case Plain(text) => text
  }

  /** What the loop does outside the process, in order: the files it writes and the
      test runs it starts. Paths are relative to the project root. */
  datatype Event =
    | WroteTest(path: string, content: Content)
    | WroteParser(path: string, content: Content)
    | RanTests(test: string)

  /** How a call ends: it returns after attempt `attempt` passed, or raises. */
  datatype Exit =
    | Generated(attempt: nat)     // returned normally
    | NoSamples(message: string)  // FileNotFoundError
    | CsvUnreadable               // the exception `pd.read_csv` raised
    | GaveUp(message: string)     // RuntimeError

  datatype Report = Report(exit: Exit, events: seq<Event>)

  // ---------------------------------------------------------------------------
  // Finding the samples
  // ---------------------------------------------------------------------------

  predicate EndsWith(s: string, suffix: string) {
    |suffix| <= |s| && s[|s| - |suffix|..] == suffix
  }

  /** `DATA_DIR / target`. */
  function DataFolder(target: string): string {
    "data/" + target
  }

  /** The names in a folder, in the order the operating system lists them; a folder
      that does not exist lists nothing. */
  function Entries(listing: map<string, seq<string>>, folder: string): seq<string> {
    if folder in listing then listing[folder] else []
  }

  /** `folder.glob("*" + suffix)`: the entries whose name ends in `suffix`, in listing
      order (`GlobFinds`, `FirstFound`). */
  function Glob(entries: seq<string>, suffix: string): seq<string> {
    if entries == [] then []
    else if EndsWith(entries[0], suffix) then [entries[0]] + Glob(entries[1..], suffix)
    else Glob(entries[1..], suffix)
  }

  /** The glob yields exactly the entries with the suffix. */
  lemma {:induction false} GlobFinds(entries: seq<string>, suffix: string)
    ensures forall x :: x in Glob(entries, suffix) <==> x in entries && EndsWith(x, suffix)
  {
    if entries != [] {
      GlobFinds(entries[1..], suffix);
      assert forall x :: x in entries <==> x == entries[0] || x in entries[1..];
    }
  }

  /** The sample pair the loop works from: the first PDF and the first CSV. */
  datatype Samples = Samples(pdf: string, csv: string)

  /** Both globs of the (lower-cased) bank's folder, joined to the folder; `None` when
      either finds nothing. */
  function FindSamples(target: string, listing: map<string, seq<string>>): Option<Samples> {
    var folder := DataFolder(target);
    var pdfs := Glob(Entries(listing, folder), ".pdf");
    var csvs := Glob(Entries(listing, folder), ".csv");
    if pdfs == [] || csvs == [] then None
    else Some(Samples(folder + "/" + pdfs[0], folder + "/" + csvs[0]))
  }

  function NotFoundMessage(target: string, folder: string): string {
    "No PDF/CSV found for " + target + " in " + folder
  }

  function GaveUpMessage(target: string): string {
    "[LangGraph] Parser generation failed for '" + target + "' after " + Decimal(MaxAttempts) + " attempts"
  }

  // ---------------------------------------------------------------------------
  // The loop, as a function of its environment
  // ---------------------------------------------------------------------------

  /** One attempt's effects: the parser file is overwritten, then the test runs. */
  function Round(target: string, columns: seq<string>, attempt: int): seq<Event> {
    [WroteParser(ParserPath(target), ParserFile(attempt, columns)), RanTests(TestPath(target))]
  }

  /** Attempts `k` to `MaxAttempts`, given the exit status pytest returns on each. */
  function Attempts(k: nat, target: string, columns: seq<string>, exitCode: nat -> int): Report
    requires 1 <= k <= MaxAttempts + 1
    decreases MaxAttempts + 1 - k
  {
    if k > MaxAttempts then Report(GaveUp(GaveUpMessage(target)), [])
    else if exitCode(k) == 0 then Report(Generated(k), Round(target, columns, k))
    else
      var rest := Attempts(k + 1, target, columns, exitCode);
      Report(rest.exit, Round(target, columns, k) + rest.events)
  }

  /** One call of `langgraph_generate_parser`. The environment is a parameter: the
      folder listings, the header `pd.read_csv` reports for a path (`None` when it
      raises), and the exit status of the test run of each attempt. */
  function Synthesize(target: string, listing: map<string, seq<string>>,
                      readHeader: string -> Option<seq<string>>, exitCode: nat -> int): Report
  {
    SynthesizeFor(Lower(target), listing, readHeader, exitCode)
  }

  /** The call once the bank name `t` has been lower-cased. */
  function SynthesizeFor(t: string, listing: map<string, seq<string>>,
                         readHeader: string -> Option<seq<string>>, exitCode: nat -> int): Report
  {
    match FindSamples(t, listing)
    case None => Report(NoSamples(NotFoundMessage(t, DataFolder(t))), [])
    case Some(Samples(pdf, csv)) =>
      match readHeader(csv)
      case None => Report(CsvUnreadable, [])
      case Some(columns) =>
        var rest := Attempts(1, t, columns, exitCode);
        Report(rest.exit, [WroteTest(TestPath(t), TestFile(t, pdf, csv))] + rest.events)
  }

  // ---------------------------------------------------------------------------
  // The files on disk
  // ---------------------------------------------------------------------------

  function Write(files: map<string, Content>, e: Event): map<string, Content> {
    match e
    case WroteTest(path, content) => files[path := content]
    case WroteParser(path, content) => files[path := content]
    case RanTests(_) => files
  }

  /** The files after a sequence of events, applied in order. */
  function Apply(files: map<string, Content>, events: seq<Event>): map<string, Content>
    decreases |events|
  {
    if events == [] then files else Apply(Write(files, events[0]), events[1..])
  }

  lemma {:induction false} ApplyAppend(files: map<string, Content>, a: seq<Event>, b: seq<Event>)
    ensures Apply(files, a + b) == Apply(Apply(files, a), b)
    decreases |a|
  {
    if a == [] {
      assert a + b == b;
    } else {
      assert (a + b)[0] == a[0] && (a + b)[1..] == a[1..] + b;
      ApplyAppend(Write(files, a[0]), a[1..], b);
    }
  }

  lemma ApplyCons(files: map<string, Content>, e: Event, events: seq<Event>)
    ensures Apply(files, [e] + events) == Apply(Write(files, e), events)
  {
    assert ([e] + events)[1..] == events;
  }

  lemma Regroup(log: seq<Event>, e: Event, events: seq<Event>)
    ensures log + [e] + events == log + ([e] + events)
  {
  }

  lemma Associate(log: seq<Event>, a: seq<Event>, b: seq<Event>)
    ensures log + a + b == log + (a + b)
  {
  }

  lemma ApplyOne(files: map<string, Content>, e: Event)
    ensures Apply(files, [e]) == Write(files, e)
  {
    assert [e][1..] == [];
  }

  lemma ApplyRound(files: map<string, Content>, target: string, columns: seq<string>, attempt: int)
    ensures Apply(files, Round(target, columns, attempt)) == files[ParserPath(target) := ParserFile(attempt, columns)]
  {
    var run := Round(target, columns, attempt);
    var after := files[ParserPath(target) := ParserFile(attempt, columns)];
    assert run[1..] == [RanTests(TestPath(target))];
    ApplyOne(after, RanTests(TestPath(target)));
  }

  /** One attempt, then the rest unless its tests pass. */
  lemma AttemptsStep(k: nat, target: string, columns: seq<string>, exitCode: nat -> int)
    requires 1 <= k <= MaxAttempts
    ensures var r := Attempts(k, target, columns, exitCode);
      if exitCode(k) == 0 then r == Report(Generated(k), Round(target, columns, k) + [])
      else
        var rest := Attempts(k + 1, target, columns, exitCode);
        r == Report(rest.exit, Round(target, columns, k) + rest.events)
  {
    assert Round(target, columns, k) + [] == Round(target, columns, k);
  }

  /** Workspace state the loop changes: the files under the project root, and the
      record of what it wrote and ran. */
  class Workspace {
    var files: map<string, Content>
    ghost var log: seq<Event>

    constructor (files: map<string, Content>)
      ensures this.files == files && log == []
    {
      this.files := files;
      log := [];
    }

    /** `write_test_file(target, pdf_path, csv_path)`: writes the oracle test and
        returns its path. */
    method WriteTestFile(target: string, pdf: string, csv: string) returns (path: string)
      modifies this
      ensures path == TestPath(target)
      ensures files == old(files)[path := TestFile(target, pdf, csv)]
      ensures log == old(log) + [WroteTest(path, TestFile(target, pdf, csv))]
    {
      path := TestPath(target);
      files := files[path := TestFile(target, pdf, csv)];
      log := log + [WroteTest(path, TestFile(target, pdf, csv))];
    }

    /** `parser_path.write_text(parser_code)`: overwrites one file. */
    method WriteParser(path: string, content: Content)
      modifies this
      ensures files == old(files)[path := content]
      ensures log == old(log) + [WroteParser(path, content)]
    {
      files := files[path := content];
      log := log + [WroteParser(path, content)];
    }

    /** The pytest run of the test file; its exit status is supplied, since the run is
        outside the model. */
    method RunTests(test: string, status: int) returns (code: int)
      modifies this`log
      ensures code == status && log == old(log) + [RanTests(test)]
    {
      log := log + [RanTests(test)];
      code := status;
    }

    /** One attempt: the parser file is overwritten with the template filled for
        `attempt`, then the test runs and its exit status is returned. */
    method Attempt(t: string, columns: seq<string>, testPath: string, attempt: int, status: int)
      returns (code: int)
      requires testPath == TestPath(t)
      modifies this
      ensures code == status
      ensures files == old(files)[ParserPath(t) := ParserFile(attempt, columns)]
      ensures log == old(log) + Round(t, columns, attempt)
    {
      WriteParser(ParserPath(t), ParserFile(attempt, columns));
      code := RunTests(testPath, status);
    }

    /** The `for attempt` loop (agent.py:129-146) for the lower-cased bank `t`, the CSV
        header `columns` and the test file already written. */
    method RunAttempts(t: string, columns: seq<string>, testPath: string, exitCode: nat -> int)
      returns (exit: Exit)
      requires testPath == TestPath(t)
      modifies this
      ensures var r := Attempts(1, t, columns, exitCode);
        exit == r.exit && log == old(log) + r.events && files == Apply(old(files), r.events)
    {
      for attempt := 1 to MaxAttempts + 1
        invariant forall i | 1 <= i < attempt :: exitCode(i) != 0
        invariant log == old(log) + Rounds(t, columns, 1, attempt - 1)
        invariant files == Apply(old(files), Rounds(t, columns, 1, attempt - 1))
      {
        NextRound(old(files), t, columns, attempt);
        Associate(old(log), Rounds(t, columns, 1, attempt - 1), Round(t, columns, attempt));
        var code := Attempt(t, columns, testPath, attempt, exitCode(attempt));
        if code == 0 {
          PassesAt(attempt, t, columns, exitCode);
          return Generated(attempt);
        }
      }
      FailsThroughout(t, columns, exitCode);
      return GaveUp(GaveUpMessage(t));
    }

    /** `langgraph_generate_parser(target)`. */
    method GenerateParser(target: string, listing: map<string, seq<string>>,
                          readHeader: string -> Option<seq<string>>, exitCode: nat -> int)
      returns (exit: Exit)
      modifies this
      ensures var r := Synthesize(target, listing, readHeader, exitCode);
        exit == r.exit && log == old(log) + r.events && files == Apply(old(files), r.events)
    {
      exit := GenerateFor(Lower(target), listing, readHeader, exitCode);
    }

    /** The body of `langgraph_generate_parser` after `target = target.lower()`. */
    method GenerateFor(t: string, listing: map<string, seq<string>>,
                       readHeader: string -> Option<seq<string>>, exitCode: nat -> int)
      returns (exit: Exit)
      modifies this
      ensures var r := SynthesizeFor(t, listing, readHeader, exitCode);
        exit == r.exit && log == old(log) + r.events && files == Apply(old(files), r.events)
    {
      var samples := FindSamples(t, listing);
      if samples.None? {
        return NoSamples(NotFoundMessage(t, DataFolder(t)));
      }
      var pdf, csv := samples.value.pdf, samples.value.csv;
      var header := readHeader(csv);
      if header.None? {
        return CsvUnreadable;
      }
      exit := WriteTestAndAttempt(t, pdf, csv, header.value, exitCode);
    }

    /** `write_test_file`, then the attempts against that test. */
    method WriteTestAndAttempt(t: string, pdf: string, csv: string, columns: seq<string>,
                               exitCode: nat -> int)
      returns (exit: Exit)
      modifies this
      ensures var a := Attempts(1, t, columns, exitCode);
        var events := [WroteTest(TestPath(t), TestFile(t, pdf, csv))] + a.events;
        exit == a.exit && log == old(log) + events && files == Apply(old(files), events)
    {
      var testPath := WriteTestFile(t, pdf, csv);
      exit := RunAttempts(t, columns, testPath, exitCode);
      ghost var test := WroteTest(testPath, TestFile(t, pdf, csv));
      ghost var a := Attempts(1, t, columns, exitCode);
      ApplyCons(old(files), test, a.events);
      Regroup(old(log), test, a.events);
    }
  }

  // ---------------------------------------------------------------------------
  // Properties
  // ---------------------------------------------------------------------------

  /** The first attempt from `k` on whose tests pass, or `MaxAttempts + 1` if none. */
  function FirstPass(k: nat, exitCode: nat -> int): (j: nat)
    requires 1 <= k <= MaxAttempts + 1
    ensures k <= j <= MaxAttempts + 1
    ensures j <= MaxAttempts ==> exitCode(j) == 0
    ensures forall i | k <= i < j :: exitCode(i) != 0
    decreases MaxAttempts + 1 - k
  {
    if k > MaxAttempts || exitCode(k) == 0 then k else FirstPass(k + 1, exitCode)
  }

  /** How many attempts run from attempt `k` on: up to and including the first that
      passes, or all that remain. */
  function AttemptsRun(k: nat, exitCode: nat -> int): nat
    requires 1 <= k <= MaxAttempts + 1
  {
    var j := FirstPass(k, exitCode);
    if j <= MaxAttempts then j + 1 - k else j - k
  }

  /** `n` attempts from attempt `k` on, each writing the parser file and running the
      test. */
  function Rounds(target: string, columns: seq<string>, k: int, n: nat): (evs: seq<Event>)
    decreases n
  {
    if n == 0 then [] else Round(target, columns, k) + Rounds(target, columns, k + 1, n - 1)
  }

  /** Event `2i` of `n` rounds from `k` writes attempt `k + i`'s parser to the one
      parser path; event `2i + 1` runs the test. */
  lemma {:induction false} RoundsAt(target: string, columns: seq<string>, k: int, n: nat)
    ensures |Rounds(target, columns, k, n)| == 2 * n
    ensures forall i | 0 <= i < n ::
      && Rounds(target, columns, k, n)[2 * i] == WroteParser(ParserPath(target), ParserFile(k + i, columns))
      && Rounds(target, columns, k, n)[2 * i + 1] == RanTests(TestPath(target))
    decreases n
  {
    if n > 0 {
      RoundsAt(target, columns, k + 1, n - 1);
      var head, rest := Round(target, columns, k), Rounds(target, columns, k + 1, n - 1);
      assert Rounds(target, columns, k, n) == head + rest;
      forall i | 1 <= i < n
        ensures (head + rest)[2 * i] == WroteParser(ParserPath(target), ParserFile(k + i, columns))
        ensures (head + rest)[2 * i + 1] == RanTests(TestPath(target))
      {
        assert (head + rest)[2 * i] == rest[2 * (i - 1)];
        assert (head + rest)[2 * i + 1] == rest[2 * (i - 1) + 1];
        assert k + 1 + (i - 1) == k + i;
      }
    }
  }

  /** Every event of a run of rounds writes the parser path or runs the test. */
  lemma {:induction false} RoundsOnlyWriteParser(target: string, columns: seq<string>, k: int, n: nat)
    ensures forall e | e in Rounds(target, columns, k, n) ::
      e == RanTests(TestPath(target)) || (e.WroteParser? && e.path == ParserPath(target))
    decreases n
  {
    if n > 0 {
      RoundsOnlyWriteParser(target, columns, k + 1, n - 1);
      var head, rest := Round(target, columns, k), Rounds(target, columns, k + 1, n - 1);
      assert forall e | e in head + rest :: e in head || e in rest;
    }
  }

  /** The attempts from `k` stop at the first that passes, or give up after the last;
      each one writes the parser file and runs the test once. */
  lemma AttemptsClosedForm(k: nat, target: string, columns: seq<string>, exitCode: nat -> int)
    requires 1 <= k <= MaxAttempts + 1
    ensures var j := FirstPass(k, exitCode);
      var r := Attempts(k, target, columns, exitCode);
      && r.exit == (if j <= MaxAttempts then Generated(j) else GaveUp(GaveUpMessage(target)))
      && r.events == Rounds(target, columns, k, AttemptsRun(k, exitCode))
  {
    AttemptsExit(k, target, columns, exitCode);
    AttemptsEvents(k, target, columns, exitCode);
  }

  lemma {:induction false} AttemptsExit(k: nat, target: string, columns: seq<string>, exitCode: nat -> int)
    requires 1 <= k <= MaxAttempts + 1
    ensures var j := FirstPass(k, exitCode);
      Attempts(k, target, columns, exitCode).exit == if j <= MaxAttempts then Generated(j) else GaveUp(GaveUpMessage(target))
    decreases MaxAttempts + 1 - k
  {
    if k <= MaxAttempts && exitCode(k) != 0 {
      AttemptsExit(k + 1, target, columns, exitCode);
    }
  }

  lemma {:induction false} AttemptsEvents(k: nat, target: string, columns: seq<string>, exitCode: nat -> int)
    requires 1 <= k <= MaxAttempts + 1
    ensures Attempts(k, target, columns, exitCode).events == Rounds(target, columns, k, AttemptsRun(k, exitCode))
    decreases MaxAttempts + 1 - k
  {
    if k <= MaxAttempts {
      if exitCode(k) != 0 {
        AttemptsEvents(k + 1, target, columns, exitCode);
        var n := AttemptsRun(k + 1, exitCode);
        assert AttemptsRun(k, exitCode) == n + 1;
        assert Rounds(target, columns, k, n + 1) == Round(target, columns, k) + Rounds(target, columns, k + 1, n);
      } else {
        assert AttemptsRun(k, exitCode) == 1;
        RoundsOne(target, columns, k);
      }
    }
  }

  lemma RoundsOne(target: string, columns: seq<string>, k: int)
    ensures Rounds(target, columns, k, 1) == Round(target, columns, k)
  {
    assert Rounds(target, columns, k, 1) == Round(target, columns, k) + [];
  }

  /** `n + 1` rounds are `n` rounds and then one more. */
  lemma {:induction false} RoundsSnoc(target: string, columns: seq<string>, k: int, n: nat)
    ensures Rounds(target, columns, k, n + 1) == Rounds(target, columns, k, n) + Round(target, columns, k + n)
    decreases n
  {
    if n > 0 {
      RoundsSnoc(target, columns, k + 1, n - 1);
    }
  }

  /** Attempt `k` of the loop extends the record by one round and leaves its parser
      in the parser file. */
  lemma NextRound(files: map<string, Content>, t: string, columns: seq<string>, k: nat)
    requires k >= 1
    ensures Rounds(t, columns, 1, k) == Rounds(t, columns, 1, k - 1) + Round(t, columns, k)
    ensures Apply(files, Rounds(t, columns, 1, k)) ==
      Apply(files, Rounds(t, columns, 1, k - 1))[ParserPath(t) := ParserFile(k, columns)]
  {
    RoundsSnoc(t, columns, 1, k - 1);
    ApplyAppend(files, Rounds(t, columns, 1, k - 1), Round(t, columns, k));
    ApplyRound(Apply(files, Rounds(t, columns, 1, k - 1)), t, columns, k);
  }

  /** If attempt `k` is the first whose tests pass, the attempts return after it,
      having run exactly attempts 1 to `k`. */
  lemma PassesAt(k: nat, target: string, columns: seq<string>, exitCode: nat -> int)
    requires 1 <= k <= MaxAttempts && exitCode(k) == 0
    requires forall i | 1 <= i < k :: exitCode(i) != 0
    ensures Attempts(1, target, columns, exitCode) == Report(Generated(k), Rounds(target, columns, 1, k))
  {
    AttemptsClosedForm(1, target, columns, exitCode);
    assert FirstPass(1, exitCode) == k;
  }

  /** If no attempt's tests pass, the attempts give up after running all three. */
  lemma FailsThroughout(target: string, columns: seq<string>, exitCode: nat -> int)
    requires forall i | 1 <= i <= MaxAttempts :: exitCode(i) != 0
    ensures Attempts(1, target, columns, exitCode) ==
      Report(GaveUp(GaveUpMessage(target)), Rounds(target, columns, 1, MaxAttempts))
  {
    AttemptsClosedForm(1, target, columns, exitCode);
    assert FirstPass(1, exitCode) == MaxAttempts + 1;
  }

  /** A folder with no entry of the suffix globs to nothing. */
  lemma GlobNone(es: seq<string>, suffix: string)
    requires forall e | e in es :: !EndsWith(e, suffix)
    ensures Glob(es, suffix) == []
  {
    GlobFinds(es, suffix);
    if Glob(es, suffix) != [] {
      assert Glob(es, suffix)[0] in Glob(es, suffix);
      assert false;
    }
  }

  /** The first entry with the suffix is the first one the glob yields. */
  lemma {:induction false} FirstFound(es: seq<string>, suffix: string, k: nat)
    requires k < |es| && EndsWith(es[k], suffix) && forall j | 0 <= j < k :: !EndsWith(es[j], suffix)
    ensures Glob(es, suffix) != [] && Glob(es, suffix)[0] == es[k]
  {
    if k > 0 {
      FirstFound(es[1..], suffix, k - 1);
    }
  }

  /** Without a PDF or without a CSV in the bank's folder the call raises
      `FileNotFoundError` naming the lower-cased bank and the folder, and writes and runs
      nothing. */
  lemma MissingSamplesChangeNothing(target: string, listing: map<string, seq<string>>,
                                    readHeader: string -> Option<seq<string>>, exitCode: nat -> int)
    requires var es := Entries(listing, DataFolder(Lower(target)));
      (forall e | e in es :: !EndsWith(e, ".pdf")) || (forall e | e in es :: !EndsWith(e, ".csv"))
    ensures var r := Synthesize(target, listing, readHeader, exitCode);
      r.exit == NoSamples("No PDF/CSV found for " + Lower(target) + " in data/" + Lower(target)) && r.events == []
  {
    var t := Lower(target);
    var es := Entries(listing, DataFolder(t));
    if forall e | e in es :: !EndsWith(e, ".pdf") {
      GlobNone(es, ".pdf");
    } else {
      GlobNone(es, ".csv");
    }
    assert NotFoundMessage(t, DataFolder(t)) == "No PDF/CSV found for " + t + " in data/" + t;
  }

  /** The samples are the first PDF and the first CSV the bank's folder lists. */
  lemma SamplesAreFirstListed(t: string, listing: map<string, seq<string>>, pdf: nat, csv: nat)
    requires var es := Entries(listing, DataFolder(t));
      && pdf < |es| && EndsWith(es[pdf], ".pdf") && (forall j | 0 <= j < pdf :: !EndsWith(es[j], ".pdf"))
      && csv < |es| && EndsWith(es[csv], ".csv") && (forall j | 0 <= j < csv :: !EndsWith(es[j], ".csv"))
    ensures var es := Entries(listing, DataFolder(t));
      FindSamples(t, listing) == Some(Samples(DataFolder(t) + "/" + es[pdf], DataFolder(t) + "/" + es[csv]))
  {
    var es := Entries(listing, DataFolder(t));
    FirstFound(es, ".pdf", pdf);
    FirstFound(es, ".csv", csv);
  }

  /** With samples present and a readable CSV, the call writes the test from the
      samples and then makes the attempts. */
  lemma SynthesizeWithSamples(target: string, listing: map<string, seq<string>>,
                              readHeader: string -> Option<seq<string>>, exitCode: nat -> int)
    requires var s := FindSamples(Lower(target), listing); s.Some? && readHeader(s.value.csv).Some?
    ensures var t := Lower(target);
      var s := FindSamples(t, listing).value;
      var a := Attempts(1, t, readHeader(s.csv).value, exitCode);
      Synthesize(target, listing, readHeader, exitCode) ==
        Report(a.exit, [WroteTest(TestPath(t), TestFile(t, s.pdf, s.csv))] + a.events)
  {
  }

  /** With samples present and a readable CSV, the test is written first and exactly
      once, from the samples; every later event is a write of the parser file or a test
      run. */
  lemma TestWrittenFirstAndOnce(target: string, listing: map<string, seq<string>>,
                                readHeader: string -> Option<seq<string>>, exitCode: nat -> int)
    requires var s := FindSamples(Lower(target), listing); s.Some? && readHeader(s.value.csv).Some?
    ensures var t := Lower(target);
      var s := FindSamples(t, listing).value;
      var r := Synthesize(target, listing, readHeader, exitCode);
      && r.events != []
      && r.events[0] == WroteTest(TestPath(t), TestFile(t, s.pdf, s.csv))
      && forall i | 1 <= i < |r.events| :: !r.events[i].WroteTest?
  {
    var t := Lower(target);
    var s := FindSamples(t, listing).value;
    var columns := readHeader(s.csv).value;
    SynthesizeWithSamples(target, listing, readHeader, exitCode);
    AttemptsClosedForm(1, t, columns, exitCode);
    var rounds := Rounds(t, columns, 1, AttemptsRun(1, exitCode));
    RoundsOnlyWriteParser(t, columns, 1, AttemptsRun(1, exitCode));
    var events := [WroteTest(TestPath(t), TestFile(t, s.pdf, s.csv))] + rounds;
    forall i | 1 <= i < |events| ensures !events[i].WroteTest? {
      assert events[i] == rounds[i - 1];
      assert rounds[i - 1] in rounds;
    }
  }

  /** If attempt `k` is the first whose tests pass, the call returns after it, having
      written the parser file and run the test once per attempt up to `k` and no more. */
  lemma StopsAtFirstPass(target: string, listing: map<string, seq<string>>,
                         readHeader: string -> Option<seq<string>>, exitCode: nat -> int, k: nat)
    requires 1 <= k <= MaxAttempts && exitCode(k) == 0
    requires forall i | 1 <= i < k :: exitCode(i) != 0
    requires var s := FindSamples(Lower(target), listing); s.Some? && readHeader(s.value.csv).Some?
    ensures var t := Lower(target);
      var s := FindSamples(t, listing).value;
      var r := Synthesize(target, listing, readHeader, exitCode);
      && r.exit == Generated(k)
      && r.events == [WroteTest(TestPath(t), TestFile(t, s.pdf, s.csv))] + Rounds(t, readHeader(s.csv).value, 1, k)
  {
    var t := Lower(target);
    var columns := readHeader(FindSamples(t, listing).value.csv).value;
    SynthesizeWithSamples(target, listing, readHeader, exitCode);
    PassesAt(k, t, columns, exitCode);
  }

  /** When every attempt fails, the call raises `RuntimeError` after exactly three
      attempts (`GaveUpMessageNamesBank` spells out the message). */
  lemma GivesUpAfterMaxAttempts(target: string, listing: map<string, seq<string>>,
                                readHeader: string -> Option<seq<string>>, exitCode: nat -> int)
    requires forall i | 1 <= i <= MaxAttempts :: exitCode(i) != 0
    requires var s := FindSamples(Lower(target), listing); s.Some? && readHeader(s.value.csv).Some?
    ensures var t := Lower(target);
      var s := FindSamples(t, listing).value;
      var r := Synthesize(target, listing, readHeader, exitCode);
      && r.exit == GaveUp(GaveUpMessage(t))
      && r.events == [WroteTest(TestPath(t), TestFile(t, s.pdf, s.csv))] + Rounds(t, readHeader(s.csv).value, 1, 3)
  {
    var t := Lower(target);
    var columns := readHeader(FindSamples(t, listing).value.csv).value;
    SynthesizeWithSamples(target, listing, readHeader, exitCode);
    FailsThroughout(t, columns, exitCode);
  }

  /** The `RuntimeError` message names the bank and the three attempts. */
  lemma GaveUpMessageNamesBank(t: string)
    ensures GaveUpMessage(t) == "[LangGraph] Parser generation failed for '" + t + "' after 3 attempts"
  {
    assert Decimal(3) == "3";
  }

  /** Conversely, a normal return after attempt `k` means the tests of attempt `k`
      passed and those of every earlier attempt failed. */
  lemma GeneratedMeansPassed(target: string, listing: map<string, seq<string>>,
                             readHeader: string -> Option<seq<string>>, exitCode: nat -> int)
    ensures var r := Synthesize(target, listing, readHeader, exitCode);
      r.exit.Generated? ==>
        && 1 <= r.exit.attempt <= MaxAttempts
        && exitCode(r.exit.attempt) == 0
        && forall i | 1 <= i < r.exit.attempt :: exitCode(i) != 0
  {
    var t := Lower(target);
    var s := FindSamples(t, listing);
    if s.Some? && readHeader(s.value.csv).Some? {
      AttemptsClosedForm(1, t, readHeader(s.value.csv).value, exitCode);
    }
  }

  lemma {:induction false} ApplyRounds(files: map<string, Content>, target: string, columns: seq<string>, k: int, n: nat)
    requires n >= 1
    ensures Apply(files, Rounds(target, columns, k, n)) == files[ParserPath(target) := ParserFile(k + n - 1, columns)]
    decreases n
  {
    var after := files[ParserPath(target) := ParserFile(k, columns)];
    ApplyAppend(files, Round(target, columns, k), Rounds(target, columns, k + 1, n - 1));
    ApplyRound(files, target, columns, k);
    if n > 1 {
      ApplyRounds(after, target, columns, k + 1, n - 1);
    }
  }

  /** The test write followed by `n` attempts leaves the test file and the parser file
      of attempt `n`. */
  lemma ApplyTestThenRounds(files: map<string, Content>, t: string, test: Content, columns: seq<string>, n: nat)
    requires n >= 1
    ensures Apply(files, [WroteTest(TestPath(t), test)] + Rounds(t, columns, 1, n)) ==
      files[TestPath(t) := test][ParserPath(t) := ParserFile(n, columns)]
  {
    var w := WroteTest(TestPath(t), test);
    ApplyAppend(files, [w], Rounds(t, columns, 1, n));
    ApplyOne(files, w);
    ApplyRounds(files[TestPath(t) := test], t, columns, 1, n);
  }

  /** Whatever the outcome after the test is written, the workspace ends with the test
      file and the one parser file `custom_parsers/<bank>_parser.py`, generated on the
      last attempt that ran, and every other file as it was. */
  lemma FilesAfterAttempts(files: map<string, Content>, target: string, listing: map<string, seq<string>>,
                           readHeader: string -> Option<seq<string>>, exitCode: nat -> int)
    requires var s := FindSamples(Lower(target), listing); s.Some? && readHeader(s.value.csv).Some?
    ensures var t := Lower(target);
      var s := FindSamples(t, listing).value;
      var after := Apply(files, Synthesize(target, listing, readHeader, exitCode).events);
      && after.Keys == files.Keys + {TestPath(t), ParserPath(t)}
      && after[TestPath(t)] == TestFile(t, s.pdf, s.csv)
      && after[ParserPath(t)] == ParserFile(AttemptsRun(1, exitCode), readHeader(s.csv).value)
      && forall p | p in files && p != TestPath(t) && p != ParserPath(t) :: after[p] == files[p]
  {
    var t := Lower(target);
    var s := FindSamples(t, listing).value;
    var columns := readHeader(s.csv).value;
    SynthesizeWithSamples(target, listing, readHeader, exitCode);
    AttemptsClosedForm(1, t, columns, exitCode);
    var n := AttemptsRun(1, exitCode);
    ApplyTestThenRounds(files, t, TestFile(t, s.pdf, s.csv), columns, n);
    TestAndParserPathsDiffer(t);
    TwoWrites(files, TestPath(t), ParserPath(t), TestFile(t, s.pdf, s.csv), ParserFile(n, columns));
  }

  /** Two writes to two different paths. */
  lemma TwoWrites(files: map<string, Content>, p1: string, p2: string, c1: Content, c2: Content)
    requires p1 != p2
    ensures var after := files[p1 := c1][p2 := c2];
      && after.Keys == files.Keys + {p1, p2}
      && after[p1] == c1 && after[p2] == c2
      && forall p | p in files && p != p1 && p != p2 :: after[p] == files[p]
  {
  }

  /** `create_fallback_code` ignores the attempt number, so the parser file has the
      same text whichever attempt wrote it. */
  lemma SameParserTextEveryAttempt(i: int, j: int, columns: seq<string>)
    ensures Render(ParserFile(i, columns)) == Render(ParserFile(j, columns))
  {
    FallbackIgnoresAttempt(i, j);
  }

  /** `target.lower()` comes first, so a bank name and its lower-cased form behave
      alike. */
  lemma CaseOfTargetIgnored(target: string, listing: map<string, seq<string>>,
                            readHeader: string -> Option<seq<string>>, exitCode: nat -> int)
    ensures Synthesize(target, listing, readHeader, exitCode) == Synthesize(Lower(target), listing, readHeader, exitCode)
  {
    assert Lower(Lower(target)) == Lower(target);
  }

  /** Every event the call produces names the test path or the parser path of the
      lower-cased bank (`PathsSpelled` spells them out). */
  lemma PathsUseLowerCasedName(target: string, listing: map<string, seq<string>>,
                               readHeader: string -> Option<seq<string>>, exitCode: nat -> int)
    ensures var t := Lower(target);
      forall e | e in Synthesize(target, listing, readHeader, exitCode).events ::
        || e == RanTests(TestPath(t))
        || (e.WroteTest? && e.path == TestPath(t))
        || (e.WroteParser? && e.path == ParserPath(t))
  {
    var t := Lower(target);
    var s := FindSamples(t, listing);
    if s.Some? && readHeader(s.value.csv).Some? {
      var columns := readHeader(s.value.csv).value;
      SynthesizeWithSamples(target, listing, readHeader, exitCode);
      AttemptsClosedForm(1, t, columns, exitCode);
      RoundsOnlyWriteParser(t, columns, 1, AttemptsRun(1, exitCode));
      var test := [WroteTest(TestPath(t), TestFile(t, s.value.pdf, s.value.csv))];
      var rounds := Rounds(t, columns, 1, AttemptsRun(1, exitCode));
      assert forall e | e in test + rounds :: e in test || e in rounds;
    }
  }
}
