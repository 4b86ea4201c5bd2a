/** The generator's texts (agent.py): the parser template with its two placeholders,
    the fallback block `create_fallback_code` builds, and the `.replace` chain that
    fills the placeholders in. */
module Template {
  import opened Text
  import opened TextWrap
  import opened Repr

  const ColumnsHole: string := "{expected_columns}"
  const FallbackHole: string := "{fallback_code}"

  /** `PARSER_TEMPLATE`, cut at its two placeholders: the imports, the declaration of
      the column list, the cleaning helper and the table scan, the place of the
      fallback block, and the empty-table default. */
  const TemplatePrelude: string :=
      "from __future__ import annotations\n"
      + "import re\n"
      + "from typing import List\n"
      + "import pandas as pd\n"
      + "import pdfplumber\n"
      + "\n"

  const TemplateHead: string := TemplatePrelude + "EXPECTED_COLUMNS = "

  const TemplateBody: string :=
      "\n"
      + "\n"
      + "def _clean_cell(x: object) -> object:\n"
      + "    if x is None: return \"\"\n"
      + "    s = str(x).strip()\n"
      + "    s = re.sub(r\"[\U{E2}\U{201A}\U{B9}$,]\", \"\", s)\n"
      + "    s = re.sub(r\"\\s+\", \" \", s)\n"
      + "    return s\n"
      + "\n"
      + "def parse(pdf_path: str):\n"
      + "    import pandas as pd\n"
      + "    rows = []\n"
      + "    try:\n"
      + "        import pdfplumber\n"
      + "        with pdfplumber.open(pdf_path) as doc:\n"
      + "            for page in doc.pages:\n"
      + "                tables = page.extract_tables() or []\n"
      + "                for tbl in tables:\n"
      + "                    if not tbl or len(tbl) < 2: continue\n"
      + "                    header = [_clean_cell(c) for c in tbl[0]]\n"
      + "                    data_rows = [[_clean_cell(c) for c in r] for r in tbl[1:]]\n"
      + "                    if any(ec.lower().split()[0] in \" \".join(header).lower() for ec in EXPECTED_COLUMNS):\n"
      + "                        df = pd.DataFrame(data_rows, columns=header)\n"
      + "                        for col in EXPECTED_COLUMNS:\n"
      + "                            if col not in df.columns:\n"
      + "                                df[col] = \"\"\n"
      + "                        return df[EXPECTED_COLUMNS].reset_index(drop=True)\n"
      + "                    else:\n"
      + "                        rows.extend(data_rows)\n"
      + "    except Exception:\n"
      + "        pass\n"
      + "\n"

  const TemplateTail: string :=
      "\n"
      + "\n"
      + "    return pd.DataFrame("
      + "columns=EXPECTED_COLUMNS)\n"

  const ParserTemplate: string := TemplateHead + ColumnsHole + TemplateBody + FallbackHole + TemplateTail

  /** The raw string `create_fallback_code` dedents: it starts with the backslash and
      newline the raw literal keeps after its opening quotes. */
  const FallbackSource: string := "\\\n" + FallbackLines

  const FallbackLines: string :=
      "try:\n"
      + "    import pandas as pd\n"
      + "    import pdfplumber\n"
      + "    pages_text = []\n"
      + "    with pdfplumber.open(pdf_path) as doc:\n"
      + "        for page in doc.pages:\n"
      + "            pages_text.append(page.extract_text() or \"\")\n"
      + "    combined = \"\\n\".join(pages_text)\n"
      + "    rows = []\n"
      + "    row_re = re.compile(r\"(\\d{1,2}[/-]\\d{1,2}[/-]\\d{2,4})\\s+(.{5,100})\\s+([-\\d,\\.]+)\", flags=re.M)\n"
      + "    for m in row_re.findall(combined):\n"
      + "        date, desc, amt = m\n"
      + "        rows.append([date.strip(), desc.strip(), amt.strip()])\n"
      + "    if rows:\n"
      + "        df = pd.DataFrame(rows, columns=EXPECTED_COLUMNS)\n"
      + "        return df[EXPECTED_COLUMNS].reset_index(drop=True)\n"
      + "except Exception:\n"
      + "    pass\n"

  /** `create_fallback_code(attempt)`: the attempt number is not used. */
  function CreateFallbackCode(attempt: int): string {
    Indent(Dedent(FallbackSource), "    ")
  }

  /** Every attempt gets the same fallback text. */
  lemma FallbackIgnoresAttempt(i: int, j: int)
    ensures CreateFallbackCode(i) == CreateFallbackCode(j)
  {
  }

  /** `template.replace("{fallback_code}", fallback).replace("{expected_columns}", repr(columns))`. */
  function Instantiate(template: string, fallback: string, columns: seq<string>): string {
    Replace(Replace(template, FallbackHole, fallback), ColumnsHole, ListRepr(columns))
  }

  /** The parser text written on attempt `attempt` for the CSV header `columns`. */
  function ParserCode(attempt: int, columns: seq<string>): string {
    Instantiate(ParserTemplate, CreateFallbackCode(attempt), columns)
  }

  // ---------------------------------------------------------------------------
  // str.replace over text that holds no '{'
  // ---------------------------------------------------------------------------

  /** Text without the pattern's first character passes through `replace` unchanged. */
  lemma {:induction false} ReplaceSkips(a: string, b: string, pat: string, rep: string)
    requires pat != [] && pat[0] !in a
    ensures Replace(a + b, pat, rep) == a + Replace(b, pat, rep)
    decreases |a|
  {
    if a != [] {
      var s := a + b;
      if |s| >= |pat| {
        assert s[0] == a[0] && !IsPrefix(pat, s);
        assert s[1..] == a[1..] + b;
        ReplaceSkips(a[1..], b, pat, rep);
        assert [a[0]] + a[1..] == a;
      } else {
        assert Replace(b, pat, rep) == b;
      }
    } else {
      assert a + b == b;
    }
  }

  lemma ReplaceAt(pat: string, b: string, rep: string)
    requires pat != []
    ensures Replace(pat + b, pat, rep) == rep + Replace(b, pat, rep)
  {
    assert (pat + b)[..|pat|] == pat && (pat + b)[|pat|..] == b;
  }

  /** Text that does not contain the pattern passes through `replace` unchanged. */
  lemma {:induction false} ReplaceAbsent(s: string, pat: string, rep: string)
    requires pat != [] && !Contains(s, pat)
    ensures Replace(s, pat, rep) == s
    decreases |s|
  {
    if |s| >= |pat| {
      assert !IsPrefix(pat, s[0..]) && s[0..] == s;
      assert !Contains(s[1..], pat) by {
        forall i | 0 <= i <= |s[1..]| - |pat| ensures !IsPrefix(pat, s[1..][i..]) {
          assert s[1..][i..] == s[i + 1..];
        }
      }
      ReplaceAbsent(s[1..], pat, rep);
      assert [s[0]] + s[1..] == s;
    }
  }

  /** The first replacement steps over the columns placeholder: the two differ in their
      second character. */
  lemma FallbackPassesColumnsHole(rest: string, fallback: string)
    ensures Replace(ColumnsHole + rest, FallbackHole, fallback) == ColumnsHole + Replace(rest, FallbackHole, fallback)
  {
    assert ColumnsHole[1] != FallbackHole[1] && FallbackHole[0] !in ColumnsHole[1..];
    ReplaceSkipsMismatch(ColumnsHole, rest, FallbackHole, fallback);
  }

  /** A text that starts like the pattern but differs from it at the second character,
      and holds the pattern's first character nowhere else, is skipped whole. */
  lemma ReplaceSkipsMismatch(a: string, b: string, pat: string, rep: string)
    requires |a| >= 2 && |pat| >= 2 && a[1] != pat[1] && pat[0] !in a[1..]
    ensures Replace(a + b, pat, rep) == a + Replace(b, pat, rep)
  {
    var s := a + b;
    assert s[1..] == a[1..] + b;
    ReplaceSkips(a[1..], b, pat, rep);
    if |s| >= |pat| {
      assert s[..|pat|][1] == a[1];
      assert Replace(s, pat, rep) == [s[0]] + Replace(s[1..], pat, rep);
    } else {
      assert Replace(s, pat, rep) == s;
    }
    assert [s[0]] + a[1..] == a;
  }

  /** The fallback placeholder between two texts without '{' is the one replaced. */
  lemma FillFallbackHole(body: string, tail: string, fallback: string)
    requires '{' !in body && '{' !in tail
    ensures Replace(body + FallbackHole + tail, FallbackHole, fallback) == body + (fallback + tail)
  {
    ReplaceSkips(body, FallbackHole + tail, FallbackHole, fallback);
    ReplaceAt(FallbackHole, tail, fallback);
    ReplaceSkips(tail, [], FallbackHole, fallback);
    calc {
      Replace(body + FallbackHole + tail, FallbackHole, fallback);
      { assert body + FallbackHole + tail == body + (FallbackHole + tail); }
      body + Replace(FallbackHole + tail, FallbackHole, fallback);
      body + (fallback + Replace(tail, FallbackHole, fallback));
      { assert tail + [] == tail; }
      body + (fallback + tail);
    }
  }

  /** Filling a template whose text before the columns placeholder holds no '{': the
      columns' `repr` follows that text directly. */
  lemma InstantiateStart(head: string, rest: string, fallback: string, columns: seq<string>)
    requires '{' !in head
    ensures Instantiate(head + ColumnsHole + rest, fallback, columns) ==
      head + ListRepr(columns) + Replace(Replace(rest, FallbackHole, fallback), ColumnsHole, ListRepr(columns))
  {
    var r := ListRepr(columns);
    var once := Replace(rest, FallbackHole, fallback);
    calc {
      Replace(head + ColumnsHole + rest, FallbackHole, fallback);
      { assert head + ColumnsHole + rest == head + (ColumnsHole + rest);
        ReplaceSkips(head, ColumnsHole + rest, FallbackHole, fallback); }
      head + Replace(ColumnsHole + rest, FallbackHole, fallback);
      { FallbackPassesColumnsHole(rest, fallback); }
      head + (ColumnsHole + once);
    }
    calc {
      Replace(head + (ColumnsHole + once), ColumnsHole, r);
      { ReplaceSkips(head, ColumnsHole + once, ColumnsHole, r); }
      head + Replace(ColumnsHole + once, ColumnsHole, r);
      { ReplaceAt(ColumnsHole, once, r); }
      head + (r + Replace(once, ColumnsHole, r));
    }
  }

  /** Filling a template laid out as `PARSER_TEMPLATE` is: the columns' `repr` follows
      the head, whatever the rest and the fallback block hold. */
  lemma InstantiateDeclares(head: string, body: string, tail: string, fallback: string, columns: seq<string>)
    requires '{' !in head
    ensures IsPrefix(head + ListRepr(columns), Instantiate(head + ColumnsHole + body + FallbackHole + tail, fallback, columns))
  {
    var rest := body + FallbackHole + tail;
    assert head + ColumnsHole + body + FallbackHole + tail == head + ColumnsHole + rest;
    InstantiateStart(head, rest, fallback, columns);
  }

  /** Filling the template: when only the two placeholders hold a '{' and the fallback
      block does not bring a columns placeholder of its own, the result is the template
      with the column list's `repr` and the fallback block in their places. */
  lemma InstantiateShape(head: string, body: string, tail: string, fallback: string, columns: seq<string>)
    requires '{' !in head && '{' !in body && '{' !in tail
    requires !Contains(fallback + tail, ColumnsHole)
    ensures Instantiate(head + ColumnsHole + body + FallbackHole + tail, fallback, columns) ==
      head + ListRepr(columns) + body + fallback + tail
  {
    var r := ListRepr(columns);
    var rest := body + FallbackHole + tail;
    assert head + ColumnsHole + body + FallbackHole + tail == head + ColumnsHole + rest;
    InstantiateStart(head, rest, fallback, columns);
    FillFallbackHole(body, tail, fallback);
    ReplaceSkips(body, fallback + tail, ColumnsHole, r);
    ReplaceAbsent(fallback + tail, ColumnsHole, r);
  }

  // ---------------------------------------------------------------------------
  // The fallback block never spells the columns placeholder
  // ---------------------------------------------------------------------------

  /** Every '{' is followed by a digit, as in the quantifiers `{1,2}` and `{5,100}` of the
      fallback's row pattern. */
  predicate BraceBeforeDigit(s: string) {
    forall i | 0 <= i < |s| && s[i] == '{' :: i + 1 < |s| && '0' <= s[i + 1] <= '9'
  }

  lemma BraceBeforeDigitAppend(a: string, b: string)
    requires BraceBeforeDigit(a) && BraceBeforeDigit(b)
    ensures BraceBeforeDigit(a + b)
  {
    forall i | 0 <= i < |a + b| && (a + b)[i] == '{'
      ensures i + 1 < |a + b| && '0' <= (a + b)[i + 1] <= '9'
    {
      if i < |a| {
        assert a[i] == '{';
      } else {
        assert b[i - |a|] == '{';
      }
    }
  }

  lemma BraceBeforeDigitSuffix(s: string, k: nat)
    requires BraceBeforeDigit(s) && k <= |s|
    ensures BraceBeforeDigit(s[k..])
  {
    forall i | 0 <= i < |s[k..]| && s[k..][i] == '{' ensures i + 1 < |s[k..]| && '0' <= s[k..][i + 1] <= '9' {
      assert s[k + i] == '{';
    }
  }

  /** A prefix that does not end in '{' keeps the property. */
  lemma BraceBeforeDigitPrefix(s: string, k: nat)
    requires BraceBeforeDigit(s) && 0 < k <= |s| && s[k - 1] != '{'
    ensures BraceBeforeDigit(s[..k])
  {
  }

  lemma {:induction false} BraceBeforeDigitLines(t: string)
    requires BraceBeforeDigit(t)
    ensures forall k | 0 <= k < |Lines(t)| :: BraceBeforeDigit(Lines(t)[k])
    decreases |t|
  {
    if t != [] {
      var r := Lines(t[1..]);
      BraceBeforeDigitSuffix(t, 1);
      BraceBeforeDigitLines(t[1..]);
      if t[0] != '\n' {
        var first := [t[0]] + r[0];
        assert BraceBeforeDigit(first) by {
          if t[0] == '{' {
            assert |r[0]| > 0 && r[0][0] == t[1];
          }
          forall i | 1 <= i < |first| && first[i] == '{' ensures i + 1 < |first| && '0' <= first[i + 1] <= '9' {
            assert r[0][i - 1] == '{';
          }
        }
        assert Lines(t) == [first] + r[1..];
        assert forall k | 1 <= k < |Lines(t)| :: Lines(t)[k] == r[k];
      } else {
        assert forall k | 1 <= k < |Lines(t)| :: Lines(t)[k] == r[k - 1];
      }
    }
  }

  lemma {:induction false} BraceBeforeDigitJoin(ls: seq<string>)
    requires forall k | 0 <= k < |ls| :: BraceBeforeDigit(ls[k])
    ensures BraceBeforeDigit(JoinWith(ls, "\n"))
  {
    if |ls| > 1 {
      BraceBeforeDigitJoin(ls[1..]);
      BraceBeforeDigitAppend(ls[0], "\n");
      BraceBeforeDigitAppend(ls[0] + "\n", JoinWith(ls[1..], "\n"));
    }
  }

  lemma BraceBeforeDigitDedent(t: string)
    requires BraceBeforeDigit(t)
    ensures BraceBeforeDigit(Dedent(t))
  {
    var ls := Lines(t);
    var m := DedentMargin(t);
    var ds := DedentedLines(ls, m);
    BraceBeforeDigitLines(t);
    forall k | 0 <= k < |ds| ensures BraceBeforeDigit(ds[k]) {
      if HasText(ls[k]) && IsPrefix(m, ls[k]) {
        BraceBeforeDigitSuffix(ls[k], |m|);
      }
    }
    BraceBeforeDigitJoin(ds);
  }

  lemma {:induction false} BraceBeforeDigitIndent(t: string, p: string)
    requires BraceBeforeDigit(t) && '{' !in p
    ensures BraceBeforeDigit(Indent(t, p))
    decreases |t|
  {
    if t != [] {
      var n := FirstLineLength(t);
      assert t[n - 1] != '{' by {
        if n < |t| {
          assert LineBreak(t[n - 1]);
        }
      }
      BraceBeforeDigitPrefix(t, n);
      BraceBeforeDigitSuffix(t, n);
      BraceBeforeDigitIndent(t[n..], p);
      BraceBeforeDigitAppend(p, t[..n]);
      BraceBeforeDigitAppend(IndentLine(t[..n], p), Indent(t[n..], p));
    }
  }

  lemma NoColumnsHole(s: string)
    requires BraceBeforeDigit(s)
    ensures !Contains(s, ColumnsHole)
  {
    forall i | 0 <= i <= |s| - |ColumnsHole| ensures !IsPrefix(ColumnsHole, s[i..]) {
      assert ColumnsHole[0] == '{' && ColumnsHole[1] == 'e';
      if s[i] == '{' {
        assert '0' <= s[i + 1] <= '9';
      }
    }
  }

  /** A fallback source whose braces all open a repetition count stays free of the
      columns placeholder through `dedent` and `indent`, also in front of a tail with no
      '{'. */
  lemma FallbackHasNoColumnsHole(source: string, tail: string)
    requires BraceBeforeDigit(source) && '{' !in tail
    ensures !Contains(Indent(Dedent(source), "    ") + tail, ColumnsHole)
  {
    BraceBeforeDigitDedent(source);
    BraceBeforeDigitIndent(Dedent(source), "    ");
    BraceBeforeDigitAppend(Indent(Dedent(source), "    "), tail);
    NoColumnsHole(Indent(Dedent(source), "    ") + tail);
  }

  // ---------------------------------------------------------------------------
  // The generator's own texts
  // ---------------------------------------------------------------------------

  lemma HeadAndTailHaveNoBrace()
    ensures '{' !in TemplateHead && '{' !in TemplateTail
  {
    HeadHasNoBrace();
    TailHasNoBrace();
  }

  lemma HeadHasNoBrace()
    ensures '{' !in TemplateHead
  {
    assert '{' !in TemplatePrelude;
    assert '{' !in "EXPECTED_COLUMNS = ";
  }

  lemma TailHasNoBrace()
    ensures '{' !in TemplateTail
  {
  }

  /** Whatever the fallback block holds, the generated parser starts with the template's
      imports and `EXPECTED_COLUMNS = ` followed by the `repr` of the CSV header, which
      reads back as exactly that header (`ReadListOfRepr`). */
  lemma ParserDeclaresColumns(attempt: int, columns: seq<string>)
    ensures IsPrefix(TemplateHead + ListRepr(columns), ParserCode(attempt, columns))
  {
    HeadAndTailHaveNoBrace();
    InstantiateDeclares(TemplateHead, TemplateBody, TemplateTail, CreateFallbackCode(attempt), columns);
  }

  /** `dedent` leaves the fallback source's margin alone: its first line, the raw
      literal's backslash, starts at the left edge, so dedent only empties lines made of
      blanks and tabs. */
  lemma FallbackDedentKeepsMargin()
    ensures DedentMargin(FallbackSource) == []
    ensures var ls := Lines(FallbackSource);
      Lines(Dedent(FallbackSource)) == seq(|ls|, j requires 0 <= j < |ls| => if HasText(ls[j]) then ls[j] else [])
  {
    assert FallbackSource == "\\" + "\n" + FallbackLines;
    assert HasText("\\") && Indentation("\\") == [];
    DedentFirstLineFlush("\\", FallbackLines);
  }

  /** The fallback block's lines are the dedented source's lines, each line with text
      behind four blanks and the others left as they are. */
  lemma FallbackIndentedByFour(attempt: int)
    ensures SplitLines(CreateFallbackCode(attempt)) == IndentedLines(SplitLines(Dedent(FallbackSource)), "    ")
  {
    IndentByFour(Dedent(FallbackSource));
  }

  lemma IndentByFour(t: string)
    ensures SplitLines(Indent(t, "    ")) == IndentedLines(SplitLines(t), "    ")
  {
    IndentLines(t, "    ");
  }

  /** The generated parser is the template with the column list's `repr` and the
      fallback block in place of the two placeholders, on every attempt, given that the
      template's middle part holds no '{' and the fallback source's braces all open a
      repetition count. */
  lemma ParserCodeShape(attempt: int, columns: seq<string>)
    requires '{' !in TemplateBody && BraceBeforeDigit(FallbackSource)
    ensures ParserCode(attempt, columns) ==
      TemplateHead + ListRepr(columns) + TemplateBody + CreateFallbackCode(attempt) + TemplateTail
  {
    HeadAndTailHaveNoBrace();
    FallbackHasNoColumnsHole(FallbackSource, TemplateTail);
    InstantiateShape(TemplateHead, TemplateBody, TemplateTail, CreateFallbackCode(attempt), columns);
  }
}
