/** Python's `repr` of a string and of a list of strings, the text the generator
    writes after `EXPECTED_COLUMNS = `, and a reader for the literals it produces. */
module Repr {
  import opened Text
  import opened Frames

  /** Characters `repr` writes unescaped besides the quote and the backslash: printable
      ASCII, and beyond ASCII everything but controls, whitespace other than the blank,
      format characters and private-use characters. Unassigned code points are not
      told apart from assigned ones. */
  predicate Printable(c: char) {
    c == ' ' || (' ' < c && c != '\U{7F}' && !('\U{80}' <= c <= '\U{A0}') && !IsSpace(c)
                 && !Format(c) && !PrivateUse(c))
  }

  /** The format characters of Unicode 15 (general category Cf). */
  predicate Format(c: char) {
    c == '\U{AD}' || '\U{600}' <= c <= '\U{605}' || c == '\U{61C}' || c == '\U{6DD}'
    || c == '\U{70F}' || '\U{890}' <= c <= '\U{891}' || c == '\U{8E2}' || c == '\U{180E}'
    || '\U{200B}' <= c <= '\U{200F}' || '\U{202A}' <= c <= '\U{202E}'
    || '\U{2060}' <= c <= '\U{2064}' || '\U{2066}' <= c <= '\U{206F}' || c == '\U{FEFF}'
    || '\U{FFF9}' <= c <= '\U{FFFB}' || c == '\U{110BD}' || c == '\U{110CD}'
    || '\U{13430}' <= c <= '\U{1343F}' || '\U{1BCA0}' <= c <= '\U{1BCA3}'
    || '\U{1D173}' <= c <= '\U{1D17A}' || c == '\U{E0001}' || '\U{E0020}' <= c <= '\U{E007F}'
  }

  /** The private-use characters (general category Co). */
  predicate PrivateUse(c: char) {
    '\U{E000}' <= c <= '\U{F8FF}' || '\U{F0000}' <= c <= '\U{FFFFD}' || '\U{100000}' <= c <= '\U{10FFFD}'
  }

  function HexDigit(d: nat): (c: char)
    requires d < 16
  {
    if d < 10 then '0' + d as char else 'a' + (d - 10) as char
  }

  /** The value of a hexadecimal digit, as `int(c, 16)` reads it. */
  function HexValue(c: char): Option<nat> {
    if '0' <= c <= '9' then Some(c as int - '0' as int)
    else if 'a' <= c <= 'f' then Some(c as int - 'a' as int + 10)
    else if 'A' <= c <= 'F' then Some(c as int - 'A' as int + 10)
    else None
  }

  /** `n` written with exactly `w` lower-case hexadecimal digits. */
  function Hex(n: nat, w: nat): (s: string)
    ensures |s| == w
  {
    if w == 0 then [] else Hex(n / 16, w - 1) + [HexDigit(n % 16)]
  }

  function Pow16(w: nat): (p: nat)
    ensures p > 0
  {
    if w == 0 then 1 else 16 * Pow16(w - 1)
  }

  /** The number a run of hexadecimal digits spells, or `None` if one is not a digit. */
  function ReadHex(s: string): Option<nat> {
    if s == [] then Some(0)
    else
      var init, last := ReadHex(s[..|s| - 1]), HexValue(s[|s| - 1]);
      if init.Some? && last.Some? then Some(16 * init.value + last.value) else None
  }

  lemma {:induction false} ReadHexOfHex(n: nat, w: nat)
    requires n < Pow16(w)
    ensures ReadHex(Hex(n, w)) == Some(n)
  {
    if w > 0 {
      var s := Hex(n, w);
      assert s[..|s| - 1] == Hex(n / 16, w - 1);
      ReadHexOfHex(n / 16, w - 1);
    }
  }

  /** The quote `repr` puts around `s`: a single quote, unless `s` holds a single quote
      and no double quote. */
  function QuoteFor(s: string): (q: char)
    ensures q == '\'' || q == '"'
  {
    if '\'' in s && '"' !in s then '"' else '\''
  }

  /** How `repr` writes one character inside quotes `q`. */
  function EscapeChar(c: char, q: char): (e: string)
    ensures e != []
  {
    if c == q || c == '\\' then ['\\', c]
    else if c == '\t' then "\\t"
    else if c == '\n' then "\\n"
    else if c == '\r' then "\\r"
    else if Printable(c) then [c]
    else if c as int < 0x100 then "\\x" + Hex(c as int, 2)
    else if c as int < 0x1_0000 then "\\u" + Hex(c as int, 4)
    else "\\U" + Hex(c as int, 8)
  }

  function Escape(s: string, q: char): string {
    if s == [] then [] else EscapeChar(s[0], q) + Escape(s[1..], q)
  }

  /** `repr(s)` for a string. */
  function StrRepr(s: string): string {
    var q := QuoteFor(s);
    [q] + Escape(s, q) + [q]
  }

  function StrReprs(xs: seq<string>): (rs: seq<string>)
    ensures |rs| == |xs|
    ensures forall k | 0 <= k < |xs| :: rs[k] == StrRepr(xs[k])
  {
    if xs == [] then []
    else
      assert forall k | 1 <= k < |xs| :: xs[1..][k - 1] == xs[k];
      [StrRepr(xs[0])] + StrReprs(xs[1..])
  }

  /** `repr(xs)` for a list of strings. */
  function ListRepr(xs: seq<string>): string {
    "[" + JoinWith(StrReprs(xs), ", ") + "]"
  }

  // ---------------------------------------------------------------------------
  // Reading the literals back
  // ---------------------------------------------------------------------------

  /** The character a code point names, when it names one. */
  function CodePoint(v: nat): Option<char> {
    if v < 0xD800 || 0xE000 <= v < 0x11_0000 then Some(v as char) else None
  }

  /** The character of the escape `\x..`, `\u....` or `\U........` at the start of `s`
      (`s` begins after the letter), and what follows it. */
  function ReadCodeEscape(s: string, w: nat): (r: Option<(char, string)>)
    ensures r.Some? ==> |r.value.1| < |s|
  {
    if |s| < w || w == 0 then None
    else
      var v := ReadHex(s[..w]);
      if v.Some? && CodePoint(v.value).Some? then Some((CodePoint(v.value).value, s[w..])) else None
  }

  /** The character the escape sequence at the start of `s` (just after its backslash)
      stands for, and what follows it. */
  function ReadEscape(s: string): (r: Option<(char, string)>)
    ensures r.Some? ==> |r.value.1| < |s|
  {
    if s == [] then None
    else if s[0] == '\\' || s[0] == '\'' || s[0] == '"' then Some((s[0], s[1..]))
    else if s[0] == 't' then Some(('\t', s[1..]))
    else if s[0] == 'n' then Some(('\n', s[1..]))
    else if s[0] == 'r' then Some(('\r', s[1..]))
    else if s[0] == 'x' then ReadCodeEscape(s[1..], 2)
    else if s[0] == 'u' then ReadCodeEscape(s[1..], 4)
    else if s[0] == 'U' then ReadCodeEscape(s[1..], 8)
    else None
  }

  /** Reads the inside of a literal quoted by `q` up to its closing quote: the text it
      stands for and what follows the quote. */
  function ReadBody(s: string, q: char): (r: Option<(string, string)>)
    ensures r.Some? ==> |r.value.1| < |s|
    decreases |s|
  {
    if s == [] then None
    else if s[0] == q then Some(([], s[1..]))
    else if s[0] == '\\' then
      var e := ReadEscape(s[1..]);
      if e.None? then None
      else
        var b := ReadBody(e.value.1, q);
        if b.None? then None else Some(([e.value.0] + b.value.0, b.value.1))
    else
      var b := ReadBody(s[1..], q);
      if b.None? then None else Some(([s[0]] + b.value.0, b.value.1))
  }

  /** Reads one string literal at the start of `s`: the text and what follows it. */
  function ReadStr(s: string): (r: Option<(string, string)>)
    ensures r.Some? ==> |r.value.1| < |s|
  {
    if s != [] && (s[0] == '\'' || s[0] == '"') then ReadBody(s[1..], s[0]) else None
  }

  /** Reads `lit, lit, ..., lit]`: the texts, provided nothing follows the bracket. */
  function ReadItems(s: string): Option<seq<string>>
    decreases |s|
  {
    var r := ReadStr(s);
    if r.None? then None
    else
      var (x, rest) := r.value;
      if rest == "]" then Some([x])
      else if |rest| >= 2 && rest[..2] == ", " then
        var more := ReadItems(rest[2..]);
        if more.None? then None else Some([x] + more.value)
      else None
  }

  /** Reads a list literal of strings that makes up all of `s`. */
  function ReadList(s: string): Option<seq<string>> {
    if s == "[]" then Some([])
    else if s != [] && s[0] == '[' then ReadItems(s[1..])
    else None
  }

  // ---------------------------------------------------------------------------
  // Round trips
  // ---------------------------------------------------------------------------

  lemma ReadCodeEscapeOf(c: char, w: nat, rest: string)
    requires w > 0 && c as int < Pow16(w)
    ensures ReadCodeEscape(Hex(c as int, w) + rest, w) == Some((c, rest))
  {
    var s := Hex(c as int, w) + rest;
    assert s[..w] == Hex(c as int, w) && s[w..] == rest;
    ReadHexOfHex(c as int, w);
  }

  /** `r` with `c` in front of the text it read. */
  function Prepend(c: char, r: Option<(string, string)>): Option<(string, string)> {
    if r.None? then None else Some(([c] + r.value.0, r.value.1))
  }

  lemma ReadTwoCharEscape(c: char, q: char, rest: string)
    requires q == '\'' || q == '"'
    requires c == q || c == '\\' || c == '\t' || c == '\n' || c == '\r'
    ensures ReadBody(EscapeChar(c, q) + rest, q) == Prepend(c, ReadBody(rest, q))
  {
    var s := EscapeChar(c, q) + rest;
    assert s[0] == '\\' && s[1..][1..] == rest;
  }

  /** The escape letter and `w` hexadecimal digits read back as the character they
      spell. */
  lemma ReadEscapeOfHex(c: char, letter: char, w: nat, rest: string)
    requires (letter == 'x' && w == 2) || (letter == 'u' && w == 4) || (letter == 'U' && w == 8)
    requires c as int < Pow16(w)
    ensures ReadEscape([letter] + Hex(c as int, w) + rest) == Some((c, rest))
  {
    var s := [letter] + Hex(c as int, w) + rest;
    assert s[0] == letter && s[1..] == Hex(c as int, w) + rest;
    ReadCodeEscapeOf(c, w, rest);
  }

  /** A backslash, the escape letter and `w` hexadecimal digits read back as the
      character they spell. */
  lemma ReadHexEscape(c: char, q: char, letter: char, w: nat, rest: string)
    requires q == '\'' || q == '"'
    requires (letter == 'x' && w == 2) || (letter == 'u' && w == 4) || (letter == 'U' && w == 8)
    requires c as int < Pow16(w)
    ensures ReadBody(['\\', letter] + Hex(c as int, w) + rest, q) == Prepend(c, ReadBody(rest, q))
  {
    var s := ['\\', letter] + Hex(c as int, w) + rest;
    assert s[0] == '\\' && s[1..] == [letter] + Hex(c as int, w) + rest;
    ReadEscapeOfHex(c, letter, w, rest);
  }

  lemma ReadCodeEscapeChar(c: char, q: char, rest: string)
    requires q == '\'' || q == '"'
    requires c != q && c != '\\' && c != '\t' && c != '\n' && c != '\r' && !Printable(c)
    ensures ReadBody(EscapeChar(c, q) + rest, q) == Prepend(c, ReadBody(rest, q))
  {
    if c as int < 0x100 {
      assert Pow16(2) == 0x100;
      ReadHexEscape(c, q, 'x', 2, rest);
    } else if c as int < 0x1_0000 {
      assert Pow16(4) == 0x1_0000;
      ReadHexEscape(c, q, 'u', 4, rest);
    } else {
      assert Pow16(8) == 0x1_0000_0000;
      ReadHexEscape(c, q, 'U', 8, rest);
    }
  }

  /** One escaped character reads back as itself, and never starts with the closing
      quote. */
  lemma ReadEscapeChar(c: char, q: char, rest: string)
    requires q == '\'' || q == '"'
    ensures EscapeChar(c, q)[0] != q
    ensures ReadBody(EscapeChar(c, q) + rest, q) == Prepend(c, ReadBody(rest, q))
  {
    if c == q || c == '\\' || c == '\t' || c == '\n' || c == '\r' {
      ReadTwoCharEscape(c, q, rest);
    } else if Printable(c) {
      assert (EscapeChar(c, q) + rest)[1..] == rest;
    } else {
      ReadCodeEscapeChar(c, q, rest);
    }
  }

  /** The escaped text followed by its closing quote reads back as the text. */
  lemma {:induction false} ReadBodyOfEscape(x: string, q: char, rest: string)
    requires q == '\'' || q == '"'
    ensures ReadBody(Escape(x, q) + [q] + rest, q) == Some((x, rest))
    decreases |x|
  {
    if x == [] {
      assert (Escape(x, q) + [q] + rest)[1..] == rest;
    } else {
      var tail := Escape(x[1..], q) + [q] + rest;
      ReadBodyOfEscape(x[1..], q, rest);
      ReadEscapeChar(x[0], q, tail);
      assert Escape(x, q) == EscapeChar(x[0], q) + Escape(x[1..], q);
      Reassociate(EscapeChar(x[0], q), Escape(x[1..], q), [q], rest);
      assert [x[0]] + x[1..] == x;
    }
  }

  lemma Reassociate(a: string, b: string, c: string, d: string)
    ensures a + b + c + d == a + (b + c + d) == a + (b + (c + d))
  {
  }

  /** A string's `repr` reads back as the string. */
  lemma ReadStrOfRepr(x: string, rest: string)
    ensures ReadStr(StrRepr(x) + rest) == Some((x, rest))
  {
    var q := QuoteFor(x);
    var s := StrRepr(x) + rest;
    assert s[1..] == Escape(x, q) + [q] + rest;
    ReadBodyOfEscape(x, q, rest);
  }

  /** The items of a longer list: the first literal, a comma and blank, then the rest. */
  lemma ReprsCons(xs: seq<string>)
    requires |xs| > 1
    ensures JoinWith(StrReprs(xs), ", ") + "]" ==
      StrRepr(xs[0]) + (", " + (JoinWith(StrReprs(xs[1..]), ", ") + "]"))
  {
    var more := StrReprs(xs[1..]);
    JoinCons(StrRepr(xs[0]), more, ", ");
    Reassociate(StrRepr(xs[0]), ", ", JoinWith(more, ", "), "]");
  }

  lemma {:induction false} ReadItemsOfRepr(xs: seq<string>)
    requires xs != []
    ensures ReadItems(JoinWith(StrReprs(xs), ", ") + "]") == Some(xs)
  {
    var rs := StrReprs(xs);
    if |xs| == 1 {
      assert JoinWith(rs, ", ") == StrRepr(xs[0]);
      ReadStrOfRepr(xs[0], "]");
      assert xs == [xs[0]];
    } else {
      var more := JoinWith(StrReprs(xs[1..]), ", ") + "]";
      ReprsCons(xs);
      ReadStrOfRepr(xs[0], ", " + more);
      assert (", " + more)[2..] == more;
      ReadItemsOfRepr(xs[1..]);
      assert [xs[0]] + xs[1..] == xs;
    }
  }

  /** A list of strings' `repr` reads back as the list: the generated declaration names
      exactly the columns it was given, in order. */
  lemma ReadListOfRepr(xs: seq<string>)
    ensures ReadList(ListRepr(xs)) == Some(xs)
  {
    if xs == [] {
      assert ListRepr(xs) == "[]";
    } else {
      var s := ListRepr(xs);
      ReadItemsOfRepr(xs);
      assert s[1..] == JoinWith(StrReprs(xs), ", ") + "]";
      assert s != "[]" by {
        var r := StrRepr(xs[0]);
        assert |JoinWith(StrReprs(xs), ", ")| >= |r| by {
          if |xs| > 1 {
            JoinCons(r, StrReprs(xs[1..]), ", ");
            assert StrReprs(xs) == [r] + StrReprs(xs[1..]);
          }
        }
      }
    }
  }

  /** Text of printable characters with no backslash and no quote `q` is written as is. */
  lemma {:induction false} EscapePlain(s: string, q: char)
    requires forall i | 0 <= i < |s| :: Printable(s[i]) && s[i] != q && s[i] != '\\'
    ensures Escape(s, q) == s
  {
    if s != [] {
      EscapePlain(s[1..], q);
      assert [s[0]] + s[1..] == s;
    }
  }

  /** A column name of printable characters without quote or backslash, such as
      `Debit Amt`, is written between single quotes and otherwise unchanged. */
  lemma PlainRepr(s: string)
    requires forall i | 0 <= i < |s| :: Printable(s[i]) && s[i] != '\'' && s[i] != '\\'
    ensures StrRepr(s) == "'" + s + "'"
  {
    EscapePlain(s, '\'');
  }
}
