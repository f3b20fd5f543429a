/**
 * The text Groff writes into its groff/tbl/mm input file: the column format
 * of a table and its column count, cells, rows, the title rule, the
 * defaults block and the page header macro.
 */
module GroffText {
  import opened Wrappers
  import opened Strings

  /** The tbl column separator, Java's "\f" (form feed). */
  const Delim: char := '\U{000C}'

  /** The string that prefixes a row to be shaded gray (the `Y` string defined
      in the defaults block). */
  const GrayMark: string := "\\*Y"

  /** Opening and closing of a tbl text block, used for cells that may wrap. */
  const BlockOpen: string := "T{\n"
  const BlockClose: string := "\nT}"

  // ----- String.trim and the column format -----

  /** The characters String.trim() removes: every one up to U+0020. */
  predicate IsWhite(c: char) {
    c <= ' '
  }

  function TrimStart(s: string): (r: string)
    ensures |r| <= |s| && r == s[|s| - |r|..]
    ensures r == [] || !IsWhite(r[0])
    ensures forall i :: 0 <= i < |s| - |r| ==> IsWhite(s[i])
  {
    if |s| > 0 && IsWhite(s[0]) then TrimStart(s[1..]) else s
  }

  function TrimEnd(s: string): (r: string)
    ensures |r| <= |s| && r == s[..|r|]
    ensures r == [] || !IsWhite(r[|r| - 1])
    ensures forall i :: |r| <= i < |s| ==> IsWhite(s[i])
  {
    if |s| > 0 && IsWhite(s[|s| - 1]) then TrimEnd(s[..|s| - 1]) else s
  }

  /** `s.trim()`: `s` with the white characters at both ends removed. */
  function Trim(s: string): (r: string)
    ensures r == [] || (!IsWhite(r[0]) && !IsWhite(r[|r| - 1]))
    ensures |r| <= |s|
  {
    TrimEnd(TrimStart(s))
  }

  predicate AllWhite(s: string) {
    forall i :: 0 <= i < |s| ==> IsWhite(s[i])
  }

  /** Trim removes white characters only: what it keeps is the slice of `s`
      starting where `TrimStart` does, and everything before and after that
      slice is white. */
  lemma {:induction false} TrimSlice(s: string)
    ensures var a := |s| - |TrimStart(s)|; var r := Trim(s);
            && a + |r| <= |s| && r == s[a..a + |r|]
            && AllWhite(s[..a]) && AllWhite(s[a + |r|..])
  {
    TrimKeepsSlice(s);
    TrimDropsWhiteBefore(s);
    TrimDropsWhiteAfter(s);
  }

  lemma {:induction false} TrimKeepsSlice(s: string)
    ensures var a := |s| - |TrimStart(s)|; var r := Trim(s);
            a + |r| <= |s| && r == s[a..a + |r|]
  {
    var t := TrimStart(s);
    SliceOfSuffix(s, |s| - |t|, |TrimEnd(t)|);
  }

  lemma {:induction false} TrimDropsWhiteBefore(s: string)
    ensures AllWhite(s[..|s| - |TrimStart(s)|])
  {
    AllWhitePrefix(s, |s| - |TrimStart(s)|);
  }

  lemma {:induction false} TrimDropsWhiteAfter(s: string)
    ensures var a := |s| - |TrimStart(s)|; var r := Trim(s);
            a + |r| <= |s| && AllWhite(s[a + |r|..])
  {
    var t := TrimStart(s);
    var r := TrimEnd(t);
    SliceOfSuffix(s, |s| - |t|, |r|);
    AllWhiteSuffix(t, |r|);
  }

  /** Slicing the suffix `s[a..]` at `k` slices `s` at `a + k`. */
  lemma {:induction false} SliceOfSuffix(s: string, a: nat, k: nat)
    requires a + k <= |s|
    ensures s[a..][..k] == s[a..a + k] && s[a..][k..] == s[a + k..]
  {
  }

  lemma {:induction false} AllWhitePrefix(s: string, a: nat)
    requires a <= |s|
    requires forall i :: 0 <= i < a ==> IsWhite(s[i])
    ensures AllWhite(s[..a])
  {
    forall i | 0 <= i < a ensures IsWhite(s[..a][i]) {
      assert s[..a][i] == s[i];
    }
  }

  lemma {:induction false} AllWhiteSuffix(t: string, k: nat)
    requires k <= |t|
    requires forall i :: k <= i < |t| ==> IsWhite(t[i])
    ensures AllWhite(t[k..])
  {
    var w := t[k..];
    forall i | 0 <= i < |w| ensures IsWhite(w[i]) {
      assert w[i] == t[k + i];
    }
  }

  /** A string with no white character at either end is its own trim. */
  lemma TrimKeeps(s: string)
    requires s == [] || (!IsWhite(s[0]) && !IsWhite(s[|s| - 1]))
    ensures Trim(s) == s
  {
  }

  /** The string without its spaces. */
  function WithoutSpaces(s: string): (r: string)
    ensures ' ' !in r
    ensures |r| <= |s|
  {
    if |s| == 0 then ""
    else (if s[0] == ' ' then "" else [s[0]]) + WithoutSpaces(s[1..])
  }

  /** Two spaces side by side somewhere in `s`. */
  predicate HasSpacePair(s: string) {
    exists i :: 0 <= i < |s| - 1 && s[i] == ' ' && s[i + 1] == ' '
  }

  /** `s.replaceAll(" {2}", " ")`: scanning from the left, every pair of
      spaces becomes one space (so a run of k spaces keeps ceil(k/2)). */
  function CollapseSpacePairs(s: string): (r: string)
    ensures |r| <= |s|
  {
    if |s| >= 2 && s[0] == ' ' && s[1] == ' ' then
      " " + CollapseSpacePairs(s[2..])
    else if |s| == 0 then ""
    else [s[0]] + CollapseSpacePairs(s[1..])
  }

  /** A string with no two adjacent spaces is left unchanged by the
      collapse. */
  lemma {:induction false} CollapseKeepsUnpaired(s: string)
    requires !HasSpacePair(s)
    ensures CollapseSpacePairs(s) == s
    decreases |s|
  {
    if |s| > 0 {
      assert !(|s| >= 2 && s[0] == ' ' && s[1] == ' ');
      assert !HasSpacePair(s[1..]) by {
        forall i | 0 <= i < |s[1..]| - 1
          ensures !(s[1..][i] == ' ' && s[1..][i + 1] == ' ')
        {
          assert s[1..][i] == s[i + 1] && s[1..][i + 1] == s[i + 2];
        }
      }
      CollapseKeepsUnpaired(s[1..]);
    }
  }

  /** The number of spaces: `s.replaceAll("[^ ]", "").length()`. */
  function Spaces(s: string): (n: nat)
    ensures n <= |s|
  {
    Occurrences(s, ' ')
  }

  /** The column format `startTable` writes: trimmed, pairs of spaces
      collapsed once, and a final "." added when missing. */
  function TableFormat(colFmt: string): (r: string)
    ensures |r| > 0 && r[|r| - 1] == '.'
  {
    var f := CollapseSpacePairs(Trim(colFmt));
    if EndsWith(f, ".") then f else f + "."
  }

  /** Collapsing space pairs removes spaces only. */
  lemma {:induction false} CollapseKeepsNonSpaces(s: string)
    ensures WithoutSpaces(CollapseSpacePairs(s)) == WithoutSpaces(s)
    decreases |s|
  {
    if |s| >= 2 && s[0] == ' ' && s[1] == ' ' {
      CollapseKeepsNonSpaces(s[2..]);
      assert (" " + CollapseSpacePairs(s[2..]))[1..] == CollapseSpacePairs(s[2..]);
      assert s[1..][1..] == s[2..];
    } else if |s| > 0 {
      CollapseKeepsNonSpaces(s[1..]);
      assert ([s[0]] + CollapseSpacePairs(s[1..]))[1..] == CollapseSpacePairs(s[1..]);
    }
  }

  /** The format line keeps every non-space character of the trimmed
      argument, in order, with at most a "." added at the end. */
  lemma TableFormatKeepsKeys(colFmt: string)
    ensures var t := WithoutSpaces(Trim(colFmt));
            WithoutSpaces(TableFormat(colFmt)) == t || WithoutSpaces(TableFormat(colFmt)) == t + "."
  {
    var f := CollapseSpacePairs(Trim(colFmt));
    CollapseKeepsNonSpaces(Trim(colFmt));
    WithoutSpacesAppend(f, ".");
  }

  lemma {:induction false} WithoutSpacesAppend(a: string, b: string)
    ensures WithoutSpaces(a + b) == WithoutSpaces(a) + WithoutSpaces(b)
    decreases |a|
  {
    if |a| > 0 {
      assert (a + b)[1..] == a[1..] + b;
      WithoutSpacesAppend(a[1..], b);
    } else {
      assert a + b == b;
    }
  }

  /** `numberOfColumns` as `startTable` computes it from its argument: one
      more than the spaces left in the written format after a second
      collapse of space pairs.  The source also trims the format a second
      time; `ColumnCountAsWritten` shows that trim changes nothing. */
  function ColumnCount(colFmt: string): (n: int)
    ensures n >= 1
  {
    1 + Spaces(CollapseSpacePairs(TableFormat(colFmt)))
  }

  /** Collapsing keeps a first character that is not a space. */
  lemma CollapseKeepsFirst(s: string)
    requires s != [] && s[0] != ' '
    ensures CollapseSpacePairs(s) != [] && CollapseSpacePairs(s)[0] == s[0]
  {
  }

  /** The written format is already trimmed. */
  lemma TableFormatTrimmed(colFmt: string)
    ensures Trim(TableFormat(colFmt)) == TableFormat(colFmt)
  {
    var t := Trim(colFmt);
    var f := CollapseSpacePairs(t);
    if t != [] {
      assert t[0] != ' ' by { assert !IsWhite(t[0]); }
      CollapseKeepsFirst(t);
    }
    var r := TableFormat(colFmt);
    assert r[|r| - 1] == r[|r| - 1..][0] == '.';
    assert r[0] == '.' || r[0] == f[0];
    TrimKeeps(r);
  }

  /** The column count with the source's second trim put back. */
  lemma ColumnCountAsWritten(colFmt: string)
    ensures ColumnCount(colFmt) == 1 + Spaces(CollapseSpacePairs(Trim(TableFormat(colFmt))))
  {
    TableFormatTrimmed(colFmt);
  }

  /** A string whose words are separated by single spaces and which has no
      other white character. */
  predicate SingleSpaced(s: string) {
    && |s| >= 1
    && !IsWhite(s[0]) && !IsWhite(s[|s| - 1])
    && (forall i :: 0 <= i < |s| && IsWhite(s[i]) ==> s[i] == ' ')
    && !HasSpacePair(s)
  }

  predicate IsWord(w: string) {
    |w| >= 1 && forall i :: 0 <= i < |w| ==> !IsWhite(w[i])
  }

  lemma {:induction false} JoinSingleSpaced(words: seq<string>)
    requires |words| >= 1
    requires forall i :: 0 <= i < |words| ==> IsWord(words[i])
    ensures SingleSpaced(Join(words, " "))
    decreases |words|
  {
    if |words| > 1 {
      var init := words[..|words| - 1];
      var last := words[|words| - 1];
      JoinSingleSpaced(init);
      var a := Join(init, " ");
      var s := Join(words, " ");
      assert s == a + " " + last;
      assert s[0] == a[0];
      assert s[|s| - 1] == last[|last| - 1];
      assert forall i :: |a| < i < |s| ==> s[i] == last[i - |a| - 1];
      assert forall i :: 0 <= i < |a| ==> s[i] == a[i];
    }
  }

  /** Trimming and collapsing leave a single-spaced string alone. */
  lemma SingleSpacedIsFixed(s: string)
    requires SingleSpaced(s)
    ensures CollapseSpacePairs(Trim(s)) == s
  {
    TrimKeeps(s);
    CollapseKeepsUnpaired(s);
  }

  /** `startTable`'s first pass keeps a single-spaced format single-spaced
      and adds no space. */
  lemma {:induction false} TableFormatOfSingleSpaced(s: string)
    requires SingleSpaced(s)
    ensures SingleSpaced(TableFormat(s))
    ensures Spaces(TableFormat(s)) == Spaces(s)
  {
    SingleSpacedIsFixed(s);
    var t := TableFormat(s);
    if t != s {
      assert t == s + ".";
      SingleSpacedDot(s);
      OccurrencesAppend(s, ".", ' ');
      assert Occurrences(".", ' ') == 0;
    }
  }

  /** Adding a final "." keeps a string single-spaced. */
  lemma {:induction false} SingleSpacedDot(s: string)
    requires SingleSpaced(s)
    ensures SingleSpaced(s + ".")
  {
    var t := s + ".";
    assert forall i :: 0 <= i < |s| ==> t[i] == s[i];
    assert !HasSpacePair(t) by {
      forall i | 0 <= i < |t| - 1
        ensures !(t[i] == ' ' && t[i + 1] == ' ')
      {
        if i + 1 == |s| {
          assert t[i + 1] == '.';
        } else {
          assert !(s[i] == ' ' && s[i + 1] == ' ');
        }
      }
    }
  }

  /** Keys joined by single spaces hold one space fewer than keys. */
  lemma KeysSpaces(keys: seq<string>)
    requires |keys| >= 1
    requires forall i :: 0 <= i < |keys| ==> IsWord(keys[i])
    ensures Spaces(Join(keys, " ")) == |keys| - 1
  {
    JoinOccurrences(keys, ' ');
  }

  /** A format such as "l r c" or "l r c." -- column keys separated by
      single spaces -- gives one column per key. */
  lemma {:induction false} ColumnCountOfKeys(keys: seq<string>)
    requires |keys| >= 1
    requires forall i :: 0 <= i < |keys| ==> IsWord(keys[i])
    ensures ColumnCount(Join(keys, " ")) == |keys|
  {
    var s := Join(keys, " ");
    JoinSingleSpaced(keys);
    TableFormatOfSingleSpaced(s);
    SingleSpacedIsFixed(TableFormat(s));
    TrimKeeps(TableFormat(s));
    KeysSpaces(keys);
  }

  // ----- Decimal numbers -----

  function DigitChar(d: nat): (c: char)
    requires d < 10
    ensures '0' <= c <= '9'
    ensures c as int - '0' as int == d
  {
    ('0' as int + d) as char
  }

  predicate IsDigits(s: string) {
    forall i :: 0 <= i < |s| ==> '0' <= s[i] <= '9'
  }

  /** The value of a string of decimal digits. */
  function DecimalValue(s: string): nat
    requires IsDigits(s)
  {
    if |s| == 0 then 0
    else 10 * DecimalValue(s[..|s| - 1]) + (s[|s| - 1] as int - '0' as int)
  }

  /** Java's decimal rendering of a non-negative int. */
  function NatToString(n: nat): (r: string)
    ensures |r| >= 1 && IsDigits(r)
    ensures n > 0 ==> r[0] != '0'
  {
    if n < 10 then [DigitChar(n)] else NatToString(n / 10) + [DigitChar(n % 10)]
  }

  lemma {:induction false} NatToStringRoundTrip(n: nat)
    ensures DecimalValue(NatToString(n)) == n
    decreases n
  {
    var r := NatToString(n);
    if n >= 10 {
      NatToStringRoundTrip(n / 10);
      assert r[..|r| - 1] == NatToString(n / 10);
    }
  }

  // ----- Cells, rows and lines -----

  /** The text `columnWrap` appends for a cell: a null cell adds nothing,
      a cell longer than three characters is wrapped in a text block. */
  function WrappedCell(col: Option<string>): (r: string)
    ensures col.None? ==> r == ""
    ensures col.Some? && |col.value| > 3 ==>
              (&& |r| == |BlockOpen| + |col.value| + |BlockClose|
               && StartsWith(r, BlockOpen) && EndsWith(r, BlockClose)
               && r[|BlockOpen|..|r| - |BlockClose|] == col.value)
    ensures col.Some? && |col.value| <= 3 ==> r == col.value
  {
    match col
    case None => ""
    case Some(c) => if |c| > 3 then BlockOpen + c + BlockClose else c
  }

  /** `n` empty cells, the padding `endRow` adds. */
  function Blanks(n: nat): (r: seq<string>)
    ensures |r| == n
    ensures forall i :: 0 <= i < n ==> r[i] == ""
  {
    seq(n, _ => "")
  }

  /** The marker that shades a row, or nothing. */
  function Shade(shaded: bool): (r: string)
    ensures shaded ==> r == GrayMark
    ensures !shaded ==> r == ""
  {
    if shaded then GrayMark else ""
  }

  /** A row as `flush` writes it: the marker when shaded, the row, a newline. */
  function RowLine(row: string, shaded: bool): string {
    Shade(shaded) + row + "\n"
  }

  /** The last row as `endTable` writes it: a row that opens with a text
      block gets the marker after the block opening. */
  function PendingRow(row: string, shaded: bool): string {
    if StartsWith(row, BlockOpen) then BlockOpen + Shade(shaded) + row[|BlockOpen|..] + "\n"
    else RowLine(row, shaded)
  }

  /** Unshaded, the last row is written unchanged; shaded, the marker is the
      only addition, placed at the start or right after a leading block
      opening. */
  lemma PendingRowContent(row: string, shaded: bool)
    ensures !shaded ==> PendingRow(row, shaded) == row + "\n"
    ensures shaded && !StartsWith(row, BlockOpen) ==> PendingRow(row, shaded) == GrayMark + row + "\n"
    ensures shaded && StartsWith(row, BlockOpen) ==>
              PendingRow(row, shaded) == BlockOpen + GrayMark + row[|BlockOpen|..] + "\n"
    ensures |PendingRow(row, shaded)| == |row| + 1 + (if shaded then |GrayMark| else 0)
  {
    if StartsWith(row, BlockOpen) {
      assert row == BlockOpen + row[|BlockOpen|..];
    }
  }

  /** The rule `endTitle` writes under the title row: `n` `\_` cells. */
  function TitleRule(n: nat): string {
    Join(seq(n, _ => "\\_"), [Delim])
  }

  lemma {:induction false} JoinLength(cells: seq<string>, n: nat)
    requires |cells| == n >= 1
    requires forall i :: 0 <= i < n ==> cells[i] == "\\_"
    ensures |Join(cells, [Delim])| == 3 * n - 1
    decreases n
  {
    if n > 1 {
      JoinLength(cells[..n - 1], n - 1);
    }
  }

  /** The title rule has one underline cell per column, separated by
      `n - 1` delimiters. */
  lemma TitleRuleShape(n: nat)
    requires n >= 1
    ensures Occurrences(TitleRule(n), Delim) == n - 1
    ensures |TitleRule(n)| == 3 * n - 1
  {
    var cells := seq(n, _ => "\\_");
    assert forall i :: 0 <= i < n ==> Delim !in cells[i];
    JoinOccurrences(cells, Delim);
    JoinLength(cells, n);
  }

  /** Appending one underline cell to the rule. */
  lemma TitleRuleSnoc(i: nat)
    ensures TitleRule(i + 1) == TitleRule(i) + (if i == 0 then "" else [Delim]) + "\\_"
  {
    var f := (_: int) => "\\_";
    assert seq(i + 1, f) == seq(i, f) + ["\\_"];
    JoinSnoc(seq(i, f), "\\_", [Delim]);
  }

  /** A padded row: the cells so far plus empty cells up to `n`. */
  lemma PaddedRowDelimiters(cells: seq<string>, n: nat)
    requires 1 <= n && |cells| <= n
    requires forall i :: 0 <= i < |cells| ==> Delim !in cells[i]
    ensures Occurrences(Join(cells + Blanks(n - |cells|), [Delim]), Delim) == n - 1
  {
    var all := cells + Blanks(n - |cells|);
    forall i | 0 <= i < |all|
      ensures Delim !in all[i]
    {
      if i >= |cells| { assert all[i] == ""; } else { assert all[i] == cells[i]; }
    }
    JoinOccurrences(all, Delim);
  }

  /** What `out` writes for its argument: the line, or nothing for null. */
  function LineText(str: Option<string>): (r: string)
    ensures str.None? ==> r == ""
    ensures str.Some? ==> |r| == |str.value| + 1 && r[..|str.value|] == str.value && r[|str.value|] == '\n'
  {
    if str.Some? then str.value + "\n" else ""
  }

  /** Lines written with println, one after another. */
  function Lines(ls: seq<string>): (r: string)
    ensures |r| >= |ls|
  {
    if |ls| == 0 then "" else Lines(ls[..|ls| - 1]) + ls[|ls| - 1] + "\n"
  }

  lemma LinesPrefix(ls: seq<string>, i: nat)
    requires i < |ls|
    ensures Lines(ls[..i + 1]) == Lines(ls[..i]) + ls[i] + "\n"
  {
    assert ls[..i + 1][..i] == ls[..i];
  }

  /** Each line is terminated by exactly one newline of its own. */
  lemma {:induction false} LinesNewlines(ls: seq<string>)
    requires forall i :: 0 <= i < |ls| ==> '\n' !in ls[i]
    ensures Occurrences(Lines(ls), '\n') == |ls|
    decreases |ls|
  {
    if |ls| > 0 {
      var init := ls[..|ls| - 1];
      LinesNewlines(init);
      OccurrencesAppend(Lines(init), ls[|ls| - 1], '\n');
      OccurrencesAppend(Lines(init) + ls[|ls| - 1], "\n", '\n');
      assert Occurrences("\n", '\n') == 1;
    }
  }

  // ----- Page set-up -----

  /** The first line `setDefaults` writes: an empty page header. */
  const NoPageHeader: string := ".PH \"''''\"\n"

  /** The page footer macro: left text, the page number, right text. */
  function FooterMacro(footerLeft: string, footerRight: string): string {
    ".PF \"'" + footerLeft + "'Page \\\\\\\\nP'" + footerRight + "'\"\n"
  }

  /** The rest of the defaults block: point size, no-fill, and the `Y`
      string that draws the gray band behind a row. */
  const PageSetup: string :=
    ".S 11\n"
    + "'nf\n"
    + ".\\\" ----------------------------------------------------------------\n"
    + ".defcolor lightgray gray 0.95\n"
    + ".fcolor lightgray\n"
    + ".nr TW 0\n"
    + ".nr LW 0.2p\n"
    + ".ds Y \\Z'\\h'-\\\\n[LW]u'\\v'0.22v'\\D'P 0 -.9v 2u*\\\\n[LW]u+\\\\n[TW]u 0 0 .9v''\n"
    + ".\\\" ----------------------------------------------------------------\n"

  /** The `'tl` line of the page header: the run date when one was set, the
      clock's date when none was, and no line for an empty run date. */
  function RunDateLine(runDate: Option<string>, clock: string): (r: string)
    ensures runDate.None? ==> r == "'tl '''" + clock + "'\n"
    ensures runDate.Some? && runDate.value != "" ==> r == "'tl '''" + runDate.value + "'\n"
    ensures runDate == Some("") ==> r == ""
  {
    match runDate
    case None => "'tl '''" + clock + "'\n"
    case Some(d) => if d == "" then "" else "'tl '''" + d + "'\n"
  }

  /** The opening of the `TP` macro and its top space. */
  const HeaderStart: string := ".de TP\n" + "'SP .5i\n"

  /** The request to center the next `count` lines. */
  function CenterRequest(count: nat): string {
    "'ce " + NatToString(count) + "\n"
  }

  /** The closing of the `TP` macro. */
  const HeaderEnd: string := "'SP\n" + "..\n"

  /** The part of the `TP` macro before the centered lines. */
  function PageHeaderOpen(runDate: Option<string>, clock: string, count: nat): string {
    HeaderStart + RunDateLine(runDate, clock) + CenterRequest(count)
  }

  /** The `TP` macro `writePageHeader` defines: the title and every added
      title line, centered. */
  function PageHeaderText(title: string, runDate: Option<string>, clock: string,
                          titleLines: seq<string>): string
  {
    var centered := [title] + titleLines;
    PageHeaderOpen(runDate, clock, |centered|) + Lines(centered) + HeaderEnd
  }

  /** The number on the `'ce` request reads back as the number of lines
      between it and the closing `'SP`, as long as no title line holds a
      line break of its own. */
  lemma PageHeaderCentersTitleLines(title: string, titleLines: seq<string>)
    requires '\n' !in title
    requires forall i :: 0 <= i < |titleLines| ==> '\n' !in titleLines[i]
    ensures var centered := [title] + titleLines;
            && DecimalValue(NatToString(|centered|)) == |centered|
            && Occurrences(Lines(centered), '\n') == |centered|
  {
    var centered := [title] + titleLines;
    NatToStringRoundTrip(|centered|);
    assert forall i :: 0 <= i < |centered| ==> '\n' !in centered[i] by {
      forall i | 0 <= i < |centered|
        ensures '\n' !in centered[i]
      {
        if i > 0 {
          assert centered[i] == titleLines[i - 1];
        }
      }
    }
    LinesNewlines(centered);
  }

  // ----- File names -----

  /** `pdfName.replaceAll("\\.pdf$", ".mm")`. */
  function MmName(pdfName: string): (r: string)
    ensures EndsWith(pdfName, ".pdf") ==>
              (&& EndsWith(r, ".mm") && |r| == |pdfName| - 1
               && r[..|r| - 3] == pdfName[..|pdfName| - 4])
    ensures !EndsWith(pdfName, ".pdf") ==> r == pdfName
  {
    if EndsWith(pdfName, ".pdf") then pdfName[..|pdfName| - 4] + ".mm" else pdfName
  }

  /** Distinct report files get distinct groff input files. */
  lemma MmNameInjective(a: string, b: string)
    requires EndsWith(a, ".pdf") && EndsWith(b, ".pdf")
    requires MmName(a) == MmName(b)
    ensures a == b
  {
    assert a == a[..|a| - 4] + ".pdf";
    assert b == b[..|b| - 4] + ".pdf";
  }
}
