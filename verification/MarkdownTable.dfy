// The Markdown row splitter and the spreadsheet cell references of the project-table script.

module MarkdownRows {
  import opened Prelude
  import opened Texts

  /** The number of backticks a text begins with. */
  function TickRun(text: string): (n: nat)
    ensures n <= |text|
    ensures forall i :: 0 <= i < n ==> text[i] == '`'
    ensures n < |text| ==> text[n] != '`'
  {
    if text == "" || text[0] != '`' then 0 else 1 + TickRun(text[1..])
  }

  /** A run of backticks opens a code span, closes one of the same length, or is text inside one. */
  function TicksThen(open: nat, run: nat): nat {
    if open == 0 then run else if open == run then 0 else open
  }

  /** The cells of the rest of a row, given the code span it starts in and the cell read so far. */
  function Cells(text: string, ticks: nat, cell: string): (cells: seq<string>)
    ensures cells != []
    decreases |text|
  {
    if text == "" then [cell]
    else if text[0] == '\\' && |text| > 1 && text[1] == '|' then Cells(text[2..], ticks, cell + "|")
    else if text[0] == '`' then
      var n := TickRun(text);
      Cells(text[n..], TicksThen(ticks, n), cell + text[..n])
    else if text[0] == '|' && ticks == 0 then [cell] + Cells(text[1..], 0, "")
    else Cells(text[1..], ticks, cell + [text[0]])
  }

  function DropFirstPipe(text: string): string {
    if text != "" && text[0] == '|' then text[1..] else text
  }

  predicate EndsWithBackslash(text: string) {
    text != "" && text[|text| - 1] == '\\'
  }

  function DropLastPipe(text: string): string {
    if text != "" && text[|text| - 1] == '|' && !EndsWithBackslash(text[..|text| - 1]) then text[..|text| - 1] else text
  }

  function Split(line: string): seq<string> {
    Cells(DropLastPipe(DropFirstPipe(Strip(line))), 0, "")
  }

  /** The text between the outer pipes. */
  method InnerText(line: string) returns (text: string)
    ensures text == DropLastPipe(DropFirstPipe(Strip(line)))
  {
    text := Strip(line);
    if text != "" && text[0] == '|' {
      text := text[1..];
    }
    if text != "" && text[|text| - 1] == '|' && !EndsWithBackslash(text[..|text| - 1]) {
      text := text[..|text| - 1];
    }
  }

  /** `split_markdown_row`. */
  method SplitMarkdownRow(line: string) returns (cells: seq<string>)
    ensures cells == Split(line)
  {
    var text := InnerText(line);
    cells := [];
    var cell, index := "", 0;
    var codeTicks: nat := 0;
    ghost var goal := Split(line);
    assert text[0..] == text;
    assert cells + Cells(text[0..], 0, "") == goal;
    hide Split, Cells, TickRun, Strip, DropFirstPipe, DropLastPipe, EndsWithBackslash;
    while index < |text|
      invariant 0 <= index <= |text|
      invariant cells + Cells(text[index..], codeTicks, cell) == goal
      decreases |text| - index
    {
      var ends;
      ends, index, codeTicks, cell := ReadNext(text, index, codeTicks, cell);
      if ends {
        Regrouped(cells, cell, Cells(text[index..], codeTicks, ""));
        cells := cells + [cell];
        cell := "";
      }
    }
    cells := cells + [cell];
    CellsEnd(text[index..], codeTicks, cell);
  }

  /** One turn of the loop: a separator that ends the cell, or what is added to it. */
  method ReadNext(text: string, index: nat, ticks: nat, before: string)
    returns (ends: bool, next: nat, codeTicks: nat, cell: string)
    requires index < |text|
    ensures index < next <= |text|
    ensures Cells(text[index..], ticks, before) ==
      if ends then [cell] + Cells(text[next..], codeTicks, "") else Cells(text[next..], codeTicks, cell)
  {
    ghost var rest := text[index..];
    var c := text[index];
    CellsStep(rest, ticks, before);
    hide Cells, TickRun;
    ends, next, codeTicks, cell := false, index + 1, ticks, before;
    if c == '\\' && index + 1 < |text| && text[index + 1] == '|' {
      next := index + 2;
      cell := before + "|";
    } else if c == '`' {
      next := EndOfRun(text, index);
      if codeTicks == 0 {
        codeTicks := next - index;
      } else if codeTicks == next - index {
        codeTicks := 0;
      }
      cell := before + text[index..next];
    } else if c == '|' && codeTicks == 0 {
      ends := true;
    } else {
      cell := before + [c];
    }
    Slices(text, index, next);
  }

  lemma Slices(text: string, i: nat, j: nat)
    requires i <= j <= |text|
    ensures text[i..j] == text[i..][..j - i] && text[j..] == text[i..][j - i..]
  {
  }

  lemma Regrouped(a: seq<string>, cell: string, b: seq<string>)
    ensures a + ([cell] + b) == a + [cell] + b
  {
  }

  /** Where the run of backticks ends that starts at an index. */
  method EndOfRun(text: string, index: nat) returns (end: nat)
    requires index < |text| && text[index] == '`'
    ensures index < end <= |text| && end - index == TickRun(text[index..])
  {
    end := index + 1;
    while end < |text| && text[end] == '`'
      invariant index < end <= |text|
      invariant forall i :: index <= i < end ==> text[i] == '`'
    {
      end := end + 1;
    }
    RunIs(text[index..], end - index);
  }

  lemma CellsStep(text: string, ticks: nat, cell: string)
    requires text != ""
    ensures var n := TickRun(text);
            Cells(text, ticks, cell) ==
              if text[0] == '\\' && |text| > 1 && text[1] == '|' then Cells(text[2..], ticks, cell + "|")
              else if text[0] == '`' then Cells(text[n..], TicksThen(ticks, n), cell + text[..n])
              else if text[0] == '|' && ticks == 0 then [cell] + Cells(text[1..], 0, "")
              else Cells(text[1..], ticks, cell + [text[0]])
  {
  }

  lemma CellsEnd(text: string, ticks: nat, cell: string)
    ensures text == "" ==> Cells(text, ticks, cell) == [cell]
  {
  }

  lemma RunIs(text: string, n: nat)
    requires n <= |text| && (forall i :: 0 <= i < n ==> text[i] == '`') && (n < |text| ==> text[n] != '`')
    ensures TickRun(text) == n
  {
    var m := TickRun(text);
    assert !(m < n) && !(n < m);
  }

  // ---- Writing a row ----

  /** A cell with its pipes escaped. */
  function Escaped(cell: string): string {
    if cell == "" then "" else (if cell[0] == '|' then "\\|" else [cell[0]]) + Escaped(cell[1..])
  }

  function Body(cells: seq<string>): string
    requires cells != []
  {
    if |cells| == 1 then Escaped(cells[0]) else Escaped(cells[0]) + "|" + Body(cells[1..])
  }

  function Row(cells: seq<string>): string
    requires cells != []
  {
    "|" + Body(cells) + "|"
  }

  /** The code span that is open after a cell that begins in `ticks`. */
  function TicksAfter(cell: string, ticks: nat): nat
    decreases |cell|
  {
    if cell == "" then ticks
    else if cell[0] == '`' then TicksAfter(cell[TickRun(cell)..], TicksThen(ticks, TickRun(cell)))
    else TicksAfter(cell[1..], ticks)
  }

  /** No cell ends with a backslash, and every code span opened in a cell but the last is closed in it. */
  predicate Splittable(cells: seq<string>) {
    && (forall i :: 0 <= i < |cells| ==> !EndsWithBackslash(cells[i]))
    && forall i :: 0 <= i < |cells| - 1 ==> TicksAfter(cells[i], 0) == 0
  }

  // ---- Splitting reads back what was written ----

  lemma {:induction false} EscapedTicks(cell: string, n: nat)
    requires n <= |cell| && forall i :: 0 <= i < n ==> cell[i] == '`'
    ensures Escaped(cell) == cell[..n] + Escaped(cell[n..])
  {
    if n == 0 {
      assert cell[0..] == cell;
    } else {
      var rest := cell[1..];
      EscapedTicks(rest, n - 1);
      assert cell[..n] == ['`'] + rest[..n - 1] && cell[n..] == rest[n - 1..];
    }
  }

  lemma EscapedStart(cell: string)
    ensures Escaped(cell) == "" <==> cell == ""
    ensures cell != "" ==> Escaped(cell)[0] == if cell[0] == '|' then '\\' else cell[0]
  {
  }

  /** What may follow a written cell for the splitter to read the cell as it was. */
  predicate MayFollow(cell: string, rest: string) {
    rest == "" || (rest[0] != '`' && !(EndsWithBackslash(cell) && rest[0] == '|'))
  }

  lemma {:induction false} CellReadsBack(cell: string, rest: string, ticks: nat, before: string)
    requires MayFollow(cell, rest)
    ensures Cells(Escaped(cell) + rest, ticks, before) == Cells(rest, TicksAfter(cell, ticks), before + cell)
    decreases |cell|
  {
    if cell == "" {
      assert Escaped(cell) + rest == rest && before + cell == before;
    } else if cell[0] == '`' {
      TicksReadBack(cell, rest, ticks, before);
      CellReadsBack(cell[TickRun(cell)..], rest, TicksThen(ticks, TickRun(cell)), before + cell[..TickRun(cell)]);
      assert before + cell[..TickRun(cell)] + cell[TickRun(cell)..] == before + cell;
    } else {
      CharReadsBack(cell, rest, ticks, before);
      CellReadsBack(cell[1..], rest, ticks, before + [cell[0]]);
      assert before + [cell[0]] + cell[1..] == before + cell;
    }
  }

  lemma TicksReadBack(cell: string, rest: string, ticks: nat, before: string)
    requires MayFollow(cell, rest) && cell != "" && cell[0] == '`'
    ensures var n := TickRun(cell);
            Cells(Escaped(cell) + rest, ticks, before)
            == Cells(Escaped(cell[n..]) + rest, TicksThen(ticks, n), before + cell[..n])
  {
    var n := TickRun(cell);
    var tail := Escaped(cell[n..]) + rest;
    EscapedTicks(cell, n);
    EscapedStart(cell[n..]);
    var text := cell[..n] + tail;
    assert Escaped(cell) + rest == text;
    RunIs(text, n);
    assert text[n..] == tail && text[..n] == cell[..n] && text[0] == '`';
    hide Escaped, TickRun, TicksThen;
    assert Cells(text, ticks, before) == Cells(text[n..], TicksThen(ticks, n), before + text[..n]);
  }

  lemma CharReadsBack(cell: string, rest: string, ticks: nat, before: string)
    requires MayFollow(cell, rest) && cell != "" && cell[0] != '`'
    ensures Cells(Escaped(cell) + rest, ticks, before)
      == Cells(Escaped(cell[1..]) + rest, ticks, before + [cell[0]])
  {
    var tail := Escaped(cell[1..]) + rest;
    var piece := if cell[0] == '|' then "\\|" else [cell[0]];
    EscapedStart(cell[1..]);
    var text := piece + tail;
    assert Escaped(cell) + rest == text;
    assert text[|piece|..] == tail && text[0] == piece[0];
    assert cell[0] == '\\' && tail != "" ==> tail[0] != '|';
    hide Escaped, TickRun, TicksThen;
  }

  /** The first cell of a split begins with what was read before. */
  lemma {:induction false} FirstCellGrows(text: string, ticks: nat, cell: string)
    ensures cell <= Cells(text, ticks, cell)[0]
    decreases |text|
  {
    if text == "" {
    } else if text[0] == '\\' && |text| > 1 && text[1] == '|' {
      FirstCellGrows(text[2..], ticks, cell + "|");
    } else if text[0] == '`' {
      FirstCellGrows(text[TickRun(text)..], TicksThen(ticks, TickRun(text)), cell + text[..TickRun(text)]);
    } else if text[0] != '|' || ticks != 0 {
      FirstCellGrows(text[1..], ticks, cell + [text[0]]);
    }
  }

  /** A cell that ends with a backslash takes the following pipe for a part of it. */
  lemma BackslashSwallows(cell: string, rest: string)
    requires EndsWithBackslash(cell)
    ensures Cells(Escaped(cell) + "|" + rest, 0, "")[0] != cell
  {
    var head := cell[..|cell| - 1];
    EscapedEnd(cell);
    var tail := "\\|" + rest;
    assert Escaped(cell) + "|" + rest == Escaped(head) + tail;
    CellReadsBack(head, tail, 0, "");
    assert "" + head == head && tail[2..] == rest;
    FirstCellGrows(rest, TicksAfter(head, 0), head + "|");
    assert (head + "|")[|head|] != cell[|head|];
  }

  lemma {:induction false} EscapedEnd(cell: string)
    requires EndsWithBackslash(cell)
    ensures Escaped(cell) == Escaped(cell[..|cell| - 1]) + "\\"
  {
    if |cell| > 1 {
      EscapedEnd(cell[1..]);
      assert cell[1..][..|cell| - 2] == cell[..|cell| - 1][1..];
    } else {
      assert cell == "\\" && cell[1..] == "" && cell[..0] == "";
    }
  }

  lemma {:induction false} EscapedEndsAlike(cell: string)
    ensures EndsWithBackslash(Escaped(cell)) <==> EndsWithBackslash(cell)
  {
    if cell != "" {
      EscapedEndsAlike(cell[1..]);
      EscapedStart(cell[1..]);
    }
  }

  lemma {:induction false} BodyReadsBack(cells: seq<string>, tail: string)
    requires cells != [] && tail == if EndsWithBackslash(cells[|cells| - 1]) then "|" else ""
    ensures Cells(Body(cells) + tail, 0, "") == cells <==> Splittable(cells)
  {
    var cell := cells[0];
    if |cells| == 1 {
      if EndsWithBackslash(cell) {
        BackslashSwallows(cell, "");
        assert Escaped(cell) + "|" + "" == Body(cells) + tail;
      } else {
        CellReadsBack(cell, "", 0, "");
        assert Escaped(cell) + "" == Body(cells) + tail && "" + cell == cell;
        assert cells == [cell];
      }
    } else {
      var rest := Body(cells[1..]) + tail;
      assert Body(cells) + tail == Escaped(cell) + "|" + rest;
      if EndsWithBackslash(cell) {
        BackslashSwallows(cell, rest);
      } else {
        assert Escaped(cell) + "|" + rest == Escaped(cell) + ("|" + rest);
        CellReadsBack(cell, "|" + rest, 0, "");
        assert ("|" + rest)[1..] == rest && "" + cell == cell;
        SplittableSplit(cells);
        if TicksAfter(cell, 0) != 0 {
          FirstCellGrows(rest, TicksAfter(cell, 0), cell + "|");
        } else {
          BodyReadsBack(cells[1..], tail);
          assert cells == [cell] + cells[1..];
        }
      }
    }
  }

  lemma SplittableSplit(cells: seq<string>)
    requires |cells| > 1
    ensures Splittable(cells) <==>
      !EndsWithBackslash(cells[0]) && TicksAfter(cells[0], 0) == 0 && Splittable(cells[1..])
  {
    var rest := cells[1..];
    assert forall i :: 0 <= i < |rest| ==> rest[i] == cells[i + 1];
    if !EndsWithBackslash(cells[0]) && TicksAfter(cells[0], 0) == 0 && Splittable(rest) {
      forall i | 0 <= i < |cells|
        ensures !EndsWithBackslash(cells[i]) && (i < |cells| - 1 ==> TicksAfter(cells[i], 0) == 0)
      {
        if i > 0 {
          assert rest[i - 1] == cells[i];
        }
      }
    }
  }

  lemma {:induction false} BodyEnd(cells: seq<string>)
    requires cells != []
    ensures EndsWithBackslash(Body(cells)) <==> EndsWithBackslash(cells[|cells| - 1])
  {
    if |cells| == 1 {
      EscapedEndsAlike(cells[0]);
    } else {
      BodyEnd(cells[1..]);
    }
  }

  lemma NotStripped(text: string)
    requires |text| >= 2 && !IsSpace(text[0]) && !IsSpace(text[|text| - 1])
    ensures Strip(text) == text
  {
  }

  /** Splitting a written row gives its cells exactly when no cell ends with a backslash and only the
      last leaves a code span open. */
  lemma RowRoundTrip(cells: seq<string>)
    requires cells != []
    ensures Split(Row(cells)) == cells <==> Splittable(cells)
  {
    var row, body := Row(cells), Body(cells);
    NotStripped(row);
    BodyEnd(cells);
    assert row[1..] == body + "|";
    assert (body + "|")[..|body|] == body;
    var tail := if EndsWithBackslash(cells[|cells| - 1]) then "|" else "";
    assert body + "" == body;
    BodyReadsBack(cells, tail);
  }
}

module SpreadsheetCells {
  import opened Numerals
  import opened Prelude

  predicate IsLetter(c: char) {
    'A' <= c <= 'Z'
  }

  predicate IsLetters(s: string) {
    forall i :: 0 <= i < |s| ==> IsLetter(s[i])
  }

  /** The column that a name stands for: digits 1 to 26, written as letters. */
  function ColumnIndex(name: string): nat
    requires IsLetters(name)
  {
    if name == "" then 0
    else ColumnIndex(name[..|name| - 1]) * 26 + (name[|name| - 1] as int - 'A' as int + 1)
  }

  function LetterOf(remainder: nat): (c: char)
    requires remainder < 26
    ensures IsLetter(c)
  {
    'A' + remainder as char
  }

  function Name(index: nat): (name: string)
    ensures IsLetters(name)
  {
    if index == 0 then "" else Name((index - 1) / 26) + [LetterOf((index - 1) % 26)]
  }

  /** `column_name`: the letters whose column is the index. */
  method ColumnName(index: nat) returns (name: string)
    ensures IsLetters(name) && ColumnIndex(name) == index
    ensures name == "" <==> index == 0
  {
    name := "";
    var left := index;
    while left != 0
      invariant Name(index) == Name(left) + name
      decreases left
    {
      var remainder := (left - 1) % 26;
      assert Name(left) + name == Name((left - 1) / 26) + ([LetterOf(remainder)] + name);
      left := (left - 1) / 26;
      name := [LetterOf(remainder)] + name;
    }
    assert "" + name == name;
    NameHasIndex(index);
  }

  lemma {:induction false} NameHasIndex(index: nat)
    ensures ColumnIndex(Name(index)) == index
    ensures Name(index) == "" <==> index == 0
  {
    if index != 0 {
      var before, letter := Name((index - 1) / 26), LetterOf((index - 1) % 26);
      NameHasIndex((index - 1) / 26);
      assert (before + [letter])[..|before|] == before;
    }
  }

  /** Every word over the letters is the name of its column, so names and columns correspond one to one. */
  lemma {:induction false} IndexHasName(name: string)
    requires IsLetters(name)
    ensures Name(ColumnIndex(name)) == name
  {
    if name != "" {
      var before := name[..|name| - 1];
      var digit := name[|name| - 1] as int - 'A' as int;
      IndexHasName(before);
      var index := ColumnIndex(name);
      assert (index - 1) / 26 == ColumnIndex(before) && (index - 1) % 26 == digit;
      assert name == before + [LetterOf(digit)];
    }
  }

  /** The reference of a cell, as `row_xml` writes it. */
  function CellRef(column: nat, row: nat): string {
    Name(column) + DecimalText(row)
  }

  /** Different cells have different references. */
  lemma CellRefsDiffer(column: nat, row: nat, column': nat, row': nat)
    requires CellRef(column, row) == CellRef(column', row')
    ensures column == column' && row == row'
  {
    LettersEnd(Name(column), DecimalText(row), Name(column'), DecimalText(row'));
    NameHasIndex(column);
    NameHasIndex(column');
    DecimalTextInjective(row, row');
  }

  lemma LettersEnd(a: string, x: string, b: string, y: string)
    requires a + x == b + y && IsLetters(a) && IsLetters(b)
    requires x != "" && !IsLetter(x[0]) && y != "" && !IsLetter(y[0])
    ensures a == b && x == y
  {
    assert (a + x)[|a|] == x[0] && (b + y)[|b|] == y[0];
    assert forall i :: 0 <= i < |a| ==> IsLetter((a + x)[i]);
    assert forall i :: 0 <= i < |b| ==> IsLetter((b + y)[i]);
    assert |a| == |b|;
    assert a == (a + x)[..|a|] && b == (b + y)[..|b|];
    assert x == (a + x)[|a|..] && y == (b + y)[|b|..];
  }
}
