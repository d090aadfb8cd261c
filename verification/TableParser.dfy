/** The gateway's table parser, and that it reads back what the printer prints. */
module TableParser {
  import opened TablePrinter
  import opened Utf8Width

  // ---- string functions of the gateway's language ---------------------------------------

  predicate IsSpace(c: char) {
    c == ' ' || 9 <= c as int <= 13 || 28 <= c as int <= 31
  }

  function Lstrip(s: string): (r: string)
    ensures |r| <= |s|
  {
    if s != "" && IsSpace(s[0]) then Lstrip(s[1..]) else s
  }

  function Rstrip(s: string): (r: string)
    ensures |r| <= |s|
  {
    if s != "" && IsSpace(s[|s| - 1]) then Rstrip(s[..|s| - 1]) else s
  }

  function Strip(s: string): string {
    Rstrip(Lstrip(s))
  }

  function IndexOf(s: string, sep: char): (n: nat)
    ensures n <= |s| && (n < |s| <==> sep in s) && (n < |s| ==> s[n] == sep) && sep !in s[..n]
  {
    if s == "" || s[0] == sep then 0 else 1 + IndexOf(s[1..], sep)
  }

  function Split(s: string, sep: char): (parts: seq<string>)
    ensures parts != []
    decreases |s|
  {
    var n := IndexOf(s, sep);
    if n == |s| then [s] else [s[..n]] + Split(s[n + 1..], sep)
  }

  function Lower(s: string): string {
    seq(|s|, i requires 0 <= i < |s| => if 'A' <= s[i] <= 'Z' then (s[i] as int + 32) as char else s[i])
  }

  predicate StartsWith(s: string, prefix: string) {
    prefix <= s
  }

  predicate EndsWith(s: string, c: char) {
    s != "" && s[|s| - 1] == c
  }

  // ---- the parser -----------------------------------------------------------------------

  datatype Parse = Parse(columns: seq<string>, rows: seq<seq<string>>, headerFound: bool, sepSeen: bool, stopped: bool)

  const START: Parse := Parse([], [], false, false, false)

  function StripAll(cells: seq<string>): seq<string> {
    seq(|cells|, i requires 0 <= i < |cells| => Strip(cells[i]))
  }

  /** One line of input. */
  function Line(p: Parse, line: string): Parse {
    var s := Strip(line);
    if p.stopped || s == "" then p
    else if StartsWith(s, "+") && EndsWith(s, '+') then (if p.headerFound then p.(sepSeen := true) else p)
    else if StartsWith(Lower(s), "total record") then p.(stopped := true)
    else if StartsWith(s, "|") && EndsWith(s, '|') then
      var cells := StripAll(Split(Inner(s), '|'));
      if !p.headerFound then p.(columns := cells, headerFound := true)
      else if p.sepSeen then p.(rows := p.rows + [cells])
      else p
    else p
  }

  /** The text between the outer bars; a lone bar has none. */
  function Inner(s: string): string
    requires s != ""
  {
    if |s| == 1 then "" else s[1..|s| - 1]
  }

  function Lines(p: Parse, lines: seq<string>): Parse
    decreases |lines|
  {
    if lines == [] then p else Lines(Line(p, lines[0]), lines[1..])
  }

  function DropBlankTail(lines: seq<string>): seq<string> {
    if lines != [] && Strip(lines[|lines| - 1]) == "" then DropBlankTail(lines[..|lines| - 1]) else lines
  }

  function NonBlank(lines: seq<string>): seq<seq<string>> {
    if lines == [] then [] else (if Strip(lines[0]) == "" then [] else [[lines[0]]]) + NonBlank(lines[1..])
  }

  /** Columns and rows of a text; a text without a header is one column of its lines. */
  function ParseTable(text: string): (seq<string>, seq<seq<string>>) {
    var lines := DropBlankTail(Split(text, '\n'));
    var p := Lines(START, lines);
    if p.columns != [] then (p.columns, p.rows) else (["result"], NonBlank(lines))
  }

  method ParseRmdbAsciiTable(text: string) returns (columns: seq<string>, rows: seq<seq<string>>)
    ensures (columns, rows) == ParseTable(text)
  {
    var lines := Split(text, '\n');
    while lines != [] && Strip(lines[|lines| - 1]) == ""
      invariant DropBlankTail(lines) == DropBlankTail(Split(text, '\n'))
      decreases |lines|
    {
      lines := lines[..|lines| - 1];
    }
    columns, rows := [], [];
    var headerFound, headerSepSeen := false, false;
    var i := 0;
    while i < |lines|
      invariant i <= |lines|
      invariant Lines(Parse(columns, rows, headerFound, headerSepSeen, false), lines[i..]) == Lines(START, lines)
      decreases |lines| - i
    {
      ghost var was := Parse(columns, rows, headerFound, headerSepSeen, false);
      assert lines[i..][0] == lines[i] && lines[i..][1..] == lines[i + 1..];
      var stripped := Strip(lines[i]);
      i := i + 1;
      if stripped == "" { continue; }
      if StartsWith(stripped, "+") && EndsWith(stripped, '+') {
        if headerFound {
          headerSepSeen := true;
        }
        continue;
      }
      if StartsWith(Lower(stripped), "total record") {
        Stopped(was.(stopped := true), lines[i..]);
        break;
      }
      if StartsWith(stripped, "|") && EndsWith(stripped, '|') {
        var cells := StripAll(Split(Inner(stripped), '|'));
        if !headerFound {
          columns := cells;
          headerFound := true;
        } else if headerSepSeen {
          rows := rows + [cells];
        }
      }
    }
    assert i == |lines| ==> lines[i..] == [];
    if columns == [] {
      columns, rows := ["result"], NonBlank(lines);
    }
  }

  lemma {:induction false} Stopped(p: Parse, lines: seq<string>)
    requires p.stopped
    ensures Lines(p, lines) == p
    decreases |lines|
  {
    if lines != [] { Stopped(p, lines[1..]); }
  }

  // ---- reading back one line --------------------------------------------------------------

  /** A value that survives: at most sixteen ASCII characters, no bar or newline, no white space at
      its ends. */
  predicate Plain(c: string) {
    && |c| <= COL_WIDTH && '|' !in c && '\n' !in c
    && (forall i :: 0 <= i < |c| ==> c[i] as int < 0x80)
    && (c != "" ==> !IsSpace(c[0]) && !IsSpace(c[|c| - 1]))
  }

  lemma {:induction false} AsciiWidth(c: string)
    requires forall i :: 0 <= i < |c| ==> c[i] as int < 0x80
    ensures Width(c) == |c|
  {
    if c != "" { AsciiWidth(c[..|c| - 1]); }
  }

  /** The text of a plain cell. */
  lemma PlainCell(c: string)
    requires Plain(c)
    ensures CellText(c) == "| " + (c + Spaces(COL_WIDTH - |c|)) + " "
  {
    AsciiWidth(c);
    assert c + "" == c;
  }

  lemma {:induction false} LstripSpaces(n: nat, c: string)
    requires c == "" || !IsSpace(c[0])
    ensures Lstrip(Spaces(n) + c) == c
  {
    if n == 0 {
      assert Spaces(0) + c == c;
    } else {
      assert (Spaces(n) + c)[1..] == Spaces(n - 1) + c;
      LstripSpaces(n - 1, c);
    }
  }

  lemma {:induction false} RstripSpaces(n: nat, c: string)
    requires c == "" || !IsSpace(c[|c| - 1])
    ensures Rstrip(c + Spaces(n)) == c
  {
    if n == 0 {
      assert c + Spaces(0) == c;
    } else {
      assert (c + Spaces(n))[..|c| + n - 1] == c + Spaces(n - 1);
      RstripSpaces(n - 1, c);
    }
  }

  /** What stands between two bars strips to the value. */
  lemma StripCell(c: string, n: nat)
    requires c == "" || (!IsSpace(c[0]) && !IsSpace(c[|c| - 1]))
    ensures Strip(" " + (c + Spaces(n)) + " ") == c
  {
    if c == "" {
      assert " " + (c + Spaces(n)) + " " == Spaces(n + 2) + "";
      LstripSpaces(n + 2, "");
    } else {
      assert " " + (c + Spaces(n)) + " " == Spaces(1) + (c + Spaces(n + 1));
      LstripSpaces(1, c + Spaces(n + 1));
      RstripSpaces(n + 1, c);
    }
  }

  /** Splitting takes a piece without the separator off the front. */
  lemma SplitFirst(a: string, sep: char, rest: string)
    requires sep !in a
    ensures Split(a + [sep] + rest, sep) == [a] + Split(rest, sep)
  {
    var s := a + [sep] + rest;
    IndexIs(s, sep, |a|);
    assert s[..|a|] == a && s[|a| + 1..] == rest;
  }

  lemma {:induction false} IndexIs(s: string, sep: char, n: nat)
    requires n < |s| && s[n] == sep && sep !in s[..n]
    ensures IndexOf(s, sep) == n
  {
    if n > 0 {
      assert s[0] == s[..n][0];
      assert s[1..][..n - 1] == s[..n][1..];
      IndexIs(s[1..], sep, n - 1);
    }
  }

  function Between(c: string): string
    requires |c| <= COL_WIDTH
  {
    " " + (c + Spaces(COL_WIDTH - |c|)) + " "
  }

  /** The inside of a record line: its cells with bars between them. */
  function Joined(rec: seq<string>): string
    requires rec != []
    requires forall i :: 0 <= i < |rec| ==> |rec[i]| <= COL_WIDTH
  {
    if |rec| == 1 then Between(rec[0]) else Between(rec[0]) + "|" + Joined(rec[1..])
  }

  predicate PlainRecord(rec: seq<string>) {
    rec != [] && forall i :: 0 <= i < |rec| ==> Plain(rec[i])
  }

  lemma BarThenRest(a: string, b: string)
    ensures ("|" + a) + ("|" + b) == "|" + (a + "|" + b)
  {
  }

  lemma CellIsBetween(c: string)
    requires Plain(c)
    ensures CellText(c) == "|" + Between(c)
  {
    PlainCell(c);
    var t := c + Spaces(COL_WIDTH - |c|);
    assert "| " + t + " " == "|" + (" " + t + " ");
  }

  lemma {:induction false} RecordIsJoined(rec: seq<string>)
    requires PlainRecord(rec)
    ensures Glue(Cells(rec)) == "|" + Joined(rec)
    decreases |rec|
  {
    CellIsBetween(rec[0]);
    assert Cells(rec)[1..] == Cells(rec[1..]);
    if |rec| == 1 {
      assert Glue(Cells(rec[1..])) == "";
    } else {
      RecordIsJoined(rec[1..]);
      BarThenRest(Between(rec[0]), Joined(rec[1..]));
    }
  }

  lemma BetweenPlain(c: string)
    requires Plain(c)
    ensures '|' !in Between(c) && '\n' !in Between(c) && |Between(c)| == COL_WIDTH + 2 && Strip(Between(c)) == c
  {
    StripCell(c, COL_WIDTH - |c|);
  }

  lemma StripFirst(x: string, more: seq<string>)
    ensures StripAll([x] + more) == [Strip(x)] + StripAll(more)
  {
  }

  lemma {:induction false} SplitJoined(rec: seq<string>)
    requires PlainRecord(rec)
    ensures StripAll(Split(Joined(rec), '|')) == rec
    decreases |rec|
  {
    BetweenPlain(rec[0]);
    assert rec == [rec[0]] + rec[1..];
    if |rec| == 1 {
      StripFirst(Between(rec[0]), []);
    } else {
      SplitFirst(Between(rec[0]), '|', Joined(rec[1..]));
      SplitJoined(rec[1..]);
      StripFirst(Between(rec[0]), Split(Joined(rec[1..]), '|'));
    }
  }

  lemma {:induction false} JoinedPlain(rec: seq<string>)
    requires PlainRecord(rec)
    ensures '\n' !in Joined(rec) && Joined(rec) != ""
    decreases |rec|
  {
    BetweenPlain(rec[0]);
    if |rec| > 1 { JoinedPlain(rec[1..]); }
  }

  lemma StripNothing(s: string)
    requires s != "" && !IsSpace(s[0]) && !IsSpace(s[|s| - 1])
    ensures Strip(s) == s
  {
  }

  /** A record line without its newline. */
  function RecordBody(rec: seq<string>): string {
    Glue(Cells(rec)) + "|"
  }

  lemma RecordBodyShape(rec: seq<string>)
    requires PlainRecord(rec)
    ensures '\n' !in RecordBody(rec) && Strip(RecordBody(rec)) == RecordBody(rec)
    ensures StartsWith(RecordBody(rec), "|") && EndsWith(RecordBody(rec), '|') && Inner(RecordBody(rec)) == Joined(rec)
    ensures !StartsWith(RecordBody(rec), "+") && !StartsWith(Lower(RecordBody(rec)), "total record")
  {
    RecordIsJoined(rec);
    JoinedPlain(rec);
    var s := "|" + Joined(rec) + "|";
    assert RecordBody(rec) == s && s[0] == '|' && s[|s| - 1] == '|';
    StripNothing(s);
    assert s[..1] == "|";
    assert Lower(s)[0] == '|';
  }

  /** Reading a record line back gives its cells. */
  lemma ReadRecord(p: Parse, rec: seq<string>)
    requires PlainRecord(rec) && !p.stopped
    ensures Line(p, RecordBody(rec)) ==
            if !p.headerFound then p.(columns := rec, headerFound := true)
            else if p.sepSeen then p.(rows := p.rows + [rec]) else p
  {
    RecordBodyShape(rec);
    SplitJoined(rec);
  }

  function SeparatorBody(n: nat): string {
    Glue(seq(n, _ => DASHES)) + "+"
  }

  lemma {:induction false} DashesShape(n: nat)
    ensures '\n' !in Glue(seq(n, _ => DASHES))
    ensures n > 0 ==> Glue(seq(n, _ => DASHES)) != "" && Glue(seq(n, _ => DASHES))[0] == '+'
  {
    if n > 0 {
      assert seq(n, _ => DASHES)[1..] == seq(n - 1, _ => DASHES);
      DashesShape(n - 1);
    }
  }

  lemma ReadSeparator(p: Parse, n: nat)
    requires n > 0 && !p.stopped
    ensures '\n' !in SeparatorBody(n)
    ensures Line(p, SeparatorBody(n)) == if p.headerFound then p.(sepSeen := true) else p
  {
    DashesShape(n);
    var s := SeparatorBody(n);
    assert s[0] == '+' && s[|s| - 1] == '+';
    StripNothing(s);
    assert s[..1] == "+";
  }

  const TOTAL: string := "Total record(s): "

  /** Whatever follows it, the count line's beginning is recognised. */
  lemma TotalStarts(rest: string)
    ensures StartsWith(Lower(TOTAL + rest), "total record")
  {
    var s := TOTAL + rest;
    var l := Lower(s);
    assert forall i :: 0 <= i < 12 ==> s[i] == TOTAL[i];
    assert l[..12] == "total record";
  }

  lemma ReadCount(p: Parse, n: nat)
    requires !p.stopped
    ensures var body := TOTAL + Digits(n); '\n' !in body && Strip(body) != "" && Line(p, body) == p.(stopped := true)
  {
    var s := TOTAL + Digits(n);
    StripNothing(s);
    TotalStarts(Digits(n));
    assert s[0] == 'T';
  }

  // ---- reading back a table ------------------------------------------------------------------

  function RowBodies(rows: seq<seq<string>>): seq<string> {
    if rows == [] then [] else [RecordBody(rows[0])] + RowBodies(rows[1..])
  }

  lemma SplitLine(body: string, rest: string)
    requires '\n' !in body
    ensures Split((body + "\n") + rest, '\n') == [body] + Split(rest, '\n')
  {
    SplitFirst(body, '\n', rest);
  }

  lemma RecordLineIs(rec: seq<string>)
    ensures RecordLine(rec) == RecordBody(rec) + "\n"
  {
    assert (Glue(Cells(rec)) + "|") + "\n" == Glue(Cells(rec)) + "|\n";
  }

  lemma SeparatorLineIs(n: nat)
    ensures SeparatorLine(n) == SeparatorBody(n) + "\n"
  {
    var g := Glue(seq(n, _ => DASHES));
    assert (g + "+") + "\n" == g + "+\n";
  }

  lemma Cons(x: string, a: seq<string>, b: seq<string>)
    ensures ([x] + a) + b == [x] + (a + b)
  {
  }

  lemma LinesCons(p: Parse, x: string, rest: seq<string>)
    ensures Lines(p, [x] + rest) == Lines(Line(p, x), rest)
  {
    assert ([x] + rest)[1..] == rest;
  }

  lemma {:induction false} SplitRows(rows: seq<seq<string>>, rest: string)
    requires forall i :: 0 <= i < |rows| ==> PlainRecord(rows[i])
    ensures Split(RecordLines(rows) + rest, '\n') == RowBodies(rows) + Split(rest, '\n')
    decreases |rows|
  {
    if rows == [] {
      assert "" + rest == rest;
    } else {
      var more := RecordLines(rows[1..]);
      RecordBodyShape(rows[0]);
      RecordLineIs(rows[0]);
      Assoc(RecordLine(rows[0]), more, rest);
      SplitLine(RecordBody(rows[0]), more + rest);
      SplitRows(rows[1..], rest);
      Cons(RecordBody(rows[0]), RowBodies(rows[1..]), Split(rest, '\n'));
    }
  }

  lemma AddRow(a: seq<seq<string>>, r: seq<string>, b: seq<seq<string>>)
    ensures (a + [r]) + b == a + ([r] + b)
  {
  }

  lemma {:induction false} ReadRows(p: Parse, rows: seq<seq<string>>, rest: seq<string>)
    requires !p.stopped && p.headerFound && p.sepSeen
    requires forall i :: 0 <= i < |rows| ==> PlainRecord(rows[i])
    ensures Lines(p, RowBodies(rows) + rest) == Lines(p.(rows := p.rows + rows), rest)
    decreases |rows|
  {
    if rows == [] {
      assert RowBodies(rows) + rest == rest && p.rows + [] == p.rows;
    } else {
      var more := RowBodies(rows[1..]);
      ReadRecord(p, rows[0]);
      Cons(RecordBody(rows[0]), more, rest);
      LinesCons(p, RecordBody(rows[0]), more + rest);
      ReadRows(p.(rows := p.rows + [rows[0]]), rows[1..], rest);
      AddRow(p.rows, rows[0], rows[1..]);
      assert rows == [rows[0]] + rows[1..];
    }
  }

  function TotalBody(count: nat): string {
    TOTAL + Digits(count)
  }

  /** The lines of a table: header, rows, footer. */
  function FootLines(n: nat, count: nat): seq<string> {
    [SeparatorBody(n)] + ([TotalBody(count)] + [])
  }

  function TableLines(captions: seq<string>, rows: seq<seq<string>>): seq<string> {
    var sep := SeparatorBody(|captions|);
    [sep] + ([RecordBody(captions)] + ([sep] + (RowBodies(rows) + FootLines(|captions|, |rows|))))
  }

  function FullText(captions: seq<string>, rows: seq<seq<string>>): string {
    TableText(captions, rows) + CountLine(|rows|, false)
  }

  lemma CountLineIs(count: nat)
    ensures CountLine(count, false) == (TotalBody(count) + "\n") + ""
  {
    assert "" + "Total record(s): " + Digits(count) + "\n" == TotalBody(count) + "\n";
  }

  lemma SplitFoot(n: nat, count: nat)
    requires n > 0
    ensures Split(SeparatorLine(n) + CountLine(count, false), '\n') == FootLines(n, count) + [""]
  {
    ReadSeparator(START, n);
    ReadCount(START, count);
    SeparatorLineIs(n);
    SplitLine(SeparatorBody(n), CountLine(count, false));
    CountLineIs(count);
    SplitLine(TotalBody(count), "");
    Cons(TotalBody(count), [], [""]);
    Cons(SeparatorBody(n), [TotalBody(count)] + [], [""]);
  }

  lemma TextParts(sep: string, head: string, rows: string, count: string)
    ensures sep + head + sep + rows + sep + count == sep + (head + (sep + (rows + (sep + count))))
  {
  }

  lemma SplitTable(captions: seq<string>, rows: seq<seq<string>>)
    requires PlainRecord(captions) && forall i :: 0 <= i < |rows| ==> PlainRecord(rows[i])
    ensures Split(FullText(captions, rows), '\n') == TableLines(captions, rows) + [""]
  {
    var n := |captions|;
    var sep, head, foot := SeparatorLine(n), RecordLine(captions), SeparatorLine(n) + CountLine(|rows|, false);
    var body := RecordLines(rows) + foot;
    TextParts(sep, head, RecordLines(rows), CountLine(|rows|, false));
    SplitFoot(n, |rows|);
    SplitRows(rows, foot);
    SplitHead(captions, body);
    LinesParts(SeparatorBody(n), RecordBody(captions), RowBodies(rows), FootLines(n, |rows|));
  }

  lemma SplitHead(captions: seq<string>, body: string)
    requires PlainRecord(captions)
    ensures var n := |captions|;
            Split(SeparatorLine(n) + (RecordLine(captions) + (SeparatorLine(n) + body)), '\n') ==
            [SeparatorBody(n)] + ([RecordBody(captions)] + ([SeparatorBody(n)] + Split(body, '\n')))
  {
    var n := |captions|;
    ReadSeparator(START, n);
    RecordBodyShape(captions);
    SeparatorLineIs(n);
    RecordLineIs(captions);
    SplitLine(SeparatorBody(n), RecordLine(captions) + (SeparatorLine(n) + body));
    SplitLine(RecordBody(captions), SeparatorLine(n) + body);
    SplitLine(SeparatorBody(n), body);
  }

  lemma LinesParts(sep: string, head: string, rows: seq<string>, foot: seq<string>)
    ensures [sep] + ([head] + ([sep] + (rows + (foot + [""])))) == ([sep] + ([head] + ([sep] + (rows + foot)))) + [""]
  {
  }

  lemma ReadFoot(p: Parse, n: nat, count: nat)
    requires n > 0 && !p.stopped && p.headerFound && p.sepSeen
    ensures Lines(p, FootLines(n, count)) == p.(stopped := true)
  {
    ReadSeparator(p, n);
    ReadCount(p, count);
    LinesCons(p, SeparatorBody(n), [TotalBody(count)] + []);
    LinesCons(p, TotalBody(count), []);
  }

  lemma ReadTable(captions: seq<string>, rows: seq<seq<string>>)
    requires PlainRecord(captions) && forall i :: 0 <= i < |rows| ==> PlainRecord(rows[i])
    ensures Lines(START, TableLines(captions, rows)) == Parse(captions, rows, true, true, true)
  {
    var n, sep := |captions|, SeparatorBody(|captions|);
    var body := RowBodies(rows) + FootLines(n, |rows|);
    var p, q := Parse(captions, [], true, false, false), Parse(captions, [], true, true, false);
    ReadSeparator(START, n);
    LinesCons(START, sep, [RecordBody(captions)] + ([sep] + body));
    ReadRecord(START, captions);
    LinesCons(START, RecordBody(captions), [sep] + body);
    ReadSeparator(p, n);
    LinesCons(p, sep, body);
    ReadRows(q, rows, FootLines(n, |rows|));
    assert q.rows + rows == rows;
    ReadFoot(q.(rows := rows), n, |rows|);
  }

  /** Printing and parsing: the gateway gets back the column names and all rows, when every value is
      plain and the text fits the buffer. */
  lemma RoundTrip(captions: seq<string>, rows: seq<seq<string>>)
    requires PlainRecord(captions) && forall i :: 0 <= i < |rows| ==> PlainRecord(rows[i])
    requires |TableText(captions, rows)| + RECORD_COUNT_LENGTH < BUFFER_LENGTH
    ensures var o := Out("", false).PutTable(captions, rows);
            ParseTable(o.text + CountLine(|rows|, o.ellipsis)) == (captions, rows)
  {
    TableFits(captions, rows);
    SplitTable(captions, rows);
    var lines := TableLines(captions, rows);
    LastLine(captions, rows);
    ReadCount(START, |rows|);
    DropsBlank(lines);
    ReadTable(captions, rows);
  }

  lemma LastLine(captions: seq<string>, rows: seq<seq<string>>)
    ensures var lines := TableLines(captions, rows); lines != [] && lines[|lines| - 1] == TotalBody(|rows|)
  {
  }

  lemma DropsBlank(lines: seq<string>)
    requires lines != [] && Strip(lines[|lines| - 1]) != ""
    ensures DropBlankTail(lines + [""]) == lines
  {
    assert (lines + [""])[..|lines|] == lines && (lines + [""])[|lines|] == "";
    assert DropBlankTail(lines + [""]) == DropBlankTail(lines);
  }

  // ---- a text that is no table -------------------------------------------------------------

  /** Lines one below the other, without a newline after the last. */
  function Message(lines: seq<string>): string {
    if lines == [] then "" else if |lines| == 1 then lines[0] else (lines[0] + "\n") + Message(lines[1..])
  }

  /** A line that shows something, but no bar in front. */
  predicate Prose(line: string) {
    '\n' !in line && Strip(line) != "" && Strip(line)[0] != '|'
  }

  lemma {:induction false} SplitMessage(lines: seq<string>)
    requires lines != [] && forall i :: 0 <= i < |lines| ==> Prose(lines[i])
    ensures Split(Message(lines), '\n') == lines
  {
    if |lines| > 1 {
      SplitLine(lines[0], Message(lines[1..]));
      SplitMessage(lines[1..]);
    }
  }

  lemma BarInFront(s: string)
    ensures StartsWith(s, "|") <==> s != "" && s[0] == '|'
  {
    if s != "" && s[0] == '|' { assert s[..1] == "|"; }
    if StartsWith(s, "|") { assert "|"[0] == '|'; }
  }

  lemma {:induction false} NoHeader(p: Parse, lines: seq<string>)
    requires p.columns == [] && !p.headerFound && forall i :: 0 <= i < |lines| ==> Prose(lines[i])
    ensures Lines(p, lines).columns == []
    decreases |lines|
  {
    if lines != [] {
      BarInFront(Strip(lines[0]));
      NoHeader(Line(p, lines[0]), lines[1..]);
    }
  }

  lemma {:induction false} AllShown(lines: seq<string>)
    requires forall i :: 0 <= i < |lines| ==> Prose(lines[i])
    ensures NonBlank(lines) == seq(|lines|, i requires 0 <= i < |lines| => [lines[i]])
  {
    if lines != [] { AllShown(lines[1..]); }
  }

  /** A message of one line or more comes back as the rows of one column, line by line. */
  lemma MessageIsRows(lines: seq<string>)
    requires lines != [] && forall i :: 0 <= i < |lines| ==> Prose(lines[i])
    ensures ParseTable(Message(lines)) == (["result"], seq(|lines|, i requires 0 <= i < |lines| => [lines[i]]))
  {
    SplitMessage(lines);
    assert DropBlankTail(lines) == lines;
    NoHeader(START, lines);
    AllShown(lines);
  }
}
