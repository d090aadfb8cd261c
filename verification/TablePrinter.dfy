/** The result table: how the printer fills the send buffer, and what text comes out. */
module TablePrinter {
  import opened Utf8Width

  const BUFFER_LENGTH: nat := 262144
  const RECORD_COUNT_LENGTH: nat := 40

  // ---- the text as a value ----------------------------------------------------------

  /** What is in the buffer, and whether output has been left out. */
  datatype Out = Out(text: string, ellipsis: bool) {

    /** Text is added while, with the reserve, it stays inside the buffer; after the first piece
        that does not fit nothing is added. */
    function Put(s: string): Out {
      if !ellipsis && |text| + RECORD_COUNT_LENGTH + |s| < BUFFER_LENGTH then Out(text + s, false) else Out(text, true)
    }

    /** The end of a record line is left out without a trace. */
    function PutEnd(s: string): Out {
      if !ellipsis && |text| + RECORD_COUNT_LENGTH + |s| < BUFFER_LENGTH then Out(text + s, false) else this
    }

    function PutAll(parts: seq<string>): Out
      decreases |parts|
    {
      if parts == [] then this else Put(parts[0]).PutAll(parts[1..])
    }

    function PutSeparator(n: nat): Out {
      PutAll(seq(n, _ => DASHES)).Put("+\n")
    }

    function PutRecord(rec: seq<string>): Out {
      PutAll(Cells(rec)).PutEnd("|\n")
    }

    function PutRecords(recs: seq<seq<string>>): Out
      decreases |recs|
    {
      if recs == [] then this else PutRecord(recs[0]).PutRecords(recs[1..])
    }

    function PutTable(captions: seq<string>, rows: seq<seq<string>>): Out {
      PutSeparator(|captions|).PutRecord(captions).PutSeparator(|captions|).PutRecords(rows).PutSeparator(|captions|)
    }

    predicate Room() {
      |text| + RECORD_COUNT_LENGTH < BUFFER_LENGTH
    }
  }

  const DASHES: string := "+------------------"

  function CellText(col: string): string {
    "| " + Padded(Shown(col), COL_WIDTH) + " "
  }

  function Cells(rec: seq<string>): seq<string> {
    seq(|rec|, i requires 0 <= i < |rec| => CellText(rec[i]))
  }

  function Digits(n: nat): (s: string)
    ensures s != "" && forall i :: 0 <= i < |s| ==> '0' <= s[i] <= '9'
  {
    var d := ('0' as int + n % 10) as char;
    if n < 10 then [d] else Digits(n / 10) + [d]
  }

  /** The number that decimal digits stand for. */
  function ReadDigits(s: string): int {
    if s == "" then 0 else 10 * ReadDigits(s[..|s| - 1]) + (s[|s| - 1] as int - '0' as int)
  }

  /** The digits read back as the number, and do not begin with a zero unless it is the only one. */
  lemma {:induction false} DigitsRead(n: nat)
    ensures ReadDigits(Digits(n)) == n && (Digits(n)[0] == '0' ==> n == 0)
  {
    var d := ('0' as int + n % 10) as char;
    if n < 10 {
      assert [d][..0] == "";
      assert ReadDigits([d]) == 10 * ReadDigits("") + n;
    } else {
      DigitsRead(n / 10);
      assert Digits(n)[..|Digits(n)| - 1] == Digits(n / 10);
    }
  }

  function CountLine(n: nat, ellipsis: bool): string {
    (if ellipsis then "... ...\n" else "") + "Total record(s): " + Digits(n) + "\n"
  }

  function Pow10(k: nat): nat {
    if k == 0 then 1 else 10 * Pow10(k - 1)
  }

  /** A number below ten to the `k` has at most `k` digits. */
  lemma {:induction false} DigitsBound(n: nat, k: nat)
    requires k >= 1 && n < Pow10(k)
    ensures |Digits(n)| <= k
  {
    if n >= 10 {
      DigitsBound(n / 10, k - 1);
    }
  }

  // ---- the reserve is never used up ----------------------------------------------------

  lemma {:induction false} RoomKeptAll(o: Out, parts: seq<string>)
    requires o.Room()
    ensures o.PutAll(parts).Room()
    decreases |parts|
  {
    if parts != [] { RoomKeptAll(o.Put(parts[0]), parts[1..]); }
  }

  lemma {:induction false} RoomKeptRecords(o: Out, recs: seq<seq<string>>)
    requires o.Room()
    ensures o.PutRecords(recs).Room()
    decreases |recs|
  {
    if recs != [] {
      RoomKeptAll(o, Cells(recs[0]));
      RoomKeptRecords(o.PutRecord(recs[0]), recs[1..]);
    }
  }

  lemma RoomKeptSeparator(o: Out, n: nat)
    requires o.Room()
    ensures o.PutSeparator(n).Room()
  {
    RoomKeptAll(o, seq(n, _ => DASHES));
  }

  /** Whatever is printed, the reserve stays free. */
  lemma RoomKept(captions: seq<string>, rows: seq<seq<string>>)
    ensures Out("", false).PutTable(captions, rows).Room()
  {
    var o := Out("", false);
    RoomKeptSeparator(o, |captions|);
    RoomKeptAll(o.PutSeparator(|captions|), Cells(captions));
    RoomKeptSeparator(o.PutSeparator(|captions|).PutRecord(captions), |captions|);
    var header := o.PutSeparator(|captions|).PutRecord(captions).PutSeparator(|captions|);
    RoomKeptRecords(header, rows);
    RoomKeptSeparator(header.PutRecords(rows), |captions|);
  }

  /** So the count line fits for every count of up to fifteen digits. */
  lemma CountLineFits(o: Out, n: nat)
    requires o.Room() && n < Pow10(15)
    ensures |o.text| + |CountLine(n, o.ellipsis)| <= BUFFER_LENGTH
  {
    DigitsBound(n, 15);
  }

  // ---- the printer ------------------------------------------------------------------------

  class Context {
    const dataSend: array<char>
    var offset: nat
    var ellipsis: bool

    constructor ()
      ensures Valid() && fresh(dataSend) && View() == Out("", false)
    {
      dataSend := new char[BUFFER_LENGTH];
      offset, ellipsis := 0, false;
    }

    ghost predicate Valid()
      reads this, dataSend
    {
      dataSend.Length == BUFFER_LENGTH && offset + RECORD_COUNT_LENGTH < BUFFER_LENGTH
    }

    ghost function View(): Out
      requires offset <= dataSend.Length
      reads this, dataSend
    {
      Out(dataSend[..offset], ellipsis)
    }

    /** Copies a piece of text behind what is in the buffer. */
    method Copy(s: string)
      requires offset + |s| <= dataSend.Length
      modifies this`offset, dataSend
      ensures offset == old(offset) + |s| && dataSend[..offset] == old(dataSend[..offset]) + s
    {
      for i := 0 to |s|
        invariant offset == old(offset)
        invariant dataSend[..offset + i] == old(dataSend[..offset]) + s[..i]
      {
        dataSend[offset + i] := s[i];
        assert dataSend[..offset + i + 1] == dataSend[..offset + i] + [s[i]];
        assert s[..i + 1] == s[..i] + [s[i]];
      }
      assert s[..|s|] == s;
      offset := offset + |s|;
    }

    method Write(s: string)
      requires Valid()
      modifies this, dataSend
      ensures Valid() && View() == old(View()).Put(s)
    {
      if !ellipsis && offset + RECORD_COUNT_LENGTH + |s| < BUFFER_LENGTH {
        Copy(s);
      } else {
        ellipsis := true;
      }
    }

    method WriteEnd(s: string)
      requires Valid()
      modifies this, dataSend
      ensures Valid() && View() == old(View()).PutEnd(s)
    {
      if !ellipsis && offset + RECORD_COUNT_LENGTH + |s| < BUFFER_LENGTH {
        Copy(s);
      }
    }

    method PrintSeparator(numCols: nat)
      requires Valid()
      modifies this, dataSend
      ensures Valid() && View() == old(View()).PutSeparator(numCols)
    {
      ghost var parts := seq(numCols, _ => DASHES);
      for i := 0 to numCols
        invariant Valid() && View().PutAll(parts[i..]) == old(View()).PutAll(parts)
      {
        assert parts[i..][0] == DASHES && parts[i..][1..] == parts[i + 1..];
        Write(DASHES);
      }
      assert parts[numCols..] == [];
      Write("+\n");
    }

    /** What is shown of one value, as padded text between bars. */
    method MakeCell(col: string) returns (text: string)
      ensures text == CellText(col)
    {
      var shown := col;
      var w := DisplayWidth(col);
      if w > COL_WIDTH {
        shown := Truncate(col, COL_WIDTH - 3);
      }
      var padded := Pad(shown, COL_WIDTH);
      text := "| " + padded + " ";
    }

    method PrintRecord(rec: seq<string>)
      requires Valid()
      modifies this, dataSend
      ensures Valid() && View() == old(View()).PutRecord(rec)
    {
      ghost var parts := Cells(rec);
      for i := 0 to |rec|
        invariant Valid() && View().PutAll(parts[i..]) == old(View()).PutAll(parts)
      {
        assert parts[i..][0] == CellText(rec[i]) && parts[i..][1..] == parts[i + 1..];
        var text := MakeCell(rec[i]);
        Write(text);
      }
      assert parts[|rec|..] == [];
      WriteEnd("|\n");
    }

    /** The last line goes into the reserve. */
    method PrintRecordCount(n: nat)
      requires Valid() && n < Pow10(15)
      modifies this, dataSend
      ensures offset <= dataSend.Length == BUFFER_LENGTH && dataSend[..offset] == old(View()).text + CountLine(n, old(ellipsis))
    {
      CountLineFits(View(), n);
      var str := "";
      if ellipsis {
        str := "... ...\n";
      }
      str := str + "Total record(s): " + Digits(n) + "\n";
      assert str == CountLine(n, ellipsis);
      Copy(str);
    }
  }

  function Head(captions: seq<string>, o: Out): Out {
    o.PutSeparator(|captions|).PutRecord(captions).PutSeparator(|captions|)
  }

  method PrintHeader(captions: seq<string>, context: Context)
    requires context.Valid()
    modifies context, context.dataSend
    ensures context.Valid() && context.View() == Head(captions, old(context.View()))
  {
    context.PrintSeparator(|captions|);
    context.PrintRecord(captions);
    context.PrintSeparator(|captions|);
  }

  /** Prints the header, every row the executor yields, the footer, and the number of rows. */
  method SelectFrom(captions: seq<string>, rows: seq<seq<string>>, context: Context)
    requires context.Valid() && context.View() == Out("", false) && |rows| < Pow10(15)
    modifies context, context.dataSend
    ensures var o := Out("", false).PutTable(captions, rows);
            && context.offset <= context.dataSend.Length
            && context.dataSend[..context.offset] == o.text + CountLine(|rows|, o.ellipsis)
  {
    PrintHeader(captions, context);
    ghost var header := Head(captions, Out("", false));
    var numRec := 0;
    while numRec < |rows|
      invariant numRec <= |rows| && context.Valid()
      invariant context.View().PutRecords(rows[numRec..]) == header.PutRecords(rows)
    {
      assert rows[numRec..][0] == rows[numRec] && rows[numRec..][1..] == rows[numRec + 1..];
      context.PrintRecord(rows[numRec]);
      numRec := numRec + 1;
    }
    assert rows[numRec..] == [];
    context.PrintSeparator(|captions|);
    context.PrintRecordCount(numRec);
  }

  // ---- output that fits ----------------------------------------------------------------------

  function Glue(parts: seq<string>): string {
    if parts == [] then "" else parts[0] + Glue(parts[1..])
  }

  function SeparatorLine(n: nat): string {
    Glue(seq(n, _ => DASHES)) + "+\n"
  }

  function RecordLine(rec: seq<string>): string {
    Glue(Cells(rec)) + "|\n"
  }

  function RecordLines(recs: seq<seq<string>>): string {
    if recs == [] then "" else RecordLine(recs[0]) + RecordLines(recs[1..])
  }

  /** The table without the count line. */
  function TableText(captions: seq<string>, rows: seq<seq<string>>): string {
    SeparatorLine(|captions|) + RecordLine(captions) + SeparatorLine(|captions|) + RecordLines(rows) + SeparatorLine(|captions|)
  }

  lemma Assoc(a: string, b: string, c: string)
    ensures (a + b) + c == a + (b + c)
  {
  }

  lemma {:induction false} PutAllFits(o: Out, parts: seq<string>)
    requires !o.ellipsis && |o.text| + |Glue(parts)| + RECORD_COUNT_LENGTH < BUFFER_LENGTH
    ensures o.PutAll(parts) == Out(o.text + Glue(parts), false)
    decreases |parts|
  {
    if parts == [] {
      assert o.text + "" == o.text;
    } else {
      PutAllFits(o.Put(parts[0]), parts[1..]);
      Assoc(o.text, parts[0], Glue(parts[1..]));
    }
  }

  lemma SeparatorFits(o: Out, n: nat)
    requires !o.ellipsis && |o.text| + |SeparatorLine(n)| + RECORD_COUNT_LENGTH < BUFFER_LENGTH
    ensures o.PutSeparator(n) == Out(o.text + SeparatorLine(n), false)
  {
    var parts := seq(n, _ => DASHES);
    PutAllFits(o, parts);
    Assoc(o.text, Glue(parts), "+\n");
  }

  lemma RecordFits(o: Out, rec: seq<string>)
    requires !o.ellipsis && |o.text| + |RecordLine(rec)| + RECORD_COUNT_LENGTH < BUFFER_LENGTH
    ensures o.PutRecord(rec) == Out(o.text + RecordLine(rec), false)
  {
    PutAllFits(o, Cells(rec));
    Assoc(o.text, Glue(Cells(rec)), "|\n");
  }

  lemma {:induction false} RecordsFit(o: Out, recs: seq<seq<string>>)
    requires !o.ellipsis && |o.text| + |RecordLines(recs)| + RECORD_COUNT_LENGTH < BUFFER_LENGTH
    ensures o.PutRecords(recs) == Out(o.text + RecordLines(recs), false)
    decreases |recs|
  {
    if recs == [] {
      assert o.text + "" == o.text;
    } else {
      RecordFits(o, recs[0]);
      RecordsFit(o.PutRecord(recs[0]), recs[1..]);
      Assoc(o.text, RecordLine(recs[0]), RecordLines(recs[1..]));
    }
  }

  /** A table that fits with the reserve is printed in full. */
  lemma TableFits(captions: seq<string>, rows: seq<seq<string>>)
    requires |TableText(captions, rows)| + RECORD_COUNT_LENGTH < BUFFER_LENGTH
    ensures Out("", false).PutTable(captions, rows) == Out(TableText(captions, rows), false)
  {
    var o, sep, rec := Out("", false), SeparatorLine(|captions|), RecordLine(captions);
    SeparatorFits(o, |captions|);
    assert "" + sep == sep;
    RecordFits(Out(sep, false), captions);
    SeparatorFits(Out(sep + rec, false), |captions|);
    RecordsFit(Out(sep + rec + sep, false), rows);
    SeparatorFits(Out(sep + rec + sep + RecordLines(rows), false), |captions|);
  }
}
