/** The PDF printer of backend/services/complianceService.js against ISO 32000-1: literal strings
    (section 7.3.4.2), streams (section 7.3.8) and the cross-reference table (section 7.5.4). */
module PdfWriter {
  import opened Texts
  import opened Wrappers

  // ---- UTF-8 ----

  /** A byte is a number from 0 to 255. */
  type Byte = int

  /** The last k continuation bytes of a code point. */
  function Continuation(n: nat, k: nat): (r: seq<Byte>)
    ensures |r| == k && forall i :: 0 <= i < k ==> 0x80 <= r[i] < 0xC0
  {
    if k == 0 then [] else Continuation(n / 0x40, k - 1) + [0x80 + n % 0x40]
  }

  function EncodeChar(c: char): (r: seq<Byte>)
    ensures 1 <= |r| <= 4
    ensures c < '\U{80}' ==> r == [c as int]
    ensures forall i :: 0 <= i < |r| ==> 0 <= r[i] < 256
  {
    var n := c as int;
    if n < 0x80 then [n]
    else if n < 0x800 then [0xC0 + n / 0x40] + Continuation(n, 1)
    else if n < 0x1_0000 then [0xE0 + n / 0x1000] + Continuation(n, 2)
    else [0xF0 + n / 0x4_0000] + Continuation(n, 3)
  }

  /** Buffer.from(s, 'utf8'); its length is Buffer.byteLength(s, 'utf8'). */
  function Utf8(s: string): (r: seq<Byte>)
    ensures |s| <= |r| <= 4 * |s|
  {
    if s == "" then [] else Utf8(s[..|s| - 1]) + EncodeChar(s[|s| - 1])
  }

  function Flat(cells: seq<seq<Byte>>): seq<Byte> {
    if cells == [] then [] else Flat(cells[..|cells| - 1]) + cells[|cells| - 1]
  }

  lemma {:induction false} FlatConcat(a: seq<seq<Byte>>, b: seq<seq<Byte>>)
    ensures Flat(a + b) == Flat(a) + Flat(b)
  {
    if b == [] {
      assert a + b == a;
    } else {
      var front, last := b[..|b| - 1], b[|b| - 1];
      assert (a + b)[..|a + b| - 1] == a + front;
      FlatConcat(a, front);
      Regroup(Flat(a), Flat(front), last);
    }
  }

  function Encoded(s: string): (r: seq<seq<Byte>>)
    ensures |r| == |s|
  {
    seq(|s|, i requires 0 <= i < |s| => EncodeChar(s[i]))
  }

  lemma {:induction false} Utf8IsFlat(s: string)
    ensures Utf8(s) == Flat(Encoded(s))
  {
    if s != "" {
      var front := s[..|s| - 1];
      Utf8IsFlat(front);
      assert Encoded(s)[..|s| - 1] == Encoded(front);
    }
  }

  lemma EncodedConcat(a: string, b: string)
    ensures Encoded(a + b) == Encoded(a) + Encoded(b)
  {
  }

  lemma Utf8Concat(a: string, b: string)
    ensures Utf8(a + b) == Utf8(a) + Utf8(b)
  {
    Utf8IsFlat(a);
    Utf8IsFlat(b);
    Utf8IsFlat(a + b);
    EncodedConcat(a, b);
    FlatConcat(Encoded(a), Encoded(b));
  }

  function CodesOf(s: string): seq<int> {
    seq(|s|, i requires 0 <= i < |s| => s[i] as int)
  }

  lemma {:induction false} Utf8OfAscii(s: string)
    requires Ascii(s)
    ensures Utf8(s) == CodesOf(s)
  {
    if s != "" {
      var front := s[..|s| - 1];
      Utf8OfAscii(front);
      assert CodesOf(s) == CodesOf(front) + [s[|s| - 1] as int];
    }
  }

  lemma AsciiWidth(s: string)
    requires Ascii(s)
    ensures |Utf8(s)| == |s|
  {
    Utf8OfAscii(s);
  }

  // ---- Decimal numbers ----

  /** padStart(10, '0') */
  function PadStart(s: string): string {
    if |s| >= 10 then s else Zeros(10 - |s|) + s
  }

  function Zeros(n: nat): (r: string)
    ensures |r| == n && Ascii(r) && forall i :: 0 <= i < n ==> r[i] == '0'
  {
    if n == 0 then "" else Zeros(n - 1) + "0"
  }

  /** The number a reader takes from the `len` digit bytes at `at`. */
  function ReadNumber(bytes: seq<Byte>, at: nat, len: nat): int
    requires at + len <= |bytes|
  {
    if len == 0 then 0 else 10 * ReadNumber(bytes, at, len - 1) + bytes[at + len - 1] - '0' as int
  }

  /** `part` stands at byte `at` of the file. */
  ghost predicate HoldsAt(file: seq<Byte>, at: nat, part: seq<Byte>) {
    at + |part| <= |file| && forall i :: 0 <= i < |part| ==> file[at + i] == part[i]
  }

  lemma {:induction false} NumberAt(file: seq<Byte>, at: nat, part: seq<Byte>, len: nat)
    requires HoldsAt(file, at, part) && len <= |part|
    ensures ReadNumber(file, at, len) == ReadNumber(part, 0, len)
  {
    if len > 0 {
      NumberAt(file, at, part, len - 1);
      assert file[at + (len - 1)] == part[len - 1];
    }
  }

  lemma {:induction false} ReadDecimal(n: nat)
    ensures ReadNumber(CodesOf(Decimal(n)), 0, |Decimal(n)|) == n
  {
    if n >= 10 {
      ReadDecimal(n / 10);
      NumberAt(CodesOf(Decimal(n)), 0, CodesOf(Decimal(n / 10)), |Decimal(n / 10)|);
    }
  }

  lemma {:induction false} LeadingZeros(bytes: seq<Byte>, k: nat, number: seq<Byte>, len: nat)
    requires HoldsAt(bytes, k, number) && len <= |number|
    requires forall i :: 0 <= i < k ==> bytes[i] == '0' as int
    ensures ReadNumber(bytes, 0, k + len) == ReadNumber(number, 0, len)
    decreases k + len
  {
    if len > 0 {
      LeadingZeros(bytes, k, number, len - 1);
      assert bytes[k + (len - 1)] == number[len - 1];
    } else if k > 0 {
      LeadingZeros(bytes, k - 1, [], 0);
    }
  }

  function Pow10(k: nat): (p: nat)
    ensures p >= 1
  {
    if k == 0 then 1 else 10 * Pow10(k - 1)
  }

  lemma {:induction false} DecimalWidth(n: nat, k: nat)
    requires k >= 1
    ensures |Decimal(n)| <= k <==> n < Pow10(k)
  {
    assert Pow10(1) == 10 * Pow10(0) == 10;
    if n >= 10 && k > 1 {
      DecimalWidth(n / 10, k - 1);
    }
  }

  // ---- The printer ----

  function Replace(s: string, c: char, with: string): string {
    if s == "" then "" else (if s[0] == c then with else [s[0]]) + Replace(s[1..], c, with)
  }

  /** Three passes over the whole text, backslashes first. */
  function EscapePdfText(text: string): string {
    Replace(Replace(Replace(text, '\\', "\\\\"), '(', "\\("), ')', "\\)")
  }

  function Show(text: string): string {
    "(" + EscapePdfText(text) + ") Tj"
  }

  function LineOperators(lines: seq<string>): seq<string> {
    if lines == [] then [] else [Show(lines[0]), "0 -14 Td"] + LineOperators(lines[1..])
  }

  function JoinLines(parts: seq<string>): string {
    if parts == [] then "" else if |parts| == 1 then parts[0] else parts[0] + "\n" + JoinLines(parts[1..])
  }

  function Stream(title: string, lines: seq<string>): string {
    JoinLines(["BT", "/F1 12 Tf", "50 780 Td", Show(title), "0 -18 Td"] + LineOperators(lines) + ["ET"])
  }

  const CATALOG := "1 0 obj << /Type /Catalog /Pages 2 0 R >> endobj"
  const PAGES := "2 0 obj << /Type /Pages /Kids [3 0 R] /Count 1 >> endobj"
  const PAGE := "3 0 obj << /Type /Page /Parent 2 0 R /MediaBox [0 0 612 792] "
              + "/Resources << /Font << /F1 4 0 R >> >> /Contents 5 0 R >> endobj"
  const FONT := "4 0 obj << /Type /Font /Subtype /Type1 /BaseFont /Helvetica >> endobj"
  const LENGTH_HEAD := "5 0 obj << /Length "
  const STREAM_START := " >> stream\n"
  const STREAM_END := "\nendstream endobj"
  const HEADER := "%PDF-1.4\n"
  const XREF_HEAD := "xref\n0 6\n"
  const FREE_ENTRY := "0000000000 65535 f \n"
  const ENTRY_END := " 00000 n \n"
  const TRAILER := "trailer << /Size 6 /Root 1 0 R >>\nstartxref\n"
  const END_OF_FILE := "\n%%EOF"

  function ContentObject(stream: string): string {
    LENGTH_HEAD + Decimal(|Utf8(stream)|) + STREAM_START + stream + STREAM_END
  }

  function Objects(title: string, lines: seq<string>): seq<string> {
    [CATALOG, PAGES, PAGE, FONT, ContentObject(Stream(title, lines))]
  }

  /** The file up to and including the given objects. */
  function Body(objects: seq<string>): string {
    if objects == [] then HEADER else Body(objects[..|objects| - 1]) + (objects[|objects| - 1] + "\n")
  }

  function Entry(offset: int): string
    requires offset >= 0
  {
    PadStart(Decimal(offset)) + ENTRY_END
  }

  function Entries(offsets: seq<int>): string
    requires forall i :: 0 <= i < |offsets| ==> offsets[i] >= 0
  {
    if offsets == [] then "" else Entries(offsets[..|offsets| - 1]) + Entry(offsets[|offsets| - 1])
  }

  /** Byte position of object k + 1 in the file. */
  function Offset(objects: seq<string>, k: nat): nat
    requires k <= |objects|
  {
    |Utf8(Body(objects[..k]))|
  }

  function Offsets(objects: seq<string>, n: nat): (r: seq<int>)
    requires n <= |objects|
    ensures |r| == n && forall k :: 0 <= k < n ==> r[k] == Offset(objects, k) >= 0
  {
    if n == 0 then [] else Offsets(objects, n - 1) + [Offset(objects, n - 1)]
  }

  function Tail(xrefStart: nat): string {
    TRAILER + (Decimal(xrefStart) + END_OF_FILE)
  }

  /** Everything from the xref keyword on. */
  function Xref(objects: seq<string>): string {
    XREF_HEAD + FREE_ENTRY + Entries(Offsets(objects, |objects|)) + Tail(|Utf8(Body(objects))|)
  }

  method AppendObjects(objects: seq<string>) returns (pdf: string, offsets: seq<int>)
    ensures pdf == Body(objects) && offsets == Offsets(objects, |objects|)
  {
    pdf, offsets := HEADER, [];
    for i := 0 to |objects|
      invariant pdf == Body(objects[..i])
      invariant offsets == Offsets(objects, i)
    {
      assert objects[..i + 1][..i] == objects[..i];
      offsets := offsets + [|Utf8(pdf)|];
      pdf := pdf + (objects[i] + "\n");
    }
    assert objects[..|objects|] == objects;
  }

  method AppendEntries(offsets: seq<int>) returns (table: string)
    requires forall i :: 0 <= i < |offsets| ==> offsets[i] >= 0
    ensures table == Entries(offsets)
  {
    table := "";
    for index := 0 to |offsets|
      invariant table == Entries(offsets[..index])
    {
      assert offsets[..index + 1][..index] == offsets[..index];
      table := table + Entry(offsets[index]);
    }
    assert offsets[..|offsets|] == offsets;
  }

  /** The whole file for a list of objects. */
  function File(objects: seq<string>): string {
    Body(objects) + Xref(objects)
  }

  method CreateSimplePdf(title: string, lines: seq<string>) returns (file: seq<Byte>)
    ensures file == Utf8(File(Objects(title, lines)))
  {
    var objects := Objects(title, lines);
    var pdf, offsets := AppendObjects(objects);
    var xrefStart := |Utf8(pdf)|;
    var table := AppendEntries(offsets);
    file := Utf8(pdf + (XREF_HEAD + FREE_ENTRY + table + Tail(xrefStart)));
  }

  // ---- The cross-reference table ----

  lemma BytesAt(before: string, here: string, after: string)
    ensures HoldsAt(Utf8(before + (here + after)), |Utf8(before)|, Utf8(here))
  {
    Utf8Concat(before, here + after);
    Utf8Concat(here, after);
    HoldsBetween(Utf8(before), Utf8(here), Utf8(after));
  }

  /** What follows the first k objects in a body. */
  function Rest(objects: seq<string>, k: nat): string
    requires k <= |objects|
    decreases |objects| - k
  {
    if k == |objects| then "" else (objects[k] + "\n") + Rest(objects, k + 1)
  }

  lemma {:induction false} BodySplits(objects: seq<string>, k: nat)
    requires k <= |objects|
    ensures Body(objects) == Body(objects[..k]) + Rest(objects, k)
    decreases |objects| - k
  {
    if k == |objects| {
      assert objects[..k] == objects && Body(objects) + "" == Body(objects);
    } else {
      BodySplits(objects, k + 1);
      assert objects[..k + 1][..k] == objects[..k];
      Regroup(Body(objects[..k]), objects[k] + "\n", Rest(objects, k + 1));
    }
  }

  /** Each recorded offset is the exact byte position of its object in the finished file, whatever the
      title and lines. */
  lemma ObjectsAreAtTheirOffsets(objects: seq<string>, k: nat)
    requires k < |objects|
    ensures HoldsAt(Utf8(File(objects)), Offset(objects, k), Utf8(objects[k]))
  {
    BodySplits(objects, k);
    ObjectInside(Body(objects[..k]), objects[k], Rest(objects, k + 1), Xref(objects));
  }

  lemma ObjectInside(before: string, here: string, rest: string, section: string)
    ensures HoldsAt(Utf8((before + ((here + "\n") + rest)) + section), |Utf8(before)|, Utf8(here))
  {
    Regroup(before, (here + "\n") + rest, section);
    Regroup(here, "\n", rest);
    Regroup(here, "\n" + rest, section);
    BytesAt(before, here, ("\n" + rest) + section);
  }

  /** xrefStart is the byte position of the xref keyword. */
  lemma XrefIsAtStart(objects: seq<string>)
    ensures |Utf8(Body(objects))| <= |Utf8(File(objects))|
    ensures Utf8(File(objects))[|Utf8(Body(objects))|..] == Utf8(Xref(objects))
  {
    Utf8Concat(Body(objects), Xref(objects));
  }

  lemma PadStartWidth(offset: nat)
    ensures |PadStart(Decimal(offset))| == 10 <==> offset < Pow10(10)
    ensures Ascii(PadStart(Decimal(offset)))
    ensures ReadNumber(CodesOf(PadStart(Decimal(offset))), 0, |PadStart(Decimal(offset))|) == offset
  {
    var number := Decimal(offset);
    DecimalWidth(offset, 10);
    ReadDecimal(offset);
    if |number| < 10 {
      LeadingZeros(CodesOf(PadStart(number)), 10 - |number|, CodesOf(number), |number|);
    }
  }

  lemma EntryEndWidth()
    ensures |Utf8(ENTRY_END)| == 10
  {
    AsciiWidth(ENTRY_END);
  }

  lemma NumberFirst(text: string, end: string)
    requires Ascii(text)
    ensures |Utf8(text + end)| == |text| + |Utf8(end)|
    ensures ReadNumber(Utf8(text + end), 0, |text|) == ReadNumber(CodesOf(text), 0, |text|)
  {
    Utf8OfAscii(text);
    Utf8Concat(text, end);
    NumberAt(Utf8(text) + Utf8(end), 0, Utf8(text), |text|);
  }

  lemma EntryIsTwentyBytes(offset: nat)
    ensures |Utf8(Entry(offset))| == 20 <==> offset < Pow10(10)
    ensures offset < Pow10(10) ==> ReadNumber(Utf8(Entry(offset)), 0, 10) == offset
  {
    PadStartWidth(offset);
    EntryEndWidth();
    NumberFirst(PadStart(Decimal(offset)), ENTRY_END);
  }

  lemma {:induction false} FlatLength(cells: seq<seq<Byte>>, width: nat)
    requires forall i :: 0 <= i < |cells| ==> |cells[i]| == width
    ensures |Flat(cells)| == width * |cells|
  {
    if cells != [] {
      FlatLength(cells[..|cells| - 1], width);
      OneMoreCell(width, |cells| - 1);
    }
  }

  lemma OneMoreCell(width: nat, n: nat)
    ensures width * (n + 1) == width * n + width
  {
  }

  lemma {:induction false} CellInOrder(cells: seq<seq<Byte>>, k: nat)
    requires k < |cells| && forall i :: 0 <= i < |cells| ==> |cells[i]| == 20
    ensures |Flat(cells)| == 20 * |cells| && HoldsAt(Flat(cells), 20 * k, cells[k])
  {
    var n := |cells| - 1;
    FlatLength(cells, 20);
    FlatLength(cells[..n], 20);
    if k < n {
      CellInOrder(cells[..n], k);
      HoldsInFront(Flat(cells[..n]), cells[n], 20 * k, cells[k]);
    }
  }

  lemma HoldsBehind(front: seq<Byte>, cell: seq<Byte>)
    ensures HoldsAt(front + cell, |front|, cell)
  {
  }

  lemma HoldsInFront(front: seq<Byte>, more: seq<Byte>, at: nat, cell: seq<Byte>)
    requires HoldsAt(front, at, cell)
    ensures HoldsAt(front + more, at, cell)
  {
    forall i | 0 <= i < |cell|
      ensures (front + more)[at + i] == cell[i]
    {
      assert front[at + i] == cell[i];
    }
  }

  /** The encoded entries, one cell each. */
  function Cells(offsets: seq<int>): (r: seq<seq<Byte>>)
    requires forall i :: 0 <= i < |offsets| ==> offsets[i] >= 0
    ensures |r| == |offsets|
  {
    if offsets == [] then [] else Cells(offsets[..|offsets| - 1]) + [Utf8(Entry(offsets[|offsets| - 1]))]
  }

  /** Twenty bytes whose first ten read as the number. */
  predicate CellReads(cell: seq<Byte>, n: int) {
    |cell| == 20 && ReadNumber(cell, 0, |cell| - 10) == n
  }

  lemma {:induction false} CellIsEntry(offsets: seq<int>, k: nat)
    requires k < |offsets| && forall i :: 0 <= i < |offsets| ==> offsets[i] >= 0
    ensures Cells(offsets)[k] == Utf8(Entry(offsets[k]))
  {
    if k < |offsets| - 1 {
      CellIsEntry(offsets[..|offsets| - 1], k);
    }
  }

  lemma CellsRead(offsets: seq<int>) returns (cells: seq<seq<Byte>>)
    requires forall i :: 0 <= i < |offsets| ==> 0 <= offsets[i] < Pow10(10)
    ensures cells == Cells(offsets) && forall i :: 0 <= i < |offsets| ==> CellReads(cells[i], offsets[i])
  {
    cells := Cells(offsets);
    forall i | 0 <= i < |offsets|
      ensures CellReads(cells[i], offsets[i])
    {
      CellIsEntry(offsets, i);
      EntryIsTwentyBytes(offsets[i]);
    }
  }

  lemma {:induction false} EntriesAreCells(offsets: seq<int>)
    requires forall i :: 0 <= i < |offsets| ==> offsets[i] >= 0
    ensures Utf8(Entries(offsets)) == Flat(Cells(offsets))
  {
    if offsets != [] {
      var n := |offsets| - 1;
      EntriesAreCells(offsets[..n]);
      Utf8Concat(Entries(offsets[..n]), Entry(offsets[n]));
      assert Cells(offsets)[..n] == Cells(offsets[..n]);
    }
  }

  /** The offset a reader finds in entry k of a cross-reference section that starts at `xref`. */
  function ReadXrefEntry(file: seq<Byte>, xref: nat, k: nat): int
    requires xref + 29 + 20 * k <= |file|
  {
    ReadNumber(file, xref + 9 + 20 * k, 10)
  }

  lemma OffsetsAreSmall(title: string, lines: seq<string>, k: nat)
    requires k < 5
    ensures Offset(Objects(title, lines), k) < Pow10(10)
  {
    var objects := Objects(title, lines);
    assert Pow10(4) == 10_000;
    assert Pow10(8) == 10_000 * 10_000;
    assert Pow10(10) == 10_000_000_000;
    BodyIsShort(objects, k);
  }

  lemma {:induction false} BodyIsShort(objects: seq<string>, k: nat)
    requires k <= |objects| && forall i :: 0 <= i < k ==> |objects[i]| <= 1000
    ensures |Body(objects[..k])| <= 9 + 1001 * k
  {
    if k > 0 {
      BodyIsShort(objects, k - 1);
      assert objects[..k][..k - 1] == objects[..k - 1];
    }
  }

  lemma NumberInCell(file: seq<Byte>, xref: nat, k: nat, cell: seq<Byte>)
    requires k >= 1 && |cell| == 20 && HoldsAt(file, xref + 29 + 20 * (k - 1), cell)
    ensures xref + 29 + 20 * k <= |file| && ReadXrefEntry(file, xref, k) == ReadNumber(cell, 0, |cell| - 10)
  {
    NumberAt(file, xref + 9 + 20 * k, cell, |cell| - 10);
  }

  lemma Utf8OfFile(body: string, head: string, table: string, tail: string) returns (file: seq<Byte>)
    ensures file == Utf8(body + (head + table + tail))
    ensures file == Utf8(body) + (Utf8(head) + Utf8(table) + Utf8(tail))
  {
    file := Utf8(body + (head + table + tail));
    Utf8Concat(body, head + table + tail);
    Utf8Concat(head + table, tail);
    Utf8Concat(head, table);
  }

  lemma TableHolds(body: string, head: string, table: string, tail: string, bytes: seq<Byte>) returns (file: seq<Byte>)
    requires |Utf8(head)| == 29 && bytes == Utf8(table)
    ensures file == Utf8(body + (head + table + tail)) && HoldsAt(file, |Utf8(body)| + 29, bytes)
  {
    file := Utf8OfFile(body, head, table, tail);
    MiddleHolds(file, Utf8(body), Utf8(head), bytes, Utf8(tail));
  }

  lemma MiddleHolds(file: seq<Byte>, body: seq<Byte>, head: seq<Byte>, table: seq<Byte>, tail: seq<Byte>)
    requires file == body + (head + table + tail) && |head| == 29
    ensures HoldsAt(file, |body| + 29, table)
  {
    forall i | 0 <= i < |table|
      ensures file[|body| + 29 + i] == table[i]
    {
    }
  }

  lemma HoldsWithin(file: seq<Byte>, at: nat, table: seq<Byte>, inner: nat, cell: seq<Byte>)
    requires HoldsAt(file, at, table) && HoldsAt(table, inner, cell)
    ensures HoldsAt(file, at + inner, cell)
  {
    forall i | 0 <= i < |cell|
      ensures file[at + inner + i] == cell[i]
    {
      assert table[inner + i] == cell[i];
    }
  }

  /** Entry k read at the xref position gives an offset at which `here` stands. */
  ghost predicate EntryLeadsTo(file: seq<Byte>, xref: nat, k: nat, here: seq<Byte>) {
    && xref + 29 + 20 * k <= |file|
    && var at := ReadXrefEntry(file, xref, k);
       at >= 0 && HoldsAt(file, at, here)
  }

  /** Following the cross-reference table of the printed file leads to every object: entry k read where
      the table starts gives the byte position of object k. */
  lemma XrefLeadsToObjects(title: string, lines: seq<string>, k: nat) returns (file: seq<Byte>, xref: nat)
    requires 1 <= k <= 5
    ensures file == Utf8(File(Objects(title, lines))) && xref == |Utf8(Body(Objects(title, lines)))|
    ensures EntryLeadsTo(file, xref, k, Utf8(Objects(title, lines)[k - 1]))
  {
    var objects := Objects(title, lines);
    forall i | 0 <= i < 5
      ensures Offset(objects, i) < Pow10(10)
    {
      OffsetsAreSmall(title, lines, i);
    }
    file, xref := XrefLeadsTo(objects, k);
  }

  lemma TableInFile(objects: seq<string>, offsets: seq<int>, cells: seq<seq<Byte>>) returns (file: seq<Byte>, xref: nat)
    requires offsets == Offsets(objects, |objects|) && cells == Cells(offsets)
    ensures file == Utf8(File(objects)) && xref == |Utf8(Body(objects))|
    ensures HoldsAt(file, xref + 29, Flat(cells))
  {
    XrefHeadWidth();
    EntriesAreCells(offsets);
    xref := |Utf8(Body(objects))|;
    file := TableHolds(Body(objects), XREF_HEAD + FREE_ENTRY, Entries(offsets), Tail(xref), Flat(cells));
  }

  lemma EntryInTable(file: seq<Byte>, xref: nat, cells: seq<seq<Byte>>, offsets: seq<int>, k: nat)
    requires 1 <= k <= |offsets| == |cells| && HoldsAt(file, xref + 29, Flat(cells))
    requires forall i :: 0 <= i < |offsets| ==> CellReads(cells[i], offsets[i])
    ensures xref + 29 + 20 * k <= |file| && ReadXrefEntry(file, xref, k) == offsets[k - 1]
  {
    CellInOrder(cells, k - 1);
    HoldsWithin(file, xref + 29, Flat(cells), 20 * (k - 1), cells[k - 1]);
    NumberInCell(file, xref, k, cells[k - 1]);
  }

  /** Entry k read in the finished file, where the table starts, is the k-th recorded offset. */
  lemma EntryIsOffset(objects: seq<string>, offsets: seq<int>, k: nat) returns (file: seq<Byte>, xref: nat)
    requires 1 <= k <= |offsets| && offsets == Offsets(objects, |objects|)
    requires forall i :: 0 <= i < |offsets| ==> 0 <= offsets[i] < Pow10(10)
    ensures file == Utf8(File(objects)) && xref == |Utf8(Body(objects))|
    ensures xref + 29 + 20 * k <= |file| && ReadXrefEntry(file, xref, k) == offsets[k - 1]
  {
    var cells := CellsRead(offsets);
    file, xref := TableInFile(objects, offsets, cells);
    EntryInTable(file, xref, cells, offsets, k);
  }

  lemma XrefLeadsTo(objects: seq<string>, k: nat) returns (file: seq<Byte>, xref: nat)
    requires 1 <= k <= |objects| && forall i :: 0 <= i < |objects| ==> Offset(objects, i) < Pow10(10)
    ensures file == Utf8(File(objects)) && xref == |Utf8(Body(objects))|
    ensures EntryLeadsTo(file, xref, k, Utf8(objects[k - 1]))
  {
    var at := Offset(objects, k - 1);
    file, xref := EntryIsOffset(objects, Offsets(objects, |objects|), k);
    ObjectsAreAtTheirOffsets(objects, k - 1);
    Leads(file, xref, k, at, Utf8(objects[k - 1]));
  }

  lemma Leads(file: seq<Byte>, xref: nat, k: nat, at: nat, here: seq<Byte>)
    requires xref + 29 + 20 * k <= |file| && ReadXrefEntry(file, xref, k) == at && HoldsAt(file, at, here)
    ensures EntryLeadsTo(file, xref, k, here)
  {
  }

  lemma XrefHeadWidth()
    ensures |Utf8(XREF_HEAD + FREE_ENTRY)| == 29
  {
    AsciiWidth(XREF_HEAD + FREE_ENTRY);
  }

  lemma NumberNearEnd(before: string, number: string, end: string) returns (file: seq<Byte>)
    ensures file == Utf8(before + (number + end)) && |file| == |Utf8(before)| + |Utf8(number)| + |Utf8(end)|
    ensures HoldsAt(file, |Utf8(before)|, Utf8(number))
  {
    file := Utf8(before + (number + end));
    Utf8Concat(before, number + end);
    Utf8Concat(number, end);
    HoldsBetween(Utf8(before), Utf8(number), Utf8(end));
  }

  lemma HoldsBetween(before: seq<Byte>, cell: seq<Byte>, after: seq<Byte>)
    ensures HoldsAt(before + (cell + after), |before|, cell)
  {
  }

  lemma FileEndsWith(body: string, table: string, trailer: string, last: string)
    ensures body + (table + (trailer + last)) == (body + (table + trailer)) + last
  {
    Regroup(table, trailer, last);
    Regroup(body, table + trailer, last);
  }

  lemma FileBeforeNumber(objects: seq<string>, xref: nat) returns (before: string)
    requires xref == |Utf8(Body(objects))|
    ensures File(objects) == before + (Decimal(xref) + END_OF_FILE)
  {
    var table := XREF_HEAD + FREE_ENTRY + Entries(Offsets(objects, |objects|));
    before := Body(objects) + (table + TRAILER);
    FileEndsWith(Body(objects), table, TRAILER, Decimal(xref) + END_OF_FILE);
  }

  lemma DigitsRead(n: nat) returns (number: seq<Byte>)
    ensures number == Utf8(Decimal(n)) && ReadNumber(number, 0, |number|) == n
  {
    number := Utf8(Decimal(n));
    ReadDecimal(n);
    Utf8OfAscii(Decimal(n));
  }

  lemma NumberReadsBack(before: string, n: nat, end: string) returns (file: seq<Byte>, number: seq<Byte>, at: nat)
    ensures file == Utf8(before + (Decimal(n) + end)) && at == |Utf8(before)|
    ensures HoldsAt(file, at, number) && at + |number| + |Utf8(end)| == |file|
    ensures ReadNumber(number, 0, |number|) == n
  {
    number := DigitsRead(n);
    file := NumberNearEnd(before, Decimal(n), end);
    at := |Utf8(before)|;
  }

  lemma EndOfFileWidth()
    ensures |Utf8(END_OF_FILE)| == 6
  {
    AsciiWidth(END_OF_FILE);
  }

  /** The number before the end-of-file mark, right after startxref, reads back as the position of the xref
      keyword. */
  lemma StartXrefReadsBack(objects: seq<string>) returns (file: seq<Byte>, xref: nat, number: seq<Byte>, at: nat)
    ensures file == Utf8(File(objects)) && xref == |Utf8(Body(objects))|
    ensures HoldsAt(file, at, number) && at + |number| + 6 == |file|
    ensures ReadNumber(number, 0, |number|) == xref
  {
    xref := |Utf8(Body(objects))|;
    var before := FileBeforeNumber(objects, xref);
    EndOfFileWidth();
    file, number, at := NumberReadsBack(before, xref, END_OF_FILE);
  }

  /** /Length reads back as the number of bytes between the stream keyword's line end and the line end
      before endstream. */
  lemma LengthIsStreamBytes(stream: string)
    returns (content: seq<Byte>, number: seq<Byte>, data: seq<Byte>, end: seq<Byte>)
    ensures content == Utf8(ContentObject(stream)) && data == Utf8(stream) && end == Utf8(STREAM_END)
    ensures |content| == 30 + |number| + |data| + |end| && |end| == 17
    ensures HoldsAt(content, 19, number) && ReadNumber(number, 0, |number|) == |data|
    ensures HoldsAt(content, 30 + |number|, data) && HoldsAt(content, 30 + |number| + |data|, end)
  {
    var head, start;
    content, head, number, start, data, end := ContentInParts(stream);
    PartsHold(content, head, number, start, data, end);
  }

  lemma PartsHold(content: seq<Byte>, head: seq<Byte>, number: seq<Byte>, start: seq<Byte>, data: seq<Byte>,
                  end: seq<Byte>)
    requires content == head + number + start + data + end
    requires |head| == 19 && |start| == 11
    ensures |content| == 30 + |number| + |data| + |end|
    ensures HoldsAt(content, 19, number)
    ensures HoldsAt(content, 30 + |number|, data) && HoldsAt(content, 30 + |number| + |data|, end)
  {
    var two, three, four := head + number, head + number + start, head + number + start + data;
    HoldsBehind(head, number);
    HoldsInFront(two, start, 19, number);
    HoldsInFront(three, data, 19, number);
    HoldsInFront(four, end, 19, number);
    HoldsBehind(three, data);
    HoldsInFront(four, end, 30 + |number|, data);
    HoldsBehind(four, end);
  }

  lemma ContentInParts(stream: string)
    returns (content: seq<Byte>, head: seq<Byte>, number: seq<Byte>, start: seq<Byte>, data: seq<Byte>, end: seq<Byte>)
    ensures content == Utf8(ContentObject(stream)) && data == Utf8(stream) && end == Utf8(STREAM_END)
    ensures content == head + number + start + data + end
    ensures |head| == 19 && |start| == 11 && |end| == 17
    ensures |number| == |Decimal(|data|)| && ReadNumber(number, 0, |number|) == |data|
  {
    var text := Decimal(|Utf8(stream)|);
    ReadDecimal(|Utf8(stream)|);
    Utf8OfAscii(text);
    FixedWidths();
    Utf8OfFive(LENGTH_HEAD, text, STREAM_START, stream, STREAM_END);
    content, data, end := Utf8(ContentObject(stream)), Utf8(stream), Utf8(STREAM_END);
    head, number, start := Utf8(LENGTH_HEAD), Utf8(text), Utf8(STREAM_START);
  }

  lemma FixedWidths()
    ensures |Utf8(LENGTH_HEAD)| == 19 && |Utf8(STREAM_START)| == 11 && |Utf8(STREAM_END)| == 17
  {
    LengthHeadWidth();
    StreamStartWidth();
    StreamEndWidth();
  }

  lemma LengthHeadWidth()
    ensures |Utf8(LENGTH_HEAD)| == 19
  {
    AsciiWidth(LENGTH_HEAD);
  }

  lemma StreamStartWidth()
    ensures |Utf8(STREAM_START)| == 11
  {
    AsciiWidth(STREAM_START);
  }

  lemma StreamEndWidth()
    ensures |Utf8(STREAM_END)| == 17
  {
    AsciiWidth(STREAM_END);
  }

  lemma Utf8OfFive(h: string, n: string, m: string, s: string, e: string)
    ensures Utf8(h + n + m + s + e) == Utf8(h) + Utf8(n) + Utf8(m) + Utf8(s) + Utf8(e)
  {
    Utf8Concat(h + n + m + s, e);
    Utf8Concat(h + n + m, s);
    Utf8Concat(h + n, m);
    Utf8Concat(h, n);
  }

  // ---- Literal strings ----

  function Escaped(c: char): string {
    if c == '\\' || c == '(' || c == ')' then ['\\', c] else [c]
  }

  function EscapeEach(text: string): string {
    if text == "" then "" else Escaped(text[0]) + EscapeEach(text[1..])
  }

  lemma {:induction false} ReplaceConcat(a: string, b: string, c: char, with: string)
    ensures Replace(a + b, c, with) == Replace(a, c, with) + Replace(b, c, with)
  {
    if a == "" {
      assert a + b == b;
    } else {
      assert (a + b)[1..] == a[1..] + b;
      ReplaceConcat(a[1..], b, c, with);
    }
  }

  lemma ReplaceOne(x: char, c: char, with: string)
    ensures Replace([x], c, with) == if x == c then with else [x]
  {
    assert [x][1..] == "";
  }

  lemma ReplaceTwo(x: char, y: char, c: char, with: string)
    ensures Replace([x, y], c, with) == (if x == c then with else [x]) + (if y == c then with else [y])
  {
    assert [x, y][1..] == [y];
    ReplaceOne(y, c, with);
  }

  /** The three passes escape each character once. */
  lemma {:induction false} ThreePasses(text: string)
    ensures EscapePdfText(text) == EscapeEach(text)
  {
    if text != "" {
      var x, more := text[0], text[1..];
      ThreePasses(more);
      var one := if x == '\\' then "\\\\" else [x];
      var first := Replace(more, '\\', "\\\\");
      assert Replace(text, '\\', "\\\\") == one + first;
      ReplaceConcat(one, first, '(', "\\(");
      var two := Replace(one, '(', "\\(");
      ReplaceOne(x, '(', "\\(");
      ReplaceTwo('\\', '\\', '(', "\\(");
      ReplaceConcat(two, Replace(first, '(', "\\("), ')', "\\)");
      ReplaceOne(x, ')', "\\)");
      ReplaceTwo('\\', '\\', ')', "\\)");
      ReplaceTwo('\\', '(', ')', "\\)");
      assert Replace(two, ')', "\\)") == Escaped(x);
    }
  }

  predicate Octal(c: char) { '0' <= c <= '7' }

  /** How many of the first three characters are octal digits. */
  function OctalRun(s: string): (n: nat)
    ensures n <= 3 && n <= |s|
  {
    if |s| >= 1 && Octal(s[0]) then
      if |s| >= 2 && Octal(s[1]) then
        if |s| >= 3 && Octal(s[2]) then 3 else 2
      else 1
    else 0
  }

  function OctalValue(s: string): int {
    if s == "" then 0 else 8 * OctalValue(s[..|s| - 1]) + s[|s| - 1] as int - '0' as int
  }

  function AfterEndOfLine(s: string): (r: string)
    requires s != "" && (s[0] == '\n' || s[0] == '\r')
    ensures |r| < |s|
  {
    if s[0] == '\r' && |s| > 1 && s[1] == '\n' then s[2..] else s[1..]
  }

  function Prefix(text: string, r: Option<(string, string)>): Option<(string, string)> {
    match r case None => None case Some((t, rest)) => Some((text + t, rest))
  }

  /** A literal string, after its opening parenthesis and inside `depth` more: balanced parentheses stand
      for themselves, a reverse solidus escapes, and every end-of-line marker reads as a line feed. */
  function ReadLiteral(s: string, depth: nat): (r: Option<(string, string)>)
    ensures r.Some? ==> |r.value.1| < |s|
    decreases |s|
  {
    if s == "" then None
    else if s[0] == ')' then
      if depth == 0 then Some(("", s[1..])) else Prefix(")", ReadLiteral(s[1..], depth - 1))
    else if s[0] == '(' then Prefix("(", ReadLiteral(s[1..], depth + 1))
    else if s[0] == '\\' then
      if |s| == 1 then None
      else
        var c := s[1];
        var run := OctalRun(s[1..]);
        if run > 0 then Prefix([(OctalValue(s[1..1 + run]) % 256) as char], ReadLiteral(s[1 + run..], depth))
        else if c == '\n' || c == '\r' then ReadLiteral(AfterEndOfLine(s[1..]), depth)
        else
          var meant := if c == 'n' then '\n' else if c == 'r' then '\r' else if c == 't' then '\t'
                       else if c == 'b' then '\U{08}' else if c == 'f' then '\U{0C}' else c;
          Prefix([meant], ReadLiteral(s[2..], depth))
    else if s[0] == '\n' || s[0] == '\r' then Prefix("\n", ReadLiteral(AfterEndOfLine(s), depth))
    else Prefix([s[0]], ReadLiteral(s[1..], depth))
  }

  /** A text with its end-of-line markers as single line feeds. */
  function LineFeeds(text: string): string
    decreases |text|
  {
    if text == "" then ""
    else if text[0] == '\r' then "\n" + LineFeeds(AfterEndOfLine(text))
    else [text[0]] + LineFeeds(text[1..])
  }

  lemma EscapeEachStart(text: string)
    requires text != ""
    ensures EscapeEach(text) != ""
    ensures EscapeEach(text)[0] == '\n' <==> text[0] == '\n'
  {
  }

  lemma ReadEscapePair(x: char, tail: string)
    requires x == '\\' || x == '(' || x == ')'
    ensures ReadLiteral(['\\', x] + tail, 0) == Prefix([x], ReadLiteral(tail, 0))
  {
    var s := ['\\', x] + tail;
    assert s[2..] == tail && OctalRun(s[1..]) == 0;
  }

  lemma ReadPlain(x: char, tail: string)
    requires x != '\\' && x != '(' && x != ')' && x != '\r'
    ensures ReadLiteral([x] + tail, 0) == Prefix([x], ReadLiteral(tail, 0))
  {
    assert ([x] + tail)[1..] == tail;
  }

  lemma ReadReturn(tail: string)
    requires tail != ""
    ensures ReadLiteral("\r" + tail, 0) == Prefix("\n", ReadLiteral(if tail[0] == '\n' then tail[1..] else tail, 0))
  {
    assert ("\r" + tail)[1..] == tail;
    assert ("\r" + tail)[2..] == tail[1..];
  }

  lemma ReturnThenFeed(text: string, rest: string)
    requires |text| > 1 && text[0] == '\r' && text[1] == '\n'
    ensures EscapeEach(text[1..]) + (")" + rest) == "\n" + (EscapeEach(text[2..]) + (")" + rest))
  {
    assert text[1..][1..] == text[2..];
    Regroup("\n", EscapeEach(text[2..]), ")" + rest);
  }

  lemma {:induction false} ReadEscaped(text: string, rest: string)
    ensures ReadLiteral(EscapeEach(text) + (")" + rest), 0) == Some((LineFeeds(text), rest))
    decreases |text|
  {
    if text == "" {
      assert EscapeEach(text) + (")" + rest) == ")" + rest;
      assert (")" + rest)[1..] == rest;
    } else {
      var x, more := text[0], text[1..];
      var tail := EscapeEach(more) + (")" + rest);
      ReadEscaped(more, rest);
      Regroup(Escaped(x), EscapeEach(more), ")" + rest);
      if x == '\\' || x == '(' || x == ')' {
        ReadEscapePair(x, tail);
      } else if x != '\r' {
        ReadPlain(x, tail);
      } else {
        ReadReturn(tail);
        if more != "" && more[0] == '\n' {
          ReadEscaped(text[2..], rest);
          ReturnThenFeed(text, rest);
          assert tail[1..] == EscapeEach(text[2..]) + (")" + rest);
        } else {
          NoFeedFirst(more, rest);
        }
      }
    }
  }

  lemma NoFeedFirst(text: string, rest: string)
    requires text == "" || text[0] != '\n'
    ensures (EscapeEach(text) + (")" + rest))[0] != '\n'
  {
    if text != "" {
      EscapeEachStart(text);
    }
  }

  lemma {:induction false} LineFeedsHasNoReturn(text: string)
    ensures '\r' !in LineFeeds(text)
    ensures '\r' !in text ==> LineFeeds(text) == text
    decreases |text|
  {
    if text != "" {
      assert text[0] in text;
      if text[0] == '\r' {
        LineFeedsHasNoReturn(AfterEndOfLine(text));
      } else {
        LineFeedsHasNoReturn(text[1..]);
        assert text == [text[0]] + text[1..];
      }
    }
  }

  /** A reader of the printed literal string stops exactly at its closing parenthesis, for every text,
      and reads that text back if and only if it holds no carriage return. */
  lemma LiteralRoundTrip(text: string, rest: string)
    ensures ReadLiteral(EscapePdfText(text) + (")" + rest), 0) == Some((LineFeeds(text), rest))
    ensures LineFeeds(text) == text <==> '\r' !in text
  {
    ThreePasses(text);
    ReadEscaped(text, rest);
    LineFeedsHasNoReturn(text);
  }

  // ---- What the page shows ----

  /** The texts that a content stream shows: the literal strings that are operands of Tj, in order. */
  function ShownTexts(s: string): Option<seq<string>>
    decreases |s|
  {
    if s == "" then Some([])
    else if s[0] != '(' then ShownTexts(s[1..])
    else
      match ReadLiteral(s[1..], 0)
      case None => None
      case Some((text, rest)) => if " Tj" <= rest then Shown(text, ShownTexts(rest)) else None
  }

  function Shown(text: string, more: Option<seq<string>>): Option<seq<string>> {
    match more
    case None => None
    case Some(texts) => Some([text] + texts)
  }

  lemma {:induction false} OperatorsShowNothing(p: string, rest: string)
    requires '(' !in p
    ensures ShownTexts(p + rest) == ShownTexts(rest)
  {
    if p == "" {
      assert p + rest == rest;
    } else {
      assert p[0] in p;
      assert (p + rest)[1..] == p[1..] + rest;
      OperatorsShowNothing(p[1..], rest);
    }
  }

  lemma ShowIsRead(text: string, rest: string)
    ensures ShownTexts(Show(text) + rest) == Shown(LineFeeds(text), ShownTexts(rest))
  {
    var after := " Tj" + rest;
    var s := Show(text) + rest;
    assert s[1..] == EscapePdfText(text) + (")" + after);
    LiteralRoundTrip(text, after);
    OperatorsShowNothing(" Tj", rest);
  }

  lemma JoinTwo(a: string, parts: seq<string>)
    requires parts != []
    ensures JoinLines([a] + parts) == a + ("\n" + JoinLines(parts))
  {
    assert ([a] + parts)[1..] == parts;
    Regroup(a, "\n", JoinLines(parts));
  }

  lemma OperatorLine(a: string, parts: seq<string>)
    requires parts != [] && '(' !in a
    ensures ShownTexts(JoinLines([a] + parts)) == ShownTexts(JoinLines(parts))
  {
    JoinTwo(a, parts);
    OperatorsShowNothing(a, "\n" + JoinLines(parts));
    OperatorsShowNothing("\n", JoinLines(parts));
  }

  lemma TextLine(text: string, parts: seq<string>)
    requires parts != []
    ensures ShownTexts(JoinLines([Show(text)] + parts)) == Shown(LineFeeds(text), ShownTexts(JoinLines(parts)))
  {
    JoinTwo(Show(text), parts);
    ShowIsRead(text, "\n" + JoinLines(parts));
    OperatorsShowNothing("\n", JoinLines(parts));
  }

  /** Texts as a reader gives them back. */
  function ReadBack(texts: seq<string>): seq<string> {
    if texts == [] then [] else [LineFeeds(texts[0])] + ReadBack(texts[1..])
  }

  lemma {:induction false} LinesAreShown(lines: seq<string>)
    ensures ShownTexts(JoinLines(LineOperators(lines) + ["ET"])) == Some(ReadBack(lines))
  {
    if lines == [] {
      assert LineOperators(lines) + ["ET"] == ["ET"];
      OperatorsShowNothing("ET", "");
      assert "ET" + "" == "ET";
    } else {
      var more := LineOperators(lines[1..]) + ["ET"];
      assert LineOperators(lines) + ["ET"] == [Show(lines[0])] + (["0 -14 Td"] + more);
      TextLine(lines[0], ["0 -14 Td"] + more);
      OperatorLine("0 -14 Td", more);
      LinesAreShown(lines[1..]);
    }
  }

  lemma HeadIsShown(title: string, more: seq<string>)
    requires more != []
    ensures ShownTexts(JoinLines(["BT", "/F1 12 Tf", "50 780 Td", Show(title), "0 -18 Td"] + more))
         == Shown(LineFeeds(title), ShownTexts(JoinLines(more)))
  {
    var d := ["0 -18 Td"] + more;
    var c := [Show(title)] + d;
    var b := ["50 780 Td"] + c;
    var a := ["/F1 12 Tf"] + b;
    assert ["BT", "/F1 12 Tf", "50 780 Td", Show(title), "0 -18 Td"] + more == ["BT"] + a;
    OperatorLine("BT", a);
    OperatorLine("/F1 12 Tf", b);
    OperatorLine("50 780 Td", c);
    TextLine(title, d);
    OperatorLine("0 -18 Td", more);
  }

  /** The content stream shows the title and then every line, in order, whatever characters they hold; each text is
      shown exactly unless it holds a carriage return. */
  lemma StreamShowsEveryLine(title: string, lines: seq<string>)
    ensures ShownTexts(Stream(title, lines)) == Some(ReadBack([title] + lines))
  {
    var more := LineOperators(lines) + ["ET"];
    assert ["BT", "/F1 12 Tf", "50 780 Td", Show(title), "0 -18 Td"] + LineOperators(lines) + ["ET"]
        == ["BT", "/F1 12 Tf", "50 780 Td", Show(title), "0 -18 Td"] + more;
    HeadIsShown(title, more);
    LinesAreShown(lines);
    assert ([title] + lines)[1..] == lines;
  }

  lemma {:induction false} ReadBackIsExact(texts: seq<string>)
    requires forall i :: 0 <= i < |texts| ==> '\r' !in texts[i]
    ensures ReadBack(texts) == texts
  {
    if texts != [] {
      LineFeedsHasNoReturn(texts[0]);
      ReadBackIsExact(texts[1..]);
    }
  }

  // ---- What the reader makes of other escapes (Table 3 of section 7.3.4.2) ----

  /** Three octal digits are one character; the parenthesis after them ends the string. */
  lemma OctalEscapeReads(a: nat, b: nat, c: nat, rest: string)
    requires a < 8 && b < 8 && c < 8
    ensures var digits := [(a + 48) as char, (b + 48) as char, (c + 48) as char];
            ReadLiteral("\\" + digits + (")" + rest), 0) == Some(([((64 * a + 8 * b + c) % 256) as char], rest))
  {
    var x, y, z := (a + 48) as char, (b + 48) as char, (c + 48) as char;
    var s := "\\" + [x, y, z] + (")" + rest);
    assert s[1..4] == [x, y, z] && s[4..] == ")" + rest;
    OctalDigits(x, y, z);
    assert OctalRun(s[1..]) == 3;
    StringEnds(rest);
    PrefixEnd([(OctalValue([x, y, z]) % 256) as char], rest);
  }

  lemma OctalMore(front: string, x: char)
    ensures OctalValue(front + [x]) == 8 * OctalValue(front) + x as int - 48
  {
    assert (front + [x])[..|front|] == front;
  }

  lemma StringEnds(rest: string)
    ensures ReadLiteral(")" + rest, 0) == Some(("", rest))
  {
    assert (")" + rest)[1..] == rest;
  }

  lemma PrefixEnd(t: string, rest: string)
    ensures Prefix(t, Some(("", rest))) == Some((t, rest))
  {
    assert t + "" == t;
  }

  lemma PrefixTwice(a: string, b: string, r: Option<(string, string)>)
    ensures Prefix(a, Prefix(b, r)) == Prefix(a + b, r)
  {
    if r.Some? {
      Regroup(a, b, r.value.0);
    }
  }

  lemma OctalDigits(x: char, y: char, z: char)
    requires Octal(x) && Octal(y) && Octal(z)
    ensures OctalValue([x, y, z]) == 64 * (x as int - 48) + 8 * (y as int - 48) + (z as int - 48)
  {
    OctalMore("", x);
    OctalMore([x], y);
    OctalMore([x, y], z);
    assert "" + [x] == [x] && [x] + [y] == [x, y] && [x, y] + [z] == [x, y, z];
  }

  predicate PlainText(t: string) {
    forall i :: 0 <= i < |t| ==> t[i] !in "()\\\n\r"
  }

  lemma OnePlain(x: char, tail: string, depth: nat)
    requires x !in "()\\\n\r"
    ensures ReadLiteral([x] + tail, depth) == Prefix([x], ReadLiteral(tail, depth))
  {
    var plain := "()\\\n\r";
    assert plain[0] != x && plain[1] != x && plain[2] != x && plain[3] != x && plain[4] != x;
    assert ([x] + tail)[1..] == tail;
  }

  lemma {:induction false} PlainReads(t: string, tail: string, depth: nat)
    requires PlainText(t)
    ensures ReadLiteral(t + tail, depth) == Prefix(t, ReadLiteral(tail, depth))
  {
    if t == "" {
      assert t + tail == tail;
      if ReadLiteral(tail, depth).Some? {
        assert "" + ReadLiteral(tail, depth).value.0 == ReadLiteral(tail, depth).value.0;
      }
    } else {
      assert (t + tail)[0] == t[0] && (t + tail)[1..] == t[1..] + tail;
      assert t[0] !in "()\\\n\r";
      OnePlain(t[0], t[1..] + tail, depth);
      PlainReads(t[1..], tail, depth);
      PrefixTwice([t[0]], t[1..], ReadLiteral(tail, depth));
      assert [t[0]] + t[1..] == t && [t[0]] + (t[1..] + tail) == t + tail;
    }
  }

  /** Balanced parentheses need no escape and stand for themselves. */
  lemma BalancedReads(t: string, rest: string)
    requires PlainText(t)
    ensures ReadLiteral("(" + (t + (")" + (")" + rest))), 0) == Some(("(" + t + ")", rest))
  {
    var inner := ")" + (")" + rest);
    assert ("(" + (t + inner))[1..] == t + inner;
    PlainReads(t, inner, 1);
    assert inner[1..] == ")" + rest;
    StringEnds(rest);
    PrefixEnd(")", rest);
    assert ReadLiteral(inner, 1) == Some((")", rest));
    PrefixTwice("(", t, Some((")", rest)));
  }

  // ---- UTF-8 undone (section 3 of RFC 3629) ----

  /** The code point of a well-formed sequence of one to four bytes. */
  function CodePoint(r: seq<Byte>): int
    requires 1 <= |r| <= 4
  {
    match |r|
    case 1 => r[0]
    case 2 => (r[0] - 0xC0) * 0x40 + (r[1] - 0x80)
    case 3 => (r[0] - 0xE0) * 0x1000 + (r[1] - 0x80) * 0x40 + (r[2] - 0x80)
    case 4 => (r[0] - 0xF0) * 0x4_0000 + (r[1] - 0x80) * 0x1000 + (r[2] - 0x80) * 0x40 + (r[3] - 0x80)
  }

  lemma ContinuationBytes(n: nat)
    ensures Continuation(n, 1) == [0x80 + n % 0x40]
    ensures Continuation(n, 2) == [0x80 + n / 0x40 % 0x40, 0x80 + n % 0x40]
    ensures Continuation(n, 3) == [0x80 + n / 0x40 / 0x40 % 0x40, 0x80 + n / 0x40 % 0x40, 0x80 + n % 0x40]
  {
    assert Continuation(n / 0x40 / 0x40, 1) == [0x80 + n / 0x40 / 0x40 % 0x40];
    assert Continuation(n / 0x40, 1) == [0x80 + n / 0x40 % 0x40];
    assert Continuation(n / 0x40, 2) == [0x80 + n / 0x40 / 0x40 % 0x40, 0x80 + n / 0x40 % 0x40];
  }

  lemma QuotientsNest(n: nat)
    ensures n / 0x40 / 0x40 == n / 0x1000 && n / 0x40 / 0x40 / 0x40 == n / 0x4_0000
  {
  }

  /** Every character is encoded in the shortest form that holds it, and decodes to itself. */
  lemma EncodeCharDecodes(c: char)
    ensures CodePoint(EncodeChar(c)) == c as int
    ensures |EncodeChar(c)| == (if c as int < 0x80 then 1 else if c as int < 0x800 then 2
                                else if c as int < 0x1_0000 then 3 else 4)
  {
    ContinuationBytes(c as int);
    QuotientsNest(c as int);
  }
}
