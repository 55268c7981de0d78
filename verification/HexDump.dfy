/** The hexadecimal view of a byte string (extensions/storybook/src/binary-inspection.tsx) and a
    fixed-column reader for it. */
module HexDump {
  import opened Framing
  import opened JsText
  import Hex

  const HEX_VIEW_BYTE_LIMIT: nat := 4096

  // --------------------------------------------------------------- printing

  function JoinSpaced(words: seq<string>): string {
    if words == [] then ""
    else if |words| == 1 then words[0]
    else words[0] + " " + JoinSpaced(words[1..])
  }

  function JoinLines(lines: seq<string>): string {
    if lines == [] then ""
    else if |lines| == 1 then lines[0]
    else lines[0] + "\n" + JoinLines(lines[1..])
  }

  function PadEnd(s: string, width: nat): string {
    s + seq(if |s| < width then width - |s| else 0, _ => ' ')
  }

  function Octets(row: Bytes): seq<string> {
    seq(|row|, i requires 0 <= i < |row| => Hex.Padded(row[i] as int, 2))
  }

  function Printable(row: Bytes): string {
    seq(|row|, i requires 0 <= i < |row| => if 0x20 <= row[i] <= 0x7e then row[i] as int as char else '.')
  }

  function Half(octets: seq<string>): string {
    PadEnd(JoinSpaced(octets), 23)
  }

  function Line(offset: nat, row: Bytes): string {
    var middle := if |row| < 8 then |row| else 8;
    Hex.Padded(offset, 8) + "  " + Half(Octets(row)[..middle]) + "  " + Half(Octets(row)[middle..]) +
    "  |" + Printable(row) + "|"
  }

  function Row(shown: Bytes, offset: nat): Bytes
    requires offset < |shown|
  {
    shown[offset..if offset + 16 < |shown| then offset + 16 else |shown|]
  }

  function Lines(shown: Bytes, offset: nat): seq<string>
    decreases |shown| - offset
  {
    if offset >= |shown| then [] else [Line(offset, Row(shown, offset))] + Lines(shown, offset + 16)
  }

  function Truncation(shown: nat, total: nat): string {
    "\U{2026} truncated: showing " + Decimal(shown) + " of " + Decimal(total) + " bytes \U{2026}"
  }

  function Shown(bytes: Bytes): Bytes {
    if |bytes| <= HEX_VIEW_BYTE_LIMIT then bytes else bytes[..HEX_VIEW_BYTE_LIMIT]
  }

  function AllLines(bytes: Bytes, total: nat): seq<string> {
    var shown := Shown(bytes);
    Lines(shown, 0) + (if total > |shown| then [Truncation(|shown|, total)] else [])
  }

  method FormatHex(bytes: Bytes, totalBytes: nat) returns (text: string)
    ensures text == JoinLines(AllLines(bytes, totalBytes))
  {
    var shown := Shown(bytes);
    var lines: seq<string> := [];
    var offset := 0;
    while offset < |shown|
      invariant lines + Lines(shown, offset) == Lines(shown, 0)
    {
      var line := Line(offset, Row(shown, offset));
      assert lines + ([line] + Lines(shown, offset + 16)) == lines + [line] + Lines(shown, offset + 16);
      lines := lines + [line];
      offset := offset + 16;
    }
    assert lines == Lines(shown, 0);
    if totalBytes > |shown| {
      lines := lines + [Truncation(|shown|, totalBytes)];
    }
    text := JoinLines(lines);
  }

  // ---------------------------------------------------------------- reading

  function SplitLines(text: string): (lines: seq<string>)
    ensures |lines| > 0
  {
    if text == [] then [""]
    else if text[0] == '\n' then [""] + SplitLines(text[1..])
    else var rest := SplitLines(text[1..]);
         [[text[0]] + rest[0]] + rest[1..]
  }

  function Column(j: nat): nat {
    if j < 8 then 10 + 3 * j else 35 + 3 * (j - 8)
  }

  function OctetAt(line: string, j: nat): Octet
    requires Column(j) + 2 <= |line|
  {
    Hex.TwoDigits(line[Column(j)..Column(j) + 2]);
    Hex.FromHex(line[Column(j)..Column(j) + 2]) as Octet
  }

  /** The byte count follows from the line length: 62 fixed columns and one per byte. */
  function ReadLine(line: string): Bytes {
    if 62 < |line| <= 78 then seq(|line| - 62, j requires 0 <= j < |line| - 62 => OctetAt(line, j)) else []
  }

  function ReadLines(lines: seq<string>): Bytes {
    if lines == [] then []
    else (if lines[0] != [] && lines[0][0] == '\U{2026}' then [] else ReadLine(lines[0])) + ReadLines(lines[1..])
  }

  function ReadHex(text: string): Bytes {
    ReadLines(SplitLines(text))
  }

  // ----------------------------------------------------------- one line

  lemma {:induction false} JoinSpacedWidth(words: seq<string>)
    requires words != [] && forall i :: 0 <= i < |words| ==> |words[i]| == 2
    ensures |JoinSpaced(words)| == 3 * |words| - 1
  {
    if |words| > 1 {
      JoinSpacedWidth(words[1..]);
    }
  }

  lemma FirstWord(word: string, rest: string)
    requires |word| == 2
    ensures (word + " " + rest)[0..2] == word
  {
  }

  lemma JoinSpacedNext(words: seq<string>)
    requires |words| > 1
    ensures JoinSpaced(words) == words[0] + " " + JoinSpaced(words[1..])
  {
  }

  lemma {:induction false} JoinSpacedColumns(words: seq<string>, j: nat)
    requires forall i :: 0 <= i < |words| ==> |words[i]| == 2
    requires j < |words|
    ensures |JoinSpaced(words)| == 3 * |words| - 1
    ensures JoinSpaced(words)[3 * j..3 * j + 2] == words[j]
    decreases j
  {
    JoinSpacedWidth(words);
    if |words| > 1 {
      var rest := words[1..];
      JoinSpacedWidth(rest);
      JoinSpacedNext(words);
      if j == 0 {
        FirstWord(words[0], JoinSpaced(rest));
      } else {
        JoinSpacedColumns(rest, j - 1);
        LaterWord(words[0], JoinSpaced(rest), 3 * (j - 1));
        assert rest[j - 1] == words[j];
      }
    }
  }

  lemma LaterWord(word: string, rest: string, at: nat)
    requires |word| == 2 && at + 2 <= |rest|
    ensures (word + " " + rest)[3 + at..5 + at] == rest[at..at + 2]
  {
    Shift(word + " ", rest, at, 2);
  }

  /** A window of the back of a concatenation is a window of its second part. */
  lemma Shift(front: string, back: string, at: nat, width: nat)
    requires at + width <= |back|
    ensures (front + back)[|front| + at..|front| + at + width] == back[at..at + width]
  {
  }

  lemma Reach(front: string, middle: string, back: string, at: nat, width: nat)
    requires at + width <= |middle|
    ensures (front + middle + back)[|front| + at..|front| + at + width] == middle[at..at + width]
  {
  }

  lemma OctetWidths(row: Bytes)
    ensures forall i :: 0 <= i < |row| ==> |Octets(row)[i]| == 2
  {
    forall i | 0 <= i < |row| ensures |Octets(row)[i]| == 2 {
      assert Hex.Pow16(2) == 256;
      Hex.PaddedWidth(row[i] as int, 2);
    }
  }

  lemma HalfColumns(octets: seq<string>)
    requires |octets| <= 8 && forall i :: 0 <= i < |octets| ==> |octets[i]| == 2
    ensures |Half(octets)| == 23
    ensures forall j :: 0 <= j < |octets| ==> Half(octets)[3 * j..3 * j + 2] == octets[j]
  {
    forall j | 0 <= j < |octets| ensures Half(octets)[3 * j..3 * j + 2] == octets[j] {
      JoinSpacedColumns(octets, j);
      assert Half(octets)[3 * j..3 * j + 2] == JoinSpaced(octets)[3 * j..3 * j + 2];
    }
    if octets != [] {
      JoinSpacedColumns(octets, 0);
    }
  }

  /** The columns of a line: offset, octets and printable characters. */
  lemma LineColumns(offset: nat, row: Bytes)
    requires 0 < |row| <= 16 && offset < HEX_VIEW_BYTE_LIMIT
    ensures var line := Line(offset, row);
            |line| == 62 + |row| &&
            line[..8] == Hex.Padded(offset, 8) &&
            (forall j :: 0 <= j < |row| ==> line[Column(j)..Column(j) + 2] == Hex.Padded(row[j] as int, 2)) &&
            line[61..61 + |row|] == Printable(row)
  {
    var middle := if |row| < 8 then |row| else 8;
    var octets := Octets(row);
    var head, left, right, tail :=
      Hex.Padded(offset, 8) + "  ", Half(octets[..middle]), Half(octets[middle..]), "  |" + Printable(row) + "|";
    var line := Line(offset, row);
    assert Hex.Pow16(8) == 0x1_0000_0000;
    Hex.PaddedWidth(offset, 8);
    OctetWidths(row);
    HalfColumns(octets[..middle]);
    HalfColumns(octets[middle..]);
    LineParts(offset, row, head, left, right, tail);
    forall j | 0 <= j < |row| ensures line[Column(j)..Column(j) + 2] == Hex.Padded(row[j] as int, 2) {
      OctetColumn(octets, middle, head, left, right, tail, j);
    }
    Shift(head + left + "  " + right, tail, 3, |row|);
    assert tail[3..3 + |row|] == Printable(row);
    assert line[..8] == head[..8];
  }

  /** Where the two halves of a line hold their octets. */
  lemma OctetColumn(octets: seq<string>, middle: nat, head: string, left: string, right: string, tail: string, j: nat)
    requires middle == (if |octets| < 8 then |octets| else 8) && j < |octets| <= 16
    requires forall i :: 0 <= i < |octets| ==> |octets[i]| == 2
    requires |head| == 10 && left == Half(octets[..middle]) && right == Half(octets[middle..])
    ensures var line := head + left + "  " + right + tail;
            Column(j) + 2 <= |line| && line[Column(j)..Column(j) + 2] == octets[j]
  {
    HalfColumns(octets[..middle]);
    HalfColumns(octets[middle..]);
    if j < 8 {
      Reach(head, left, "  " + right + tail, 3 * j, 2);
      assert head + left + ("  " + right + tail) == head + left + "  " + right + tail;
      assert octets[..middle][j] == octets[j];
    } else {
      Reach(head + left + "  ", right, tail, 3 * (j - 8), 2);
      assert octets[middle..][j - 8] == octets[j];
    }
  }

  lemma LineParts(offset: nat, row: Bytes, head: string, left: string, right: string, tail: string)
    requires var middle := if |row| < 8 then |row| else 8;
             head == Hex.Padded(offset, 8) + "  " && left == Half(Octets(row)[..middle]) &&
             right == Half(Octets(row)[middle..]) && tail == "  |" + Printable(row) + "|"
    ensures Line(offset, row) == head + left + "  " + right + tail
    ensures Line(offset, row) == head + left + ("  " + right + tail)
  {
  }

  lemma ReadLineInverts(offset: nat, row: Bytes)
    requires 0 < |row| <= 16 && offset < HEX_VIEW_BYTE_LIMIT
    ensures ReadLine(Line(offset, row)) == row
  {
    LineColumns(offset, row);
    forall j | 0 <= j < |row| ensures OctetAt(Line(offset, row), j) == row[j] {
      Hex.FromPadded(row[j] as int, 2);
    }
  }

  // ------------------------------------------------------------ whole dump

  predicate OneLine(line: string) {
    forall i :: 0 <= i < |line| ==> line[i] != '\n'
  }

  lemma {:induction false} SplitFirst(line: string, rest: string)
    requires OneLine(line)
    ensures SplitLines(line + "\n" + rest) == [line] + SplitLines(rest)
  {
    var text := line + "\n" + rest;
    if line == [] {
      assert text[1..] == rest;
    } else {
      assert text[1..] == line[1..] + "\n" + rest;
      SplitFirst(line[1..], rest);
      assert [line[0]] + line[1..] == line;
    }
  }

  lemma {:induction false} SplitOnly(line: string)
    requires OneLine(line)
    ensures SplitLines(line) == [line]
  {
    if line != [] {
      SplitOnly(line[1..]);
      assert [line[0]] + line[1..] == line;
    }
  }

  lemma {:induction false} SplitJoined(lines: seq<string>)
    requires forall i :: 0 <= i < |lines| ==> OneLine(lines[i])
    ensures lines != [] ==> SplitLines(JoinLines(lines)) == lines
  {
    if |lines| == 1 {
      SplitOnly(lines[0]);
      assert lines == [lines[0]];
    } else if lines != [] {
      SplitJoined(lines[1..]);
      SplitFirst(lines[0], JoinLines(lines[1..]));
      assert lines == [lines[0]] + lines[1..];
    }
  }

  lemma OneLineAppend(a: string, b: string)
    requires OneLine(a) && OneLine(b)
    ensures OneLine(a + b)
  {
  }

  lemma {:induction false} JoinSpacedOneLine(words: seq<string>)
    requires forall i :: 0 <= i < |words| ==> OneLine(words[i])
    ensures OneLine(JoinSpaced(words))
  {
    if |words| > 1 {
      JoinSpacedOneLine(words[1..]);
      JoinSpacedNext(words);
      OneLineAppend(words[0], " ");
      OneLineAppend(words[0] + " ", JoinSpaced(words[1..]));
    }
  }

  lemma HalfOneLine(octets: seq<string>)
    requires forall i :: 0 <= i < |octets| ==> OneLine(octets[i])
    ensures OneLine(Half(octets))
  {
    JoinSpacedOneLine(octets);
  }

  lemma PaddedOneLine(n: nat, width: nat)
    ensures OneLine(Hex.Padded(n, width))
  {
    Hex.PaddedDigits(n, width);
    forall i | 0 <= i < |Hex.Padded(n, width)|
      ensures Hex.Padded(n, width)[i] != '\n'
    {
      assert Hex.Padded(n, width)[i] in Hex.DIGITS;
    }
  }

  lemma OctetsOneLine(row: Bytes)
    ensures forall i :: 0 <= i < |row| ==> OneLine(Octets(row)[i])
  {
    forall i | 0 <= i < |row| ensures OneLine(Octets(row)[i]) {
      PaddedOneLine(row[i] as int, 2);
    }
  }

  lemma PrintableOneLine(row: Bytes)
    ensures OneLine("  |" + Printable(row) + "|")
  {
  }

  lemma LineIsOneLine(offset: nat, row: Bytes)
    ensures OneLine(Line(offset, row))
    ensures Line(offset, row) != [] && Line(offset, row)[0] != '\U{2026}'
  {
    var middle := if |row| < 8 then |row| else 8;
    var head, tail := Hex.Padded(offset, 8) + "  ", "  |" + Printable(row) + "|";
    var left, right := Half(Octets(row)[..middle]), Half(Octets(row)[middle..]);
    OctetsOneLine(row);
    HalfOneLine(Octets(row)[..middle]);
    HalfOneLine(Octets(row)[middle..]);
    PrintableOneLine(row);
    PaddedOneLine(offset, 8);
    PaddedStarts(offset, 8);
    FiveOneLine(head, left, right, tail);
    LineParts(offset, row, head, left, right, tail);
  }

  lemma PaddedStarts(n: nat, width: nat)
    ensures Hex.Padded(n, width) != [] && Hex.Padded(n, width)[0] != '\U{2026}'
  {
    Hex.PaddedDigits(n, width);
    assert Hex.Padded(n, width)[0] in Hex.DIGITS;
  }

  lemma FiveOneLine(head: string, left: string, right: string, tail: string)
    requires OneLine(head) && OneLine(left) && OneLine(right) && OneLine(tail) && head != []
    ensures OneLine(head + left + "  " + right + tail) && (head + left + "  " + right + tail)[0] == head[0]
  {
  }

  lemma {:induction false} LinesAreLines(shown: Bytes, offset: nat)
    ensures forall i :: 0 <= i < |Lines(shown, offset)| ==> OneLine(Lines(shown, offset)[i])
    decreases |shown| - offset
  {
    if offset < |shown| {
      LineIsOneLine(offset, Row(shown, offset));
      LinesAreLines(shown, offset + 16);
    }
  }

  lemma {:induction false} ReadLinesAppend(a: seq<string>, b: seq<string>)
    ensures ReadLines(a + b) == ReadLines(a) + ReadLines(b)
  {
    if a == [] {
      assert a + b == b;
    } else {
      assert (a + b)[1..] == a[1..] + b;
      ReadLinesAppend(a[1..], b);
    }
  }

  lemma ReadLinesOf(line: string, rest: seq<string>)
    requires line != [] && line[0] != '\U{2026}'
    ensures ReadLines([line] + rest) == ReadLine(line) + ReadLines(rest)
  {
    assert ([line] + rest)[1..] == rest;
  }

  lemma RowThenRest(shown: Bytes, offset: nat)
    requires offset < |shown|
    ensures shown[offset..] == Row(shown, offset) + (if offset + 16 <= |shown| then shown[offset + 16..] else [])
  {
  }

  lemma {:induction false} ReadLinesInverts(shown: Bytes, offset: nat)
    requires |shown| <= HEX_VIEW_BYTE_LIMIT && offset <= |shown|
    ensures ReadLines(Lines(shown, offset)) == shown[offset..]
    decreases |shown| - offset
  {
    if offset < |shown| {
      var row := Row(shown, offset);
      ReadLineInverts(offset, row);
      LineIsOneLine(offset, row);
      ReadLinesOf(Line(offset, row), Lines(shown, offset + 16));
      RowThenRest(shown, offset);
      if offset + 16 <= |shown| {
        ReadLinesInverts(shown, offset + 16);
      } else {
        assert Lines(shown, offset + 16) == [];
      }
    }
  }

  /** The dump reads back as the bytes it shows, whatever the announced total. */
  lemma ReadFormatted(bytes: Bytes, total: nat)
    ensures ReadHex(JoinLines(AllLines(bytes, total))) == Shown(bytes)
  {
    var shown := Shown(bytes);
    var note := Truncation(|shown|, total);
    var lines := AllLines(bytes, total);
    LinesAreLines(shown, 0);
    TruncationIsOneLine(|shown|, total);
    SplitJoined(lines);
    ReadLinesInverts(shown, 0);
    if total > |shown| {
      ReadLinesAppend(Lines(shown, 0), [note]);
      assert ReadLines([note][1..]) == [];
    } else {
      assert lines == Lines(shown, 0);
      if shown == [] {
        assert SplitLines(JoinLines(lines)) == [""];
        assert ReadLines([""][1..]) == [];
      }
    }
  }

  lemma TruncationIsOneLine(shown: nat, total: nat)
    ensures OneLine(Truncation(shown, total)) && Truncation(shown, total)[0] == '\U{2026}'
  {
  }

  // -------------------------------------------------------- what is shown

  lemma {:induction false} JoinSpacedBlanks(words: seq<string>, c: nat)
    requires words != [] && forall i :: 0 <= i < |words| ==> |words[i]| == 2
    requires c < 3 * |words| - 1 && c % 3 == 2
    ensures |JoinSpaced(words)| == 3 * |words| - 1 && JoinSpaced(words)[c] == ' '
    decreases c
  {
    JoinSpacedWidth(words);
    JoinSpacedNext(words);
    var rest := words[1..];
    JoinSpacedWidth(rest);
    if c > 2 {
      JoinSpacedBlanks(rest, c - 3);
      assert (words[0] + " " + JoinSpaced(rest))[c] == JoinSpaced(rest)[c - 3];
    }
  }

  lemma HalfBlanks(octets: seq<string>, c: nat)
    requires |octets| <= 8 && forall i :: 0 <= i < |octets| ==> |octets[i]| == 2
    requires c < 23 && (c % 3 == 2 || c >= 3 * |octets|)
    ensures |Half(octets)| == 23 && Half(octets)[c] == ' '
  {
    HalfColumns(octets);
    if octets != [] {
      JoinSpacedWidth(octets);
      if c < 3 * |octets| - 1 {
        JoinSpacedBlanks(octets, c);
      }
    }
  }

  predicate InOctet(c: nat, j: nat) {
    Column(j) <= c < Column(j) + 2
  }

  lemma LeftBlank(octets: seq<string>, middle: nat, c: nat)
    requires middle == (if |octets| < 8 then |octets| else 8) && |octets| <= 16
    requires forall i :: 0 <= i < |octets| ==> |octets[i]| == 2
    requires 10 <= c < 33 && forall j :: 0 <= j < |octets| ==> !InOctet(c, j)
    ensures |Half(octets[..middle])| == 23 && Half(octets[..middle])[c - 10] == ' '
  {
    if (c - 10) / 3 < middle {
      assert !InOctet(c, (c - 10) / 3);
    }
    HalfBlanks(octets[..middle], c - 10);
  }

  lemma RightBlank(octets: seq<string>, middle: nat, c: nat)
    requires middle == (if |octets| < 8 then |octets| else 8) && |octets| <= 16
    requires forall i :: 0 <= i < |octets| ==> |octets[i]| == 2
    requires 35 <= c < 58 && forall j :: 0 <= j < |octets| ==> !InOctet(c, j)
    ensures |Half(octets[middle..])| == 23 && Half(octets[middle..])[c - 35] == ' '
  {
    if (c - 35) / 3 < |octets| - middle {
      assert !InOctet(c, 8 + (c - 35) / 3);
    }
    HalfBlanks(octets[middle..], c - 35);
  }

  /** Between the offset, the octets and the printable column there are only spaces. */
  lemma LineBlanks(offset: nat, row: Bytes, c: nat)
    requires 0 < |row| <= 16 && offset < HEX_VIEW_BYTE_LIMIT
    requires 8 <= c < 60 && forall j :: 0 <= j < |row| ==> !InOctet(c, j)
    ensures |Line(offset, row)| == 62 + |row| && Line(offset, row)[c] == ' '
  {
    var middle := if |row| < 8 then |row| else 8;
    var octets := Octets(row);
    var head, left, right, tail :=
      Hex.Padded(offset, 8) + "  ", Half(octets[..middle]), Half(octets[middle..]), "  |" + Printable(row) + "|";
    LineParts(offset, row, head, left, right, tail);
    LineColumns(offset, row);
    BlankColumn(octets, middle, head, left, right, tail, c) by {
      assert Hex.Pow16(8) == 0x1_0000_0000;
      Hex.PaddedWidth(offset, 8);
      OctetWidths(row);
    }
  }

  lemma BlankColumn(octets: seq<string>, middle: nat, head: string, left: string, right: string, tail: string, c: nat)
    requires middle == (if |octets| < 8 then |octets| else 8) && |octets| <= 16
    requires forall i :: 0 <= i < |octets| ==> |octets[i]| == 2
    requires |head| == 10 && head[8..] == "  " && |tail| > 3 && tail[..2] == "  "
    requires left == Half(octets[..middle]) && right == Half(octets[middle..])
    requires 8 <= c < 60 && forall j :: 0 <= j < |octets| ==> !InOctet(c, j)
    ensures var line := head + left + "  " + right + tail; |line| > 60 && line[c] == ' '
  {
    HalfColumns(octets[..middle]);
    HalfColumns(octets[middle..]);
    LineAt(head, left, right, tail, c);
    if 10 <= c < 33 {
      LeftBlank(octets, middle, c);
    } else if 35 <= c < 58 {
      RightBlank(octets, middle, c);
    } else if c < 10 {
      assert head[8..][c - 8] == ' ';
    } else if c >= 58 {
      assert tail[..2][c - 58] == ' ';
    }
  }

  lemma LineAt(head: string, left: string, right: string, tail: string, c: nat)
    requires |head| == 10 && |left| == 23 && |right| == 23 && |tail| >= 3 && c < 61
    ensures (head + left + "  " + right + tail)[c] ==
            if c < 10 then head[c] else if c < 33 then left[c - 10] else if c < 35 then ' '
            else if c < 58 then right[c - 35] else tail[c - 58]
  {
  }

  function Blocks<T>(f: nat -> T, offset: nat, end: nat): seq<T>
    decreases end - offset
  {
    if offset >= end then [] else [f(offset)] + Blocks(f, offset + 16, end)
  }

  lemma {:induction false} BlocksAt<T>(f: nat -> T, offset: nat, end: nat, k: nat, at: nat)
    requires at == offset + 16 * k < end
    ensures k < |Blocks(f, offset, end)| && Blocks(f, offset, end)[k] == f(at)
    decreases k
  {
    if k > 0 {
      BlocksAt(f, offset + 16, end, k - 1, at);
    }
  }

  ghost predicate Draws(f: nat -> string, shown: Bytes) {
    forall o: nat :: o < |shown| ==> f(o) == Line(o, Row(shown, o))
  }

  lemma {:induction false} LinesAreBlocks(f: nat -> string, shown: Bytes, offset: nat)
    requires Draws(f, shown)
    ensures Lines(shown, offset) == Blocks(f, offset, |shown|)
    decreases |shown| - offset
  {
    if offset < |shown| {
      LinesAreBlocks(f, shown, offset + 16);
    }
  }

  /** Line `k` of the dump starts at byte `16 * k`. */
  lemma LinesAt(shown: Bytes, k: nat, at: nat) returns (line: string)
    requires at == 16 * k < |shown| && |shown| <= HEX_VIEW_BYTE_LIMIT
    ensures k < |Lines(shown, 0)| && Lines(shown, 0)[k] == line
    ensures LineShows(line, at, Row(shown, at))
  {
    var f := (o: nat) => if o < |shown| then Line(o, Row(shown, o)) else "";
    LinesAreBlocks(f, shown, 0);
    BlocksAt(f, 0, |shown|, k, at);
    LineSays(at, Row(shown, at));
    line := f(at);
  }

  lemma {:induction false} LineCount(shown: Bytes, offset: nat)
    requires offset <= |shown|
    ensures |Lines(shown, offset)| == (|shown| - offset + 15) / 16
    decreases |shown| - offset
  {
    if offset + 16 <= |shown| {
      LineCount(shown, offset + 16);
    }
  }

  /** What a line says of the bytes it stands for. */
  ghost predicate LineShows(line: string, offset: nat, row: Bytes) {
    |row| <= 16 && |line| == 62 + |row| &&
    line[..8] == Hex.Padded(offset, 8) && Hex.FromHex(line[..8]) == offset &&
    (forall j :: 0 <= j < |row| ==> line[Column(j)..Column(j) + 2] == Hex.Padded(row[j] as int, 2)) &&
    (forall j :: 0 <= j < |row| ==> Drawn(line[61 + j], row[j])) &&
    line[60] == '|' && line[61 + |row|] == '|' &&
    (forall c :: 8 <= c < 60 && (forall j :: 0 <= j < |row| ==> !InOctet(c, j)) ==> line[c] == ' ')
  }

  /** A printable ASCII byte stands for itself and any other is a full stop. */
  predicate Drawn(shown: char, byte: Octet) {
    if 0x20 <= byte <= 0x7e then shown as int == byte as int else shown == '.'
  }

  lemma LineSays(offset: nat, row: Bytes)
    requires 0 < |row| <= 16 && offset < HEX_VIEW_BYTE_LIMIT
    ensures LineShows(Line(offset, row), offset, row)
  {
    var line := Line(offset, row);
    LineColumns(offset, row);
    LineBars(offset, row);
    Hex.FromPadded(offset, 8);
    forall j | 0 <= j < |row|
      ensures Drawn(line[61 + j], row[j])
    {
      assert line[61..61 + |row|][j] == Printable(row)[j];
    }
    forall c | 8 <= c < 60 && (forall j :: 0 <= j < |row| ==> !InOctet(c, j))
      ensures line[c] == ' '
    {
      LineBlanks(offset, row, c);
    }
  }

  lemma LineBars(offset: nat, row: Bytes)
    requires 0 < |row| <= 16 && offset < HEX_VIEW_BYTE_LIMIT
    ensures var line := Line(offset, row); |line| == 62 + |row| && line[60] == '|' && line[61 + |row|] == '|'
  {
    var front := Hex.Padded(offset, 8) + "  " + Half(Octets(row)[..if |row| < 8 then |row| else 8]) + "  " +
                 Half(Octets(row)[if |row| < 8 then |row| else 8..]);
    var tail := "  |" + Printable(row) + "|";
    assert Line(offset, row) == front + tail;
    LineColumns(offset, row);
    assert |tail| == 4 + |row| && |front| == 58;
  }

  lemma DumpLine(bytes: Bytes, total: nat, k: nat, at: nat, n: nat)
    requires at == 16 * k < n && n == (if |bytes| < 4096 then |bytes| else 4096)
    ensures k < |AllLines(bytes, total)|
    ensures LineShows(AllLines(bytes, total)[k], at, bytes[at..if at + 16 < n then at + 16 else n])
  {
    var shown := Shown(bytes);
    var line := LinesAt(shown, k, at);
    assert Row(shown, at) == bytes[at..if at + 16 < n then at + 16 else n];
  }

  /** The whole dump: one line for every sixteen bytes of the first 4096, each with its offset and its
      bytes; and, exactly when more were announced, a last line with both numbers. */
  lemma DumpShows(bytes: Bytes, total: nat)
    ensures var lines := AllLines(bytes, total);
            var n := if |bytes| < 4096 then |bytes| else 4096;
            var full := (n + 15) / 16;
            |lines| == full + (if total > n then 1 else 0) &&
            (forall k :: 0 <= k < full ==>
               LineShows(lines[k], 16 * k, bytes[16 * k..if 16 * k + 16 < n then 16 * k + 16 else n])) &&
            (total > n ==> lines[full] == "\U{2026} truncated: showing " + Decimal(n) + " of " + Decimal(total) + " bytes \U{2026}")
  {
    var lines := AllLines(bytes, total);
    var n := if |bytes| < 4096 then |bytes| else 4096;
    LineCount(Shown(bytes), 0);
    forall k | 0 <= k < (n + 15) / 16
      ensures LineShows(lines[k], 16 * k, bytes[16 * k..if 16 * k + 16 < n then 16 * k + 16 else n])
    {
      DumpLine(bytes, total, k, 16 * k, n);
    }
  }

  /** Different byte strings within the limit print differently. */
  lemma FormattedDistinct(a: Bytes, totalA: nat, b: Bytes, totalB: nat)
    requires |a| <= HEX_VIEW_BYTE_LIMIT && |b| <= HEX_VIEW_BYTE_LIMIT && a != b
    ensures JoinLines(AllLines(a, totalA)) != JoinLines(AllLines(b, totalB))
  {
    ReadFormatted(a, totalA);
    ReadFormatted(b, totalB);
  }
}
