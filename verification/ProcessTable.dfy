/** The filtered and sorted process table (extensions/top/src/model.ts). */
module ProcessTable {
  import opened JsText
  import opened Sorting
  import opened RowWindows
  import opened Wrappers

  datatype ProcessRecord = ProcessRecord(container: Text, cells: map<Text, Text>, values: seq<Text>)

  datatype Column = Container | Pid | User | Cpu | Memory | Command

  datatype Row = Row(key: int, cells: seq<Text>)

  /** A selected record and its position in the snapshot, counted from one. */
  datatype Entry = Entry(record: ProcessRecord, key: int)

  /** The host's locale services: lower-casing, string comparison and `parseFloat(s) || 0`. */
  datatype Locale = Locale(lower: Text -> Text, compare: (Text, Text) -> int, number: Text -> real)

  const PROCESS_TABLE_SOURCE: int := 206
  const PROCESS_TABLE_WINDOW_LIMIT: nat := 128

  // --------------------------------------------------------------- one cell

  function Aliases(column: Column): seq<Text> {
    match column
    case Container => []
    case Pid => [Lit("PID"), Lit("Pid"), Lit("pid")]
    case User => [Lit("USER"), Lit("User"), Lit("user"), Lit("UID")]
    case Cpu => [Lit("CPU"), Lit("%CPU"), Lit("CPU%"), Lit("cpu")]
    case Memory => [Lit("MEMORY"), Lit("Memory"), Lit("memory"), Lit("MEM"), Lit("%MEM"), Lit("MEM%"), Lit("RSS"), Lit("VSZ")]
    case Command => [Lit("COMMAND"), Lit("Command"), Lit("command"), Lit("CMD"), Lit("Cmd"), Lit("cmd")]
  }

  function FirstAlias(cells: map<Text, Text>, aliases: seq<Text>): Option<Text> {
    if aliases == [] then None
    else if aliases[0] in cells then Some(cells[aliases[0]])
    else FirstAlias(cells, aliases[1..])
  }

  /** The earliest alias the record has decides. */
  lemma {:induction false} FirstAliasMeans(cells: map<Text, Text>, aliases: seq<Text>)
    ensures FirstAlias(cells, aliases).None? <==> forall i :: 0 <= i < |aliases| ==> aliases[i] !in cells
    ensures FirstAlias(cells, aliases).Some? ==>
              exists k :: 0 <= k < |aliases| && aliases[k] in cells && FirstAlias(cells, aliases) == Some(cells[aliases[k]]) &&
                          forall i :: 0 <= i < k ==> aliases[i] !in cells
  {
    if aliases != [] {
      FirstAliasMeans(cells, aliases[1..]);
      assert forall i :: 1 <= i < |aliases| ==> aliases[i] == aliases[1..][i - 1];
      if aliases[0] !in cells && FirstAlias(cells, aliases).Some? {
        var k :| 0 <= k < |aliases[1..]| && aliases[1..][k] in cells &&
                 FirstAlias(cells, aliases[1..]) == Some(cells[aliases[1..][k]]) &&
                 forall i :: 0 <= i < k ==> aliases[1..][i] !in cells;
        assert aliases[k + 1] == aliases[1..][k];
      }
    }
  }

  function CellValue(record: ProcessRecord, column: Column): Text {
    if column == Container then record.container
    else match FirstAlias(record.cells, Aliases(column))
         case Some(value) => value
         case None => if column == Command && record.values != [] then record.values[|record.values| - 1] else []
  }

  /** The container's name; else the value of the earliest alias the record has; else, for the command,
      the last value of the record; else nothing. */
  lemma CellValueMeans(record: ProcessRecord, column: Column)
    ensures column == Container ==> CellValue(record, column) == record.container
    ensures column != Container ==>
              forall k :: 0 <= k < |Aliases(column)| && Aliases(column)[k] in record.cells &&
                          (forall i :: 0 <= i < k ==> Aliases(column)[i] !in record.cells) ==>
                CellValue(record, column) == record.cells[Aliases(column)[k]]
    ensures column != Container && (forall k :: 0 <= k < |Aliases(column)| ==> Aliases(column)[k] !in record.cells) ==>
              CellValue(record, column) ==
              if column == Command && |record.values| > 0 then record.values[|record.values| - 1] else []
  {
    FirstAliasMeans(record.cells, Aliases(column));
  }

  // ---------------------------------------------------------------- replace

  predicate Includes(text: Text, part: Text) {
    exists i :: 0 <= i <= |text| && PartAt(text, part, i)
  }

  predicate PartAt(text: Text, part: Text, i: nat) {
    i + |part| <= |text| && text[i..i + |part|] == part
  }

  predicate Matches(locale: Locale, query: Text, record: ProcessRecord) {
    query == [] ||
    exists i :: 0 <= i <= |record.values| && Includes(locale.lower(Searched(record, i)), query)
  }

  function Searched(record: ProcessRecord, i: nat): Text
    requires i <= |record.values|
  {
    if i == 0 then record.container else record.values[i - 1]
  }

  ghost predicate Within(text: Text, before: Text, part: Text, after: Text) {
    text == before + part + after
  }

  /** The lower-cased text of the container or of some value holds the query. */
  ghost predicate Found(locale: Locale, query: Text, record: ProcessRecord) {
    exists text, before, after ::
      (text == record.container || text in record.values) && Within(locale.lower(text), before, query, after)
  }

  lemma WithinIncludes(text: Text, before: Text, part: Text, after: Text)
    requires Within(text, before, part, after)
    ensures Includes(text, part)
  {
    assert PartAt(text, part, |before|);
  }

  lemma IncludesWithin(text: Text, part: Text) returns (before: Text, after: Text)
    requires Includes(text, part)
    ensures Within(text, before, part, after)
  {
    var i :| 0 <= i <= |text| && PartAt(text, part, i);
    before, after := text[..i], text[i + |part|..];
  }

  /** A record matches an empty query, and any other query that is found in it. */
  lemma MatchesMeans(locale: Locale, query: Text, record: ProcessRecord)
    ensures Matches(locale, query, record) <==> query == [] || Found(locale, query, record)
  {
    if query != [] && Matches(locale, query, record) {
      var i :| 0 <= i <= |record.values| && Includes(locale.lower(Searched(record, i)), query);
      var before, after := IncludesWithin(locale.lower(Searched(record, i)), query);
      assert Searched(record, i) == record.container || Searched(record, i) in record.values;
    }
    if Found(locale, query, record) {
      var text, before, after :| (text == record.container || text in record.values) &&
                                 Within(locale.lower(text), before, query, after);
      WithinIncludes(locale.lower(text), before, query, after);
      if text == record.container {
        assert Searched(record, 0) == text;
      } else {
        var k :| 0 <= k < |record.values| && record.values[k] == text;
        assert Searched(record, k + 1) == text;
      }
    }
  }

  /** `map` to keyed entries, then `filter`. */
  function Select(locale: Locale, query: Text, records: seq<ProcessRecord>): seq<Entry> {
    if records == [] then []
    else var last := records[|records| - 1];
         Select(locale, query, records[..|records| - 1]) +
         (if Matches(locale, query, last) then [Entry(last, |records|)] else [])
  }

  function Sign(r: real): int {
    if r < 0.0 then -1 else if r > 0.0 then 1 else 0
  }

  function Order(locale: Locale, sort: Column, a: ProcessRecord, b: ProcessRecord): int {
    var left, right := CellValue(a, sort), CellValue(b, sort);
    if sort == Pid || sort == Cpu || sort == Memory then Sign(locale.number(left) - locale.number(right))
    else locale.compare(left, right)
  }

  function Comparator(locale: Locale, sort: Column, descending: bool): (Entry, Entry) -> int {
    (a: Entry, b: Entry) =>
      if descending then -Order(locale, sort, a.record, b.record) else Order(locale, sort, a.record, b.record)
  }

  function Query(locale: Locale, filter: Text): Text {
    locale.lower(Trim(filter))
  }

  function Arranged(locale: Locale, records: seq<ProcessRecord>, filter: Text, sort: Column, descending: bool): seq<Entry> {
    StableSort(Select(locale, Query(locale, filter), records), Comparator(locale, sort, descending))
  }

  const DASH: Text := [0x2014]

  function Project(entry: Entry, schema: seq<Column>): Row {
    Row(entry.key, seq(|schema|, i requires 0 <= i < |schema| =>
      var value := CellValue(entry.record, schema[i]); if value == [] then DASH else value))
  }

  function Projected(entries: seq<Entry>, schema: seq<Column>): seq<Row> {
    seq(|entries|, i requires 0 <= i < |entries| => Project(entries[i], schema))
  }

  // --------------------------------------------------------- rows specified

  /** The row's key is the position of a record, counted from one, and it has one cell per column of the
      schema: the record's text, or an em dash exactly when that text is empty. */
  ghost predicate ShowsRecord(records: seq<ProcessRecord>, schema: seq<Column>, row: Row) {
    1 <= row.key <= |records| && |row.cells| == |schema| &&
    forall c :: 0 <= c < |schema| ==> ShowsText(row.cells[c], CellValue(records[row.key - 1], schema[c]))
  }

  predicate ShowsText(cell: Text, text: Text) {
    if |text| == 0 then cell == [0x2014] else cell == text
  }

  predicate Precedes(locale: Locale, sort: Column, descending: bool, a: Text, b: Text) {
    if sort.Pid? || sort.Cpu? || sort.Memory?
    then (if descending then locale.number(a) > locale.number(b) else locale.number(a) < locale.number(b))
    else (if descending then locale.compare(a, b) > 0 else locale.compare(a, b) < 0)
  }

  /** The order of two records of the snapshot; ties go by position in both directions. */
  predicate Ordered(locale: Locale, records: seq<ProcessRecord>, sort: Column, descending: bool, a: int, b: int)
    requires 1 <= a <= |records| && 1 <= b <= |records|
  {
    var left, right := CellValue(records[a - 1], sort), CellValue(records[b - 1], sort);
    Precedes(locale, sort, descending, left, right) || (!Precedes(locale, sort, descending, right, left) && a < b)
  }

  predicate Wanted(locale: Locale, records: seq<ProcessRecord>, filter: Text, key: int) {
    1 <= key <= |records| && Matches(locale, locale.lower(Trim(filter)), records[key - 1])
  }

  ghost predicate HasKey(rows: seq<Row>, key: int) {
    exists i :: 0 <= i < |rows| && rows[i].key == key
  }

  /** What the served rows should be: one per matching record, in order, showing that record. */
  ghost predicate RowsSpecified(locale: Locale, records: seq<ProcessRecord>, schema: seq<Column>, filter: Text,
                                sort: Column, descending: bool, rows: seq<Row>) {
    (forall i :: 0 <= i < |rows| ==> ShowsRecord(records, schema, rows[i])) &&
    (forall key :: HasKey(rows, key) <==> Wanted(locale, records, filter, key)) &&
    (forall i, j :: 0 <= i < j < |rows| ==> rows[i].key != rows[j].key) &&
    (forall i, j :: 0 <= i < j < |rows| ==> Ordered(locale, records, sort, descending, rows[i].key, rows[j].key))
  }

  datatype SortReport = SortReport(source: int, version: int, column: string)

  const PROCESS_COLUMNS: set<string> := {"container", "pid", "user", "cpu", "memory", "command"}

  class ProcessTableSource {
    var version: int
    var rows: seq<Row>
    var generated: nat

    constructor ()
      ensures Model() == Table(0, []) && generated == 0
    {
      version := 0;
      rows := [];
      generated := 0;
    }

    function Model(): Table<Row>
      reads this
    {
      Table(version, rows)
    }

    method Replace(locale: Locale, records: seq<ProcessRecord>, schema: seq<Column>, filter: Text, sort: Column,
                   descending: bool)
      returns (count: nat)
      modifies this
      ensures rows == Projected(Arranged(locale, records, filter, sort, descending), schema)
      ensures Collates(locale) ==> RowsSpecified(locale, records, schema, filter, sort, descending, rows)
      ensures Model() == After(old(Model()), Replaced(rows)) && count == |rows| && generated == old(generated)
    {
      var query := Query(locale, filter);
      var selected := Select(locale, query, records);
      selected := StableSort(selected, Comparator(locale, sort, descending));
      rows := Projected(selected, schema);
      version := version + 1;
      count := |rows|;
      if Collates(locale) {
        RowsServed(locale, records, schema, filter, sort, descending, rows);
      }
    }

    predicate Accepts(event: SortReport)
      reads this
    {
      event.source == PROCESS_TABLE_SOURCE && event.version == version && event.column in PROCESS_COLUMNS
    }

    method AnswerWindow(message: Message) returns (w: Option<RowWindow<Row>>)
      modifies this`generated
      ensures w == Answer(PROCESS_TABLE_SOURCE, version, rows, PROCESS_TABLE_WINDOW_LIMIT, message)
      ensures generated == old(generated) + (if w.Some? then |w.value.rows| else 0)
    {
      var request := RowRequest(message);
      if request.None? {
        return None;
      }
      if request.value.source != PROCESS_TABLE_SOURCE || request.value.version != version {
        return None;
      }
      var count := WindowCount(|rows|, PROCESS_TABLE_WINDOW_LIMIT, request.value.range);
      var start := request.value.range.start;
      var slice := Slice(rows, start, start + count);
      generated := generated + |slice|;
      return Some(RowWindow(PROCESS_TABLE_SOURCE, version, request.value.id, request.value.range, slice));
    }
  }

  // ------------------------------------------------------------- refinement

  /** `localeCompare` is a total preorder. */
  ghost predicate Collates(locale: Locale) {
    Consistent(locale.compare)
  }

  lemma OrderConsistent(locale: Locale, sort: Column, descending: bool)
    requires Collates(locale)
    ensures Consistent(Comparator(locale, sort, descending))
  {
    var cmp := Comparator(locale, sort, descending);
    forall a: Entry, b: Entry ensures Mirrored(cmp, a, b) {
      assert Mirrored(locale.compare, CellValue(a.record, sort), CellValue(b.record, sort));
    }
    forall a: Entry, b: Entry, c: Entry ensures Chained(cmp, a, b, c) {
      var x, y, z := CellValue(a.record, sort), CellValue(b.record, sort), CellValue(c.record, sort);
      assert Chained(locale.compare, x, y, z) && Chained(locale.compare, z, y, x);
      assert Mirrored(locale.compare, x, y) && Mirrored(locale.compare, y, z) && Mirrored(locale.compare, x, z);
    }
  }

  /** The entry stands for a matching record of the snapshot under its own position. */
  predicate Stands(locale: Locale, query: Text, records: seq<ProcessRecord>, e: Entry) {
    1 <= e.key <= |records| && e.record == records[e.key - 1] && Matches(locale, query, e.record)
  }

  ghost predicate KeysAscend(s: seq<Entry>) {
    forall i, j :: 0 <= i < j < |s| ==> Key(s[i]) < Key(s[j])
  }

  lemma {:induction false} SelectStands(locale: Locale, query: Text, records: seq<ProcessRecord>)
    ensures KeysAscend(Select(locale, query, records))
    ensures forall e :: e in Select(locale, query, records) <==> Stands(locale, query, records, e)
  {
    if records != [] {
      var front, last := records[..|records| - 1], records[|records| - 1];
      SelectStands(locale, query, front);
      var s := Select(locale, query, front);
      assert forall e: Entry :: Stands(locale, query, front, e) ==> e.key < |records| && front[e.key - 1] == records[e.key - 1];
      forall i | 0 <= i < |s| ensures s[i].key < |records| {
        assert s[i] in s;
      }
      forall e: Entry ensures e in Select(locale, query, records) <==> Stands(locale, query, records, e) {
        if Stands(locale, query, records, e) && e.key < |records| {
          assert Stands(locale, query, front, e);
        }
      }
    }
  }

  function Key(e: Entry): int {
    e.key
  }

  /** What the table should hold: one entry per matching record, under its own key, in the order of
      the chosen column, ties in snapshot order for both directions. */
  ghost predicate Specified(locale: Locale, records: seq<ProcessRecord>, filter: Text, sort: Column, descending: bool,
                            entries: seq<Entry>) {
    (forall e :: e in entries <==> Stands(locale, Query(locale, filter), records, e)) &&
    (forall i, j :: 0 <= i < j < |entries| ==> entries[i].key != entries[j].key) &&
    StablySorted(entries, Comparator(locale, sort, descending), Key)
  }

  lemma ElementsOnce(a: seq<Entry>, b: seq<Entry>)
    requires forall e :: e in a <==> e in b
    requires forall i, j :: 0 <= i < j < |a| ==> a[i].key != a[j].key
    requires forall i, j :: 0 <= i < j < |b| ==> b[i].key != b[j].key
    ensures multiset(a) == multiset(b)
  {
    forall e: Entry ensures multiset(a)[e] == multiset(b)[e] {
      OccursOnce(a, e);
      OccursOnce(b, e);
    }
  }

  lemma {:induction false} OccursOnce(s: seq<Entry>, e: Entry)
    requires forall i, j :: 0 <= i < j < |s| ==> s[i].key != s[j].key
    ensures multiset(s)[e] == if e in s then 1 else 0
  {
    if s != [] {
      OccursOnce(s[1..], e);
      assert s == [s[0]] + s[1..];
      assert multiset(s) == multiset{s[0]} + multiset(s[1..]);
      forall k | 0 <= k < |s[1..]| ensures s[1..][k].key != s[0].key {
        assert s[1..][k] == s[k + 1];
      }
    }
  }

  lemma ArrangedSpecified(locale: Locale, records: seq<ProcessRecord>, filter: Text, sort: Column, descending: bool)
    requires Collates(locale)
    ensures Specified(locale, records, filter, sort, descending, Arranged(locale, records, filter, sort, descending))
  {
    var query, cmp := Query(locale, filter), Comparator(locale, sort, descending);
    var selected, arranged := Select(locale, query, records), Arranged(locale, records, filter, sort, descending);
    OrderConsistent(locale, sort, descending);
    SelectStands(locale, query, records);
    assert forall i, j :: 0 <= i < j < |selected| ==> Key(selected[i]) < Key(selected[j]);
    StableSortSorts(selected, cmp, Key);
    SameElements(selected, arranged);
    SameElements(arranged, selected);
    ArrangedKeys(selected, arranged);
  }

  /** The rows `replace` computes are the specified ones, and no other list is. */
  lemma ReplaceRefines(locale: Locale, records: seq<ProcessRecord>, filter: Text, sort: Column, descending: bool,
                       entries: seq<Entry>)
    requires Collates(locale)
    ensures Specified(locale, records, filter, sort, descending, entries) <==>
            entries == Arranged(locale, records, filter, sort, descending)
  {
    var arranged := Arranged(locale, records, filter, sort, descending);
    ArrangedSpecified(locale, records, filter, sort, descending);
    if Specified(locale, records, filter, sort, descending, entries) {
      OrderConsistent(locale, sort, descending);
      ElementsOnce(entries, arranged);
      StablySortedUnique(entries, arranged, Comparator(locale, sort, descending), Key);
    }
  }

  /** Two texts under the sort column, seen as the program compares them. */
  lemma PrecedesSigns(locale: Locale, sort: Column, descending: bool, a: ProcessRecord, b: ProcessRecord)
    requires Mirrored(locale.compare, CellValue(a, sort), CellValue(b, sort))
    ensures var left, right := CellValue(a, sort), CellValue(b, sort);
            var order := if descending then -Order(locale, sort, a, b) else Order(locale, sort, a, b);
            (Precedes(locale, sort, descending, left, right) <==> order < 0) &&
            (Precedes(locale, sort, descending, right, left) <==> order > 0)
  {
  }

  lemma OrderedBefore(locale: Locale, records: seq<ProcessRecord>, sort: Column, descending: bool, a: Entry, b: Entry)
    requires Collates(locale) && 1 <= a.key <= |records| && 1 <= b.key <= |records|
    requires a.record == records[a.key - 1] && b.record == records[b.key - 1]
    ensures Ordered(locale, records, sort, descending, a.key, b.key) <==>
            Before(a, b, Comparator(locale, sort, descending), Key)
  {
    assert Mirrored(locale.compare, CellValue(a.record, sort), CellValue(b.record, sort));
    PrecedesSigns(locale, sort, descending, a.record, b.record);
  }

  lemma ProjectShows(records: seq<ProcessRecord>, schema: seq<Column>, e: Entry)
    requires 1 <= e.key <= |records| && e.record == records[e.key - 1]
    ensures ShowsRecord(records, schema, Project(e, schema)) && Project(e, schema).key == e.key
  {
  }

  lemma ShowsProject(records: seq<ProcessRecord>, schema: seq<Column>, row: Row)
    requires ShowsRecord(records, schema, row)
    ensures row == Project(Entry(records[row.key - 1], row.key), schema)
  {
    var p := Project(Entry(records[row.key - 1], row.key), schema);
    forall c | 0 <= c < |schema|
      ensures row.cells[c] == p.cells[c]
    {
      assert ShowsText(row.cells[c], CellValue(records[row.key - 1], schema[c]));
    }
    assert row.cells == p.cells;
  }

  /** The entries behind specified rows. */
  function EntriesOf(records: seq<ProcessRecord>, rows: seq<Row>): seq<Entry>
    requires forall i :: 0 <= i < |rows| ==> 1 <= rows[i].key <= |records|
  {
    seq(|rows|, i requires 0 <= i < |rows| => Entry(records[rows[i].key - 1], rows[i].key))
  }

  lemma EntriesStand(locale: Locale, records: seq<ProcessRecord>, filter: Text, rows: seq<Row>, e: Entry)
    requires forall i :: 0 <= i < |rows| ==> 1 <= rows[i].key <= |records|
    requires forall key :: HasKey(rows, key) <==> Wanted(locale, records, filter, key)
    ensures e in EntriesOf(records, rows) <==> Stands(locale, Query(locale, filter), records, e)
  {
    var entries := EntriesOf(records, rows);
    if e in entries {
      var i :| 0 <= i < |entries| && entries[i] == e;
      assert rows[i].key == e.key && HasKey(rows, e.key);
    }
    if Stands(locale, Query(locale, filter), records, e) {
      assert Wanted(locale, records, filter, e.key) && HasKey(rows, e.key);
      var i :| 0 <= i < |rows| && rows[i].key == e.key;
      assert entries[i] == e;
    }
  }

  lemma EntriesOrdered(locale: Locale, records: seq<ProcessRecord>, sort: Column, descending: bool, rows: seq<Row>)
    requires Collates(locale)
    requires forall i :: 0 <= i < |rows| ==> 1 <= rows[i].key <= |records|
    requires forall i, j :: 0 <= i < j < |rows| ==> Ordered(locale, records, sort, descending, rows[i].key, rows[j].key)
    ensures StablySorted(EntriesOf(records, rows), Comparator(locale, sort, descending), Key)
  {
    var entries := EntriesOf(records, rows);
    forall i, j | 0 <= i < j < |entries|
      ensures Before(entries[i], entries[j], Comparator(locale, sort, descending), Key)
    {
      assert Ordered(locale, records, sort, descending, rows[i].key, rows[j].key);
      OrderedBefore(locale, records, sort, descending, entries[i], entries[j]);
    }
  }

  lemma RowsInRange(records: seq<ProcessRecord>, schema: seq<Column>, rows: seq<Row>)
    requires forall i :: 0 <= i < |rows| ==> ShowsRecord(records, schema, rows[i])
    ensures forall i :: 0 <= i < |rows| ==> 1 <= rows[i].key <= |records|
  {
  }

  lemma EntriesSpecified(locale: Locale, records: seq<ProcessRecord>, schema: seq<Column>, filter: Text, sort: Column,
                         descending: bool, rows: seq<Row>)
    requires Collates(locale) && RowsSpecified(locale, records, schema, filter, sort, descending, rows)
    requires forall i :: 0 <= i < |rows| ==> 1 <= rows[i].key <= |records|
    ensures Specified(locale, records, filter, sort, descending, EntriesOf(records, rows))
  {
    forall e: Entry
      ensures e in EntriesOf(records, rows) <==> Stands(locale, Query(locale, filter), records, e)
    {
      EntriesStand(locale, records, filter, rows, e);
    }
    EntriesOrdered(locale, records, sort, descending, rows);
  }

  lemma ProjectedShow(locale: Locale, records: seq<ProcessRecord>, query: Text, schema: seq<Column>, entries: seq<Entry>, i: nat)
    requires i < |entries| && forall e :: e in entries ==> Stands(locale, query, records, e)
    ensures ShowsRecord(records, schema, Projected(entries, schema)[i]) && Projected(entries, schema)[i].key == entries[i].key
  {
    assert entries[i] in entries && Stands(locale, query, records, entries[i]);
    ProjectShows(records, schema, entries[i]);
  }

  lemma ProjectedKeys(locale: Locale, records: seq<ProcessRecord>, filter: Text, schema: seq<Column>, entries: seq<Entry>, key: int)
    requires forall e :: e in entries <==> Stands(locale, Query(locale, filter), records, e)
    ensures HasKey(Projected(entries, schema), key) <==> Wanted(locale, records, filter, key)
  {
    var rows := Projected(entries, schema);
    if HasKey(rows, key) {
      var i :| 0 <= i < |rows| && rows[i].key == key;
      assert entries[i] in entries && Stands(locale, Query(locale, filter), records, entries[i]);
    }
    if Wanted(locale, records, filter, key) {
      var e := Entry(records[key - 1], key);
      assert Stands(locale, Query(locale, filter), records, e) && e in entries;
      var i :| 0 <= i < |entries| && entries[i] == e;
      assert rows[i].key == key;
    }
  }

  lemma ProjectedOrdered(locale: Locale, records: seq<ProcessRecord>, filter: Text, schema: seq<Column>, sort: Column,
                         descending: bool, entries: seq<Entry>, i: nat, j: nat)
    requires Collates(locale) && i < j < |entries|
    requires forall e :: e in entries <==> Stands(locale, Query(locale, filter), records, e)
    requires StablySorted(entries, Comparator(locale, sort, descending), Key)
    ensures var rows := Projected(entries, schema);
            1 <= rows[i].key <= |records| && 1 <= rows[j].key <= |records| &&
            Ordered(locale, records, sort, descending, rows[i].key, rows[j].key)
  {
    assert entries[i] in entries && Stands(locale, Query(locale, filter), records, entries[i]);
    assert entries[j] in entries && Stands(locale, Query(locale, filter), records, entries[j]);
    assert Before(entries[i], entries[j], Comparator(locale, sort, descending), Key);
    OrderedBefore(locale, records, sort, descending, entries[i], entries[j]);
  }

  lemma SpecifiedEntries(locale: Locale, records: seq<ProcessRecord>, schema: seq<Column>, filter: Text, sort: Column,
                         descending: bool, entries: seq<Entry>)
    requires Collates(locale) && Specified(locale, records, filter, sort, descending, entries)
    ensures RowsSpecified(locale, records, schema, filter, sort, descending, Projected(entries, schema))
  {
    var rows := Projected(entries, schema);
    forall i | 0 <= i < |rows|
      ensures ShowsRecord(records, schema, rows[i]) && rows[i].key == entries[i].key
    {
      ProjectedShow(locale, records, Query(locale, filter), schema, entries, i);
    }
    forall key
      ensures HasKey(rows, key) <==> Wanted(locale, records, filter, key)
    {
      ProjectedKeys(locale, records, filter, schema, entries, key);
    }
    RowsInRange(records, schema, rows);
    forall i, j | 0 <= i < j < |rows|
      ensures Ordered(locale, records, sort, descending, rows[i].key, rows[j].key)
    {
      ProjectedOrdered(locale, records, filter, schema, sort, descending, entries, i, j);
    }
  }

  /** The rows served are the specified ones, and no other list of rows is. */
  lemma RowsServed(locale: Locale, records: seq<ProcessRecord>, schema: seq<Column>, filter: Text, sort: Column,
                   descending: bool, rows: seq<Row>)
    requires Collates(locale)
    ensures RowsSpecified(locale, records, schema, filter, sort, descending, rows) <==>
            rows == Projected(Arranged(locale, records, filter, sort, descending), schema)
  {
    var arranged := Arranged(locale, records, filter, sort, descending);
    ArrangedSpecified(locale, records, filter, sort, descending);
    SpecifiedEntries(locale, records, schema, filter, sort, descending, arranged);
    if RowsSpecified(locale, records, schema, filter, sort, descending, rows) {
      RowsInRange(records, schema, rows);
      var entries := EntriesOf(records, rows);
      EntriesSpecified(locale, records, schema, filter, sort, descending, rows);
      ReplaceRefines(locale, records, filter, sort, descending, entries);
      forall i | 0 <= i < |rows|
        ensures rows[i] == Project(entries[i], schema)
      {
        ShowsProject(records, schema, rows[i]);
      }
    }
  }

  /** A permutation of entries with distinct keys has distinct keys. */
  lemma ArrangedKeys(selected: seq<Entry>, arranged: seq<Entry>)
    requires multiset(selected) == multiset(arranged)
    requires forall i, j :: 0 <= i < j < |selected| ==> selected[i].key != selected[j].key
    ensures forall i, j :: 0 <= i < j < |arranged| ==> arranged[i].key != arranged[j].key
  {
    SameElements(arranged, selected);
    forall i, j | 0 <= i < j < |arranged| ensures arranged[i].key != arranged[j].key {
      if arranged[i] == arranged[j] {
        OccursOnce(selected, arranged[i]);
        OccursTwice(arranged, i, j);
      }
      var x :| 0 <= x < |selected| && selected[x] == arranged[i];
      var y :| 0 <= y < |selected| && selected[y] == arranged[j];
    }
  }

  lemma OccursTwice(s: seq<Entry>, i: nat, j: nat)
    requires i < j < |s| && s[i] == s[j]
    ensures multiset(s)[s[i]] >= 2
  {
    assert s == s[..j] + s[j..];
    assert s[..j][i] == s[i] && s[j..][0] == s[j];
    assert multiset(s) == multiset(s[..j]) + multiset(s[j..]);
  }

  /** Reversing the direction reverses the order of unequal records but not of equal ones. */
  lemma DirectionsAgreeOnTies(locale: Locale, records: seq<ProcessRecord>, filter: Text, sort: Column, i: nat, j: nat)
    requires Collates(locale)
    requires var up := Arranged(locale, records, filter, sort, false); i < j < |up|
    ensures var up, down := Arranged(locale, records, filter, sort, false), Arranged(locale, records, filter, sort, true);
            up[i] in down && up[j] in down &&
            forall x, y :: 0 <= x < |down| && 0 <= y < |down| && down[x] == up[i] && down[y] == up[j] ==>
              (x < y <==> Order(locale, sort, up[i].record, up[j].record) == 0)
  {
    var up, down := Arranged(locale, records, filter, sort, false), Arranged(locale, records, filter, sort, true);
    ReplaceRefines(locale, records, filter, sort, false, up);
    ReplaceRefines(locale, records, filter, sort, true, down);
    assert up[i] in up && up[j] in up;
    OrderConsistent(locale, sort, false);
    OrderConsistent(locale, sort, true);
    var cmpUp, cmpDown := Comparator(locale, sort, false), Comparator(locale, sort, true);
    assert Before(up[i], up[j], cmpUp, Key);
    assert Mirrored(cmpDown, up[i], up[j]);
    forall x, y | 0 <= x < |down| && 0 <= y < |down| && down[x] == up[i] && down[y] == up[j]
      ensures x < y <==> Order(locale, sort, up[i].record, up[j].record) == 0
    {
      if x < y {
        assert Before(down[x], down[y], cmpDown, Key);
      } else if y < x {
        assert Before(down[y], down[x], cmpDown, Key);
      }
    }
  }
}
