/** The virtual million-row table (extensions/storybook/src/large-table.tsx): rows are computed on
    demand, edits are kept by row key. */
module LargeTable {
  import opened JsText
  import opened RowWindows
  import Utf8
  import opened Wrappers

  datatype State = Ready | Loading | Empty | Error

  datatype Record = Unavailable(key: int) | Record(key: int, name: Text, platform: bool, cpuTenths: int, bytes: int, busy: bool)

  const WINDOW_LIMIT: nat := 128

  /** The mutable part of a source that answers depend on. */
  datatype Model = Model(version: int, filter: Text, descending: bool, state: State, edits: map<Text, Text>)

  // ----------------------------------------------------------------- rows

  function Length(m: Model, logicalRows: nat): nat {
    if m.state == Empty then 0
    else if m.state == Error then 1
    else if m.filter != [] then Min(1_000, logicalRows) as nat
    else logicalRows
  }

  function KeyText(logical: nat): Text {
    DecimalAscii(logical);
    Lit(Decimal(logical))
  }

  lemma DecimalAscii(n: nat)
    ensures forall i :: 0 <= i < |Decimal(n)| ==> Decimal(n)[i] < '\U{0080}'
  {
  }

  function DefaultName(m: Model, logical: nat): Text {
    (if m.filter != [] then m.filter else Lit("record")) + Lit("-") + KeyText(logical)
  }

  function Name(m: Model, logical: nat): Text {
    if KeyText(logical) in m.edits then m.edits[KeyText(logical)] else DefaultName(m, logical)
  }

  function Row(m: Model, logicalRows: nat, index: nat): Record
    requires index < Length(m, logicalRows)
  {
    if m.state == Error then Unavailable(0)
    else
      var logical := if m.descending then Length(m, logicalRows) - index - 1 else index;
      Record(logical, Name(m, logical), logical % 2 == 1, logical % 100, 65_536 + logical * 128, logical % 3 == 0)
  }

  /** The table the windows are cut from; it is never built. */
  ghost function Rows(m: Model, logicalRows: nat): (rows: seq<Record>) {
    seq(Length(m, logicalRows), index requires 0 <= index < Length(m, logicalRows) => Row(m, logicalRows, index))
  }

  // ------------------------------------------------------------- mutations

  datatype SortReport = SortReport(source: int, version: int, column: string, descending: bool)

  datatype EditReport = EditReport(source: int, version: int, column: string, row: Option<Text>, value: Text)

  datatype Outcome = Accepted | StaleVersion | UnsortableColumn | InvalidValue

  const SORTABLE: set<string> := {"id", "name", "cpu"}

  function Configured(m: Model, filter: Option<Text>, descending: Option<bool>, state: Option<State>): Model {
    var wanted := if filter.Some? then filter.value else m.filter;
    Model(m.version + 1, if |wanted| <= 80 then wanted else wanted[..80],
          if descending.Some? then descending.value else m.descending,
          if state.Some? then state.value else m.state, m.edits)
  }

  function SortOutcome(m: Model, source: int, event: SortReport): Outcome {
    if event.source != source || event.version != m.version then StaleVersion
    else if event.column !in SORTABLE then UnsortableColumn
    else Accepted
  }

  function EditOutcome(m: Model, source: int, event: EditReport): Outcome {
    if event.source != source || event.version != m.version then StaleVersion
    else if event.column != "name" || event.row.None? || event.row.value == [] || Trim(event.value) == [] ||
            Utf8Length(Trim(event.value)) > 256 then InvalidValue
    else Accepted
  }

  function Sorted(m: Model, source: int, event: SortReport): Model {
    if SortOutcome(m, source, event) == Accepted then m.(descending := event.descending, version := m.version + 1) else m
  }

  function Edited(m: Model, source: int, event: EditReport): Model {
    if EditOutcome(m, source, event) == Accepted
    then m.(edits := m.edits[event.row.value := Trim(event.value)], version := m.version + 1)
    else m
  }

  class LargeRecordSource {
    const source: int
    const logicalRows: nat
    var version: int
    var filter: Text
    var descending: bool
    var state: State
    var generated: nat
    var edits: map<Text, Text>

    constructor (source: int, logicalRows: nat)
      ensures this.source == source && this.logicalRows == logicalRows && generated == 0
      ensures View() == Model(1, [], false, Ready, map[])
    {
      this.source := source;
      this.logicalRows := logicalRows;
      version := 1;
      filter := [];
      descending := false;
      state := Ready;
      generated := 0;
      edits := map[];
    }

    function View(): Model
      reads this
    {
      Model(version, filter, descending, state, edits)
    }

    method Configure(filter: Option<Text>, descending: Option<bool>, state: Option<State>)
      modifies this
      ensures View() == Configured(old(View()), filter, descending, state) && generated == old(generated)
    {
      var wanted := if filter.Some? then filter.value else this.filter;
      this.filter := if |wanted| <= 80 then wanted else wanted[..80];
      this.descending := if descending.Some? then descending.value else this.descending;
      this.state := if state.Some? then state.value else this.state;
      version := version + 1;
    }

    method Sort(event: SortReport) returns (outcome: Outcome)
      modifies this
      ensures outcome == SortOutcome(old(View()), source, event)
      ensures View() == Sorted(old(View()), source, event) && generated == old(generated)
    {
      if event.source != source || event.version != version {
        return StaleVersion;
      }
      if event.column !in SORTABLE {
        return UnsortableColumn;
      }
      descending := event.descending;
      version := version + 1;
      return Accepted;
    }

    /** The rows of one window, generated one by one. */
    method Generate(start: nat, count: nat) returns (rows: seq<Record>)
      requires count > 0 ==> start + count <= Length(View(), logicalRows)
      ensures rows == Slice(Rows(View(), logicalRows), start, start + count) && |rows| == count
    {
      rows := [];
      for offset := 0 to count
        invariant rows == Slice(Rows(View(), logicalRows), start, start + offset) && |rows| == offset
      {
        SliceNext(Rows(View(), logicalRows), start, offset);
        rows := rows + [Row(View(), logicalRows, start + offset)];
      }
    }

    method AnswerWindow(message: Message) returns (w: Option<RowWindow<Record>>)
      modifies this`generated
      ensures w == if state == Loading then None
                   else Answer(source, version, Rows(View(), logicalRows), WINDOW_LIMIT, message)
      ensures generated == old(generated) + (if w.Some? then |w.value.rows| else 0)
    {
      var request := RowRequest(message);
      if request.None? {
        return None;
      }
      if request.value.source != source || request.value.version != version || state == Loading {
        return None;
      }
      var range := request.value.range;
      var rows := Generate(range.start, WindowCount(Length(View(), logicalRows), WINDOW_LIMIT, range));
      generated := generated + |rows|;
      return Some(RowWindow(source, version, request.value.id, range, rows));
    }

    method Edit(event: EditReport) returns (outcome: Outcome)
      modifies this
      ensures outcome == EditOutcome(old(View()), source, event)
      ensures View() == Edited(old(View()), source, event) && generated == old(generated)
    {
      var current := event.source == source && event.version == version;
      var value := Trim(event.value);
      if !current {
        return StaleVersion;
      }
      if event.column != "name" || event.row.None? || event.row.value == [] || value == [] || Utf8Length(value) > 256 {
        return InvalidValue;
      }
      edits := edits[event.row.value := value];
      version := version + 1;
      return Accepted;
    }
  }

  lemma SliceNext(table: seq<Record>, start: nat, offset: nat)
    requires start + offset < |table|
    ensures Slice(table, start, start + offset + 1) == Slice(table, start, start + offset) + [table[start + offset]]
  {
  }

  // ------------------------------------------------------------- the table

  function PlaceOf(m: Model, logicalRows: nat, key: nat): (at: nat)
    requires key < Length(m, logicalRows)
    ensures at < Length(m, logicalRows)
  {
    if m.descending then Length(m, logicalRows) - key - 1 else key
  }

  /** In the ready state every key from zero to the length occurs at exactly one place. */
  lemma KeysBijective(m: Model, logicalRows: nat)
    requires m.state == Ready
    ensures forall i :: 0 <= i < |Rows(m, logicalRows)| ==> 0 <= Rows(m, logicalRows)[i].key < |Rows(m, logicalRows)|
    ensures forall k :: 0 <= k < |Rows(m, logicalRows)| ==> Rows(m, logicalRows)[PlaceOf(m, logicalRows, k)].key == k
    ensures forall i, j :: 0 <= i < j < |Rows(m, logicalRows)| ==>
              Rows(m, logicalRows)[i].key != Rows(m, logicalRows)[j].key
  {
  }

  /** The descending table is the ascending one backwards. */
  lemma DescendingReverses(m: Model, logicalRows: nat, i: nat)
    requires m.state == Ready && i < Length(m, logicalRows)
    ensures |Rows(m.(descending := true), logicalRows)| == |Rows(m.(descending := false), logicalRows)|
    ensures Rows(m.(descending := true), logicalRows)[i] ==
            Rows(m.(descending := false), logicalRows)[Length(m, logicalRows) - 1 - i]
  {
    var n := Length(m, logicalRows);
    assert n - (n - 1 - i) - 1 == i;
  }

  // ------------------------------------------------------------------- runs

  datatype Event =
    | Configuring(filter: Option<Text>, descending: Option<bool>, state: Option<State>)
    | Sorting(sort: SortReport)
    | Editing(edit: EditReport)
    | Asking(message: Message)

  function After(m: Model, source: int, e: Event): Model {
    match e
    case Configuring(filter, descending, state) => Configured(m, filter, descending, state)
    case Sorting(sort) => Sorted(m, source, sort)
    case Editing(edit) => Edited(m, source, edit)
    case Asking(_) => m
  }

  function AfterAll(m: Model, source: int, run: seq<Event>): Model {
    if run == [] then m else After(AfterAll(m, source, run[..|run| - 1]), source, run[|run| - 1])
  }

  /** The last edit of the run that was accepted for the key. */
  function LastEdit(m: Model, source: int, run: seq<Event>, key: Text): Option<Text> {
    if run == [] then None
    else
      var front, last := run[..|run| - 1], run[|run| - 1];
      if last.Editing? && EditOutcome(AfterAll(m, source, front), source, last.edit) == Accepted && last.edit.row == Some(key)
      then Some(Trim(last.edit.value))
      else LastEdit(m, source, front, key)
  }

  /** A step either leaves everything alone or raises the version by one. */
  lemma StepRaisesVersion(m: Model, source: int, e: Event)
    ensures After(m, source, e) == m || After(m, source, e).version == m.version + 1
    ensures e.Sorting? && SortOutcome(m, source, e.sort) != Accepted ==> After(m, source, e) == m
    ensures e.Editing? && EditOutcome(m, source, e.edit) != Accepted ==> After(m, source, e) == m
    ensures (e.Sorting? && SortOutcome(m, source, e.sort) == Accepted) || e.Configuring? ||
            (e.Editing? && EditOutcome(m, source, e.edit) == Accepted) ==>
              After(m, source, e).version == m.version + 1
  {
  }

  /** Equal versions of one run mean equal tables, so windows of one version fit together. */
  lemma {:induction false} VersionPinsTable(m: Model, source: int, run: seq<Event>, j: nat)
    requires j <= |run|
    ensures AfterAll(m, source, run[..j]).version <= AfterAll(m, source, run).version
    ensures AfterAll(m, source, run[..j]).version == AfterAll(m, source, run).version ==>
              AfterAll(m, source, run[..j]) == AfterAll(m, source, run)
  {
    if j == |run| {
      assert run[..j] == run;
    } else {
      var front := run[..|run| - 1];
      assert front[..j] == run[..j];
      VersionPinsTable(m, source, front, j);
      StepRaisesVersion(AfterAll(m, source, front), source, run[|run| - 1]);
    }
  }

  lemma {:induction false} EditsAreLast(m: Model, source: int, run: seq<Event>, key: Text)
    ensures var edits := AfterAll(m, source, run).edits;
            match LastEdit(m, source, run, key)
            case Some(value) => key in edits && edits[key] == value
            case None => (key in edits <==> key in m.edits) && (key in edits ==> edits[key] == m.edits[key])
  {
    if run != [] {
      EditsAreLast(m, source, run[..|run| - 1], key);
    }
  }

  /** Over any run, across sorts, filters and refused edits, a ready row shows the last accepted
      edit for its key, and the generated name when there was none. */
  lemma NameIsLastEdit(source: int, logicalRows: nat, run: seq<Event>, i: nat)
    requires var m := AfterAll(Model(1, [], false, Ready, map[]), source, run);
             m.state == Ready && i < Length(m, logicalRows)
    ensures var start := Model(1, [], false, Ready, map[]);
            var m := AfterAll(start, source, run);
            var row := Rows(m, logicalRows)[i];
            row.key >= 0 &&
            row.name == match LastEdit(start, source, run, KeyText(row.key))
                        case Some(value) => value
                        case None => DefaultName(m, row.key)
  {
    var start := Model(1, [], false, Ready, map[]);
    var m := AfterAll(start, source, run);
    EditsAreLast(start, source, run, KeyText(Rows(m, logicalRows)[i].key));
  }

  /** Distinct keys have distinct edit slots. */
  lemma KeyTextsDistinct(a: nat, b: nat)
    requires KeyText(a) == KeyText(b)
    ensures a == b
  {
    DecimalAscii(a);
    DecimalAscii(b);
    var s, t := Decimal(a), Decimal(b);
    assert |s| == |Lit(s)| == |Lit(t)| == |t|;
    forall i | 0 <= i < |s| ensures s[i] == t[i] {
      assert Lit(s)[i] == Lit(t)[i];
    }
    assert s == t;
    NumberOfDecimal(a);
    NumberOfDecimal(b);
  }

  // ------------------------------------------------------ told from events

  predicate ValidEdit(edit: EditReport) {
    edit.column == "name" && edit.row.Some? && |edit.row.value| > 0 && |Trim(edit.value)| > 0 &&
    |Utf8.EncodeText(Trim(edit.value))| <= 256
  }

  /** Whether a report that names this version is carried out. */
  predicate Takes(source: int, version: int, e: Event) {
    match e
    case Configuring(_, _, _) => true
    case Sorting(sort) =>
      sort.source == source && sort.version == version && (sort.column == "id" || sort.column == "name" || sort.column == "cpu")
    case Editing(edit) => edit.source == source && edit.version == version && ValidEdit(edit)
    case Asking(_) => false
  }

  /** One more than the number of events carried out. */
  function Version(source: int, run: seq<Event>): int
    decreases |run|
  {
    if run == [] then 1
    else
      var front := run[..|run| - 1];
      Version(source, front) + if Takes(source, Version(source, front), run[|run| - 1]) then 1 else 0
  }

  predicate TakesLast(source: int, run: seq<Event>)
    requires run != []
  {
    Takes(source, Version(source, run[..|run| - 1]), run[|run| - 1])
  }

  /** The filter of the last configuration that gave one, cut to 80 units. */
  ghost predicate FilterTold(run: seq<Event>, filter: Text)
    decreases |run|
  {
    if run == [] then |filter| == 0
    else
      var last := run[|run| - 1];
      if last.Configuring? && last.filter.Some?
      then |filter| == (if |last.filter.value| < 80 then |last.filter.value| else 80) && filter <= last.filter.value
      else FilterTold(run[..|run| - 1], filter)
  }

  /** The direction of the last sort carried out, or of a later configuration that gave one. */
  function DirectionTold(source: int, run: seq<Event>): bool
    decreases |run|
  {
    if run == [] then false
    else
      var last := run[|run| - 1];
      if last.Configuring? && last.descending.Some? then last.descending.value
      else if last.Sorting? && TakesLast(source, run) then last.sort.descending
      else DirectionTold(source, run[..|run| - 1])
  }

  function StateTold(run: seq<Event>): State
    decreases |run|
  {
    if run == [] then Ready
    else
      var last := run[|run| - 1];
      if last.Configuring? && last.state.Some? then last.state.value else StateTold(run[..|run| - 1])
  }

  /** The last edit carried out for the key. */
  function EditTold(source: int, run: seq<Event>, key: Text): Option<Text>
    decreases |run|
  {
    if run == [] then None
    else
      var last := run[|run| - 1];
      if last.Editing? && TakesLast(source, run) && last.edit.row.value == key then Some(Trim(last.edit.value))
      else EditTold(source, run[..|run| - 1], key)
  }

  lemma TakesMeans(m: Model, source: int, e: Event)
    ensures e.Sorting? ==> (Takes(source, m.version, e) <==> SortOutcome(m, source, e.sort) == Accepted)
    ensures e.Editing? ==> (Takes(source, m.version, e) <==> EditOutcome(m, source, e.edit) == Accepted)
  {
    if e.Editing? {
      Utf8.LengthOfEncoding(Trim(e.edit.value));
    }
  }

  /** Over every run, what the source holds is what the events say: the version counts those carried out,
      and every setting is that of the last event that decided it. */
  lemma {:induction false} SettingsTold(source: int, run: seq<Event>)
    ensures var m := AfterAll(Model(1, [], false, Ready, map[]), source, run);
            m.version == Version(source, run) && m.descending == DirectionTold(source, run) &&
            m.state == StateTold(run) && FilterTold(run, m.filter) && |m.filter| <= 80
    decreases |run|
  {
    if run != [] {
      var front := run[..|run| - 1];
      SettingsTold(source, front);
      TakesMeans(AfterAll(Model(1, [], false, Ready, map[]), source, front), source, run[|run| - 1]);
    }
  }

  lemma {:induction false} EditsTold(source: int, run: seq<Event>, key: Text)
    ensures var edits := AfterAll(Model(1, [], false, Ready, map[]), source, run).edits;
            EditTold(source, run, key) == if key in edits then Some(edits[key]) else None
    decreases |run|
  {
    if run != [] {
      var front := run[..|run| - 1];
      EditsTold(source, front, key);
      SettingsTold(source, front);
      TakesMeans(AfterAll(Model(1, [], false, Ready, map[]), source, front), source, run[|run| - 1]);
    }
  }

  /** The row of a key: its name, and the other columns that follow from the key. */
  predicate ShowsKey(row: Record, key: int, name: Text) {
    row.Record? && row.key == key && row.name == name && row.platform == (key % 2 != 0) &&
    row.cpuTenths == key % 100 && row.bytes == 65536 + 128 * key && row.busy == (key % 3 == 0)
  }

  /** The table after any run: empty, one row in place of a refused window, or the logical rows, at most
      a thousand of them under a filter, in the direction asked for. */
  lemma TableTold(source: int, logicalRows: nat, run: seq<Event>)
    ensures var m := AfterAll(Model(1, [], false, Ready, map[]), source, run);
            var rows := Rows(m, logicalRows);
            var n := |rows|;
            n == (match StateTold(run)
                  case Empty => 0
                  case Error => 1
                  case _ => if |m.filter| > 0 && logicalRows > 1000 then 1000 else logicalRows) &&
            (StateTold(run) == Error ==> rows[0] == Unavailable(0)) &&
            (StateTold(run) != Error ==>
               forall i :: 0 <= i < n ==>
                 var key: nat := if DirectionTold(source, run) then n - 1 - i else i;
                 ShowsKey(rows[i], key,
                          match EditTold(source, run, KeyText(key))
                          case Some(name) => name
                          case None => (if |m.filter| > 0 then m.filter else Lit("record")) + Lit("-") + KeyText(key)))
  {
    var m := AfterAll(Model(1, [], false, Ready, map[]), source, run);
    SettingsTold(source, run);
    if m.state != Error {
      forall i | 0 <= i < Length(m, logicalRows)
        ensures var key: nat := if m.descending then Length(m, logicalRows) - 1 - i else i;
                ShowsKey(Rows(m, logicalRows)[i], key, Name(m, key)) &&
                EditTold(source, run, KeyText(key)) == if KeyText(key) in m.edits then Some(m.edits[KeyText(key)]) else None
      {
        var key: nat := if m.descending then Length(m, logicalRows) - 1 - i else i;
        EditsTold(source, run, KeyText(key));
        RowShowsKey(m, logicalRows, i, key);
      }
    }
  }

  lemma RowShowsKey(m: Model, logicalRows: nat, i: nat, key: nat)
    requires m.state != Error && i < Length(m, logicalRows)
    requires key == if m.descending then Length(m, logicalRows) - 1 - i else i
    ensures ShowsKey(Rows(m, logicalRows)[i], key, Name(m, key))
  {
    assert Rows(m, logicalRows)[i] == Row(m, logicalRows, i);
  }
}
