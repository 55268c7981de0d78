/** Versioned tables served in bounded windows: the request check and the answer shared by every
    table source (extensions/top/src/model.ts), and what a client can rely on. */
module RowWindows {
  import opened Wrappers

  datatype Range = Range(start: int, count: int)

  datatype Request = Request(source: int, version: int, id: int, range: Range)

  datatype RowWindow<R> = RowWindow(source: int, version: int, request: int, range: Range, rows: seq<R>)

  // ---------------------------------------------------------- request check

  const MAX_SAFE_INTEGER: int := 9_007_199_254_740_991

  /** A property of an untrusted message: an integral number or anything else. */
  datatype Property = Integral(n: int) | Other

  datatype Message =
    | NotObject
    | Message(source: Property, version: Property, id: Property, range: Option<(Property, Property)>)

  predicate Safe(p: Property) {
    p.Integral? && InRange(p.n)
  }

  /** The message a client sends for a request. */
  function MessageOf(q: Request): Message {
    Message(Integral(q.source), Integral(q.version), Integral(q.id), Some((Integral(q.range.start), Integral(q.range.count))))
  }

  predicate InRange(n: int) {
    -MAX_SAFE_INTEGER <= n <= MAX_SAFE_INTEGER
  }

  predicate Sendable(q: Request) {
    InRange(q.source) && InRange(q.version) && InRange(q.id) &&
    0 <= q.range.start <= MAX_SAFE_INTEGER && 0 <= q.range.count <= MAX_SAFE_INTEGER
  }

  /** Exactly the messages of sendable requests are accepted, as those requests. */
  function RowRequest(m: Message): (r: Option<Request>)
    ensures r.Some? ==> Sendable(r.value) && m == MessageOf(r.value)
    ensures r.None? ==> forall q :: Sendable(q) ==> m != MessageOf(q)
  {
    if m.NotObject? || !Safe(m.source) || !Safe(m.version) || !Safe(m.id) || m.range.None? then None
    else
      var (start, count) := m.range.value;
      if !Safe(start) || start.n < 0 || !Safe(count) || count.n < 0 then None
      else Some(Request(m.source.n, m.version.n, m.id.n, Range(start.n, count.n)))
  }

  // ----------------------------------------------------------------- answer

  function Min(a: int, b: int): int {
    if a < b then a else b
  }

  function Max(a: int, b: int): int {
    if a < b then b else a
  }

  /** An answer of `count` rows keeps to the limit, the request and the table. */
  predicate Fits(length: nat, limit: nat, range: Range, count: nat) {
    count <= limit && count <= range.count && (count > 0 ==> range.start + count <= length)
  }

  /** The number of rows an answer carries: the most that fit. */
  function WindowCount(length: nat, limit: nat, range: Range): (count: nat)
    requires range.start >= 0 && range.count >= 0
    ensures Fits(length, limit, range, count)
    ensures forall more: nat :: Fits(length, limit, range, more) ==> more <= count
  {
    Min(Min(range.count, limit), Max(0, length - range.start))
  }

  /** `rows.slice(start, end)`: positions beyond the end stand for the end. */
  function Slice<R>(rows: seq<R>, start: nat, end: nat): seq<R>
    requires start <= end
  {
    rows[Min(start, |rows|)..Min(end, |rows|)]
  }

  function Window<R>(source: int, version: int, table: seq<R>, limit: nat, request: Request): Option<RowWindow<R>>
    requires request.range.start >= 0 && request.range.count >= 0
  {
    if request.source != source || request.version != version then None
    else
      var count := WindowCount(|table|, limit, request.range);
      Some(RowWindow(source, version, request.id, request.range,
                     Slice(table, request.range.start, request.range.start + count)))
  }

  function Answer<R>(source: int, version: int, table: seq<R>, limit: nat, message: Message): Option<RowWindow<R>> {
    match RowRequest(message)
    case None => None
    case Some(request) => Window(source, version, table, limit, request)
  }

  // ------------------------------------------------------- runs of a source

  /** What happens to a source: its rows are replaced, or it is asked for a window. */
  datatype Event<R> = Replaced(rows: seq<R>) | Asked(message: Message)

  datatype Table<R> = Table(version: int, rows: seq<R>)

  function After<R>(t: Table<R>, e: Event<R>): Table<R> {
    match e
    case Replaced(rows) => Table(t.version + 1, rows)
    case Asked(_) => t
  }

  function AfterAll<R>(t: Table<R>, run: seq<Event<R>>): Table<R>
    decreases run
  {
    if run == [] then t else AfterAll(After(t, run[0]), run[1..])
  }

  /** Every table of the run, the first one included, in order. */
  function Installed<R>(t: Table<R>, run: seq<Event<R>>): (tables: seq<seq<R>>)
    ensures |tables| > 0 && tables[0] == t.rows
    decreases run
  {
    if run == [] then [t.rows]
    else if run[0].Replaced? then [t.rows] + Installed(After(t, run[0]), run[1..])
    else Installed(t, run[1..])
  }

  /** The version counts the tables installed so far. */
  lemma {:induction false} VersionNamesTable<R>(t: Table<R>, run: seq<Event<R>>, k: nat)
    requires k <= |run|
    ensures var now := AfterAll(t, run[..k]);
            0 <= now.version - t.version < |Installed(t, run)| &&
            now.rows == Installed(t, run)[now.version - t.version]
    decreases run
  {
    if k == 0 {
      assert run[..0] == [];
    } else {
      assert run[..k][1..] == run[1..][..k - 1];
      VersionNamesTable(After(t, run[0]), run[1..], k - 1);
    }
  }

  /** Over any run, an answer is a slice of the rows installed at exactly its version, of the
      promised size; and a request is refused only for a malformed message or a wrong source or version. */
  lemma AnswersAreSlices<R>(source: int, limit: nat, t: Table<R>, run: seq<Event<R>>, k: nat)
    requires k < |run| && run[k].Asked?
    ensures var now := AfterAll(t, run[..k]);
            var answer := Answer(source, now.version, now.rows, limit, run[k].message);
            var request := RowRequest(run[k].message);
            (answer.None? <==> request.None? || request.value.source != source || request.value.version != now.version) &&
            (answer.Some? ==>
              var w := answer.value;
              w.source == source && w.version == request.value.version &&
              w.request == request.value.id && w.range == request.value.range &&
              0 <= w.version - t.version < |Installed(t, run)| &&
              var table := Installed(t, run)[w.version - t.version];
              |w.rows| == WindowCount(|table|, limit, w.range) &&
              (w.rows != [] ==>
                w.range.start + |w.rows| <= |table| && w.rows == table[w.range.start..w.range.start + |w.rows|]))
  {
    VersionNamesTable(t, run, k);
  }

  // ------------------------------------------------------------- the client

  /** A client that asks again from the end of what it received until nothing comes. */
  function Fetch<R>(source: int, version: int, table: seq<R>, limit: nat, id: int, start: nat, count: nat): seq<R>
    requires limit > 0 && count > 0
    decreases |table| - start
  {
    var w := Window(source, version, table, limit, Request(source, version, id, Range(start, count)));
    if w.value.rows == [] then []
    else w.value.rows + Fetch(source, version, table, limit, id + 1, start + |w.value.rows|, count)
  }

  /** It terminates with all rows, whatever the window size it asks for. */
  lemma {:induction false} FetchGetsAll<R>(source: int, version: int, table: seq<R>, limit: nat, id: int, start: nat, count: nat)
    requires limit > 0 && count > 0 && start <= |table|
    ensures Fetch(source, version, table, limit, id, start, count) == table[start..]
    decreases |table| - start
  {
    if start < |table| {
      var n := WindowCount(|table|, limit, Range(start, count));
      var w := Window(source, version, table, limit, Request(source, version, id, Range(start, count))).value;
      assert w.rows == table[start..start + n] && n > 0;
      FetchGetsAll(source, version, table, limit, id + 1, start + n, count);
      SplitRows(table, start, n);
    }
  }

  lemma SplitRows<R>(table: seq<R>, start: nat, n: nat)
    requires start + n <= |table|
    ensures table[start..] == table[start..start + n] + table[start + n..]
  {
  }

  // --------------------------------------------------------- detail sources

  datatype DetailRow = DetailRow(key: nat, name: string, value: string)

  /** The fields that have a text, numbered from one. */
  function Present(values: seq<(string, Option<string>)>): seq<(string, string)> {
    if values == [] then []
    else (if values[0].1.Some? && values[0].1.value != "" then [(values[0].0, values[0].1.value)] else []) +
         Present(values[1..])
  }

  function DetailRows(values: seq<(string, Option<string>)>): (rows: seq<DetailRow>) {
    var present := Present(values);
    seq(|present|, i requires 0 <= i < |present| => DetailRow(i + 1, present[i].0, present[i].1))
  }

  predicate HasText(field: (string, Option<string>)) {
    field.1.Some? && |field.1.value| > 0
  }

  /** The rows are those of the fields with a text, in order: numbered from one, each with the name and
      the text of its field. */
  ghost predicate ShowsFields(values: seq<(string, Option<string>)>, places: seq<nat>, rows: seq<DetailRow>) {
    |rows| == |places| && (forall i, j :: 0 <= i < j < |places| ==> places[i] < places[j]) &&
    (forall i: nat :: i in places <==> i < |values| && HasText(values[i])) &&
    forall k :: 0 <= k < |places| && places[k] < |values| ==>
      rows[k].key == k + 1 && rows[k].name == values[places[k]].0 && Some(rows[k].value) == values[places[k]].1
  }

  lemma PresentNext(first: (string, Option<string>), rest: seq<(string, Option<string>)>)
    ensures Present([first] + rest) == (if HasText(first) then [(first.0, first.1.value)] else []) + Present(rest)
  {
    assert ([first] + rest)[1..] == rest;
  }

  lemma {:induction false} PresentAppend(front: seq<(string, Option<string>)>, back: seq<(string, Option<string>)>)
    ensures Present(front + back) == Present(front) + Present(back)
    decreases |front|
  {
    if front == [] {
      assert front + back == back;
    } else {
      var first, rest := front[0], front[1..];
      assert front == [first] + rest;
      assert front + back == [first] + (rest + back);
      PresentNext(first, rest);
      PresentNext(first, rest + back);
      PresentAppend(rest, back);
    }
  }

  lemma PresentSnoc(values: seq<(string, Option<string>)>, last: (string, Option<string>))
    ensures Present(values + [last]) == Present(values) + (if HasText(last) then [(last.0, last.1.value)] else [])
  {
    PresentAppend(values, [last]);
    PresentNext(last, []);
    assert [last] + [] == [last];
  }

  lemma ShowsFieldsSnoc(front: seq<(string, Option<string>)>, last: (string, Option<string>), before: seq<nat>, rows: seq<DetailRow>)
    requires ShowsFields(front, before, rows)
    ensures !HasText(last) ==> ShowsFields(front + [last], before, rows)
    ensures HasText(last) ==>
              ShowsFields(front + [last], before + [|front|], rows + [DetailRow(|rows| + 1, last.0, last.1.value)])
  {
    forall k | 0 <= k < |before|
      ensures before[k] < |front|
    {
      assert before[k] in before;
    }
  }

  lemma DetailRowsSnoc(front: seq<(string, Option<string>)>, last: (string, Option<string>))
    ensures DetailRows(front + [last]) ==
            DetailRows(front) +
            (if HasText(last) then [DetailRow(|DetailRows(front)| + 1, last.0, last.1.value)] else [])
  {
    PresentSnoc(front, last);
  }

  lemma {:induction false} DetailRowsShow(values: seq<(string, Option<string>)>) returns (places: seq<nat>)
    ensures ShowsFields(values, places, DetailRows(values))
    decreases |values|
  {
    if values == [] {
      places := [];
    } else {
      var front, last := values[..|values| - 1], values[|values| - 1];
      assert front + [last] == values;
      places := DetailRowsShow(front);
      DetailRowsSnoc(front, last);
      ShowsFieldsSnoc(front, last, places, DetailRows(front));
      if HasText(last) {
        places := places + [|front|];
      }
    }
  }

  /** The image, container, execution, network and volume detail sources differ in their source
      number, their window limit and, for images only, a row limit. */
  class DetailsSource {
    const source: int
    const windowLimit: nat
    const rowLimit: Option<nat>
    var version: int
    var rows: seq<DetailRow>

    constructor (source: int, windowLimit: nat, rowLimit: Option<nat>)
      ensures this.source == source && this.windowLimit == windowLimit && this.rowLimit == rowLimit
      ensures Model() == Table(0, [])
    {
      this.source := source;
      this.windowLimit := windowLimit;
      this.rowLimit := rowLimit;
      version := 0;
      rows := [];
    }

    function Model(): Table<DetailRow>
      reads this
    {
      Table(version, rows)
    }

    method Replace(values: seq<(string, Option<string>)>) returns (count: nat)
      modifies this
      ensures count == |rows| == (if rowLimit.Some? then Min(rowLimit.value, |Present(values)|) else |Present(values)|)
      ensures Model() == After(old(Model()), Replaced(rows)) && rows <= DetailRows(values)
      ensures exists places, all ::
        ShowsFields(values, places, all) && rows <= all &&
        |rows| == if rowLimit.Some? then Min(rowLimit.value, |all|) else |all|
    {
      ghost var places := DetailRowsShow(values);
      var all := DetailRows(values);
      rows := if rowLimit.None? || |all| <= rowLimit.value then all else all[..rowLimit.value];
      version := version + 1;
      count := |rows|;
    }

    method AnswerWindow(message: Message) returns (w: Option<RowWindow<DetailRow>>)
      ensures w == Answer(source, version, rows, windowLimit, message)
    {
      var request := RowRequest(message);
      if request.None? {
        return None;
      }
      if request.value.source != source || request.value.version != version {
        return None;
      }
      var count := WindowCount(|rows|, windowLimit, request.value.range);
      var start := request.value.range.start;
      return Some(RowWindow(source, version, request.value.id, request.value.range, Slice(rows, start, start + count)));
    }
  }
}
