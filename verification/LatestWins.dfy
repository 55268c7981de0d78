/** The resource hook (extensions/top/src/app.tsx): of all reloads and replacements only the newest
    may write. Every JavaScript run between two awaits is one step; replies come in any order. */
module LatestWins {
  import opened Wrappers

  datatype Outcome<+T, +E> = Loaded(value: T) | Failed(cause: E)

  datatype Hook<T, E> = Hook(data: Option<T>, loading: bool, error: Option<E>, revision: nat)

  // -------------------------------------------------------------- segments

  function Initial<T, E>(initial: Option<T>): Hook<T, E> {
    Hook(initial, initial.None?, None, 0)
  }

  /** `reload` up to its await. */
  function Requested<T, E>(h: Hook<T, E>): Hook<T, E> {
    h.(revision := h.revision + 1, loading := true)
  }

  /** `reload` from its await on. */
  function Settled<T, E>(h: Hook<T, E>, requested: nat, outcome: Outcome<T, E>): Hook<T, E> {
    if requested != h.revision then h
    else match outcome
         case Loaded(value) => h.(data := Some(value), error := None, loading := false)
         case Failed(cause) => h.(error := Some(cause), loading := false)
  }

  function Replaced<T, E>(h: Hook<T, E>, value: T): Hook<T, E> {
    Hook(Some(value), false, None, h.revision + 1)
  }

  /** The effect's cleanup. */
  function Released<T, E>(h: Hook<T, E>): Hook<T, E> {
    h.(revision := h.revision + 1)
  }

  class ResourceHook<T(0), E(0)> {
    var initial: Option<T>
    var data: Option<T>
    var loading: bool
    var error: Option<E>
    var revision: nat

    constructor (initial: Option<T>)
      ensures this.initial == initial && View() == Initial(initial)
    {
      this.initial := initial;
      data := initial;
      loading := initial.None?;
      error := None;
      revision := 0;
    }

    function View(): Hook<T, E>
      reads this
    {
      Hook(data, loading, error, revision)
    }

    method Reload() returns (requested: nat)
      modifies this
      ensures initial == old(initial)
      ensures View() == Requested(old(View())) && requested == revision
      ensures loading && data == old(data) && error == old(error) && revision == old(revision) + 1
    {
      revision := revision + 1;
      requested := revision;
      loading := true;
    }

    /** The reply: `try` body or `catch`, then `finally`, each guarded by the revision. */
    method Settle(requested: nat, outcome: Outcome<T, E>)
      modifies this
      ensures initial == old(initial)
      ensures View() == Settled(old(View()), requested, outcome)
      ensures revision == old(revision) && loading == (old(loading) && requested != revision)
      ensures data == (if requested == revision && outcome.Loaded? then Some(outcome.value) else old(data))
      ensures error == (if requested != revision then old(error)
                        else if outcome.Loaded? then None else Some(outcome.cause))
    {
      if outcome.Loaded? {
        if requested == revision {
          data := Some(outcome.value);
          error := None;
        }
      } else if requested == revision {
        error := Some(outcome.cause);
      }
      if requested == revision {
        loading := false;
      }
    }

    method Replace(value: T)
      modifies this
      ensures initial == old(initial)
      ensures View() == Replaced(old(View()), value)
      ensures data == Some(value) && error == None && !loading && revision == old(revision) + 1
    {
      revision := revision + 1;
      data := Some(value);
      error := None;
      loading := false;
    }

    /** The effect itself. */
    method RunEffect() returns (requested: Option<nat>)
      modifies this
      ensures initial == old(initial)
      ensures initial.None? ==> View() == Requested(old(View())) && requested == Some(revision)
      ensures initial.Some? ==> View() == old(View()) && requested == None
    {
      requested := None;
      if initial.None? {
        var r := Reload();
        requested := Some(r);
      }
    }

    /** A render with other dependencies, a new loader or a new `initial`: the cleanup, then the effect. */
    method Rerender(next: Option<T>) returns (requested: Option<nat>)
      modifies this
      ensures initial == next
      ensures next.None? ==> View() == Requested(Released(old(View()))) && requested == Some(revision)
      ensures next.Some? ==> View() == Released(old(View())) && requested == None
    {
      Release();
      initial := next;
      requested := RunEffect();
    }

    method Release()
      modifies this
      ensures initial == old(initial)
      ensures View() == Released(old(View()))
    {
      revision := revision + 1;
    }
  }

  // ------------------------------------------------------------------ runs

  /** The hook and the requests whose replies are still to come. */
  datatype System<T, E> = System(hook: Hook<T, E>, outstanding: set<nat>)

  /** `Rerendering` is a render with a new loader, a new `initial`, or both; `seeded` says whether
      `initial` is then defined. */
  datatype Event<T, E> =
    | Reloading
    | Settling(requested: nat, outcome: Outcome<T, E>)
    | Replacing(value: T)
    | Rerendering(seeded: bool)

  function Requesting<T, E>(s: System<T, E>): System<T, E> {
    s.(hook := Requested(s.hook), outstanding := s.outstanding + {s.hook.revision + 1})
  }

  /** Mounted: the effect has run once. */
  function Mounted<T, E>(initial: Option<T>): System<T, E> {
    var s := System(Initial(initial), {});
    if initial.Some? then s else Requesting(s)
  }

  predicate Enabled<T, E>(s: System<T, E>, e: Event<T, E>) {
    e.Settling? ==> e.requested in s.outstanding
  }

  function After<T, E>(s: System<T, E>, e: Event<T, E>): System<T, E> {
    match e
    case Reloading => Requesting(s)
    case Settling(requested, outcome) =>
      s.(hook := Settled(s.hook, requested, outcome), outstanding := s.outstanding - {requested})
    case Replacing(value) => s.(hook := Replaced(s.hook, value))
    case Rerendering(seeded) =>
      var released := s.(hook := Released(s.hook));
      if seeded then released else Requesting(released)
  }

  function AfterAll<T, E>(s: System<T, E>, run: seq<Event<T, E>>): System<T, E>
    decreases run
  {
    if run == [] then s else AfterAll(After(s, run[0]), run[1..])
  }

  ghost predicate Possible<T, E>(s: System<T, E>, run: seq<Event<T, E>>)
    decreases run
  {
    run == [] || (Enabled(s, run[0]) && Possible(After(s, run[0]), run[1..]))
  }

  // ------------------------------------------------------------ invariants

  ghost predicate Numbered<T, E>(s: System<T, E>) {
    forall r <- s.outstanding :: 1 <= r <= s.hook.revision
  }

  /** Loading is shown exactly while the newest request is unanswered. */
  ghost predicate LoadingExact<T, E>(s: System<T, E>) {
    s.hook.loading <==> s.hook.revision in s.outstanding
  }

  lemma StepKeepsNumbered<T, E>(s: System<T, E>, e: Event<T, E>)
    requires Numbered(s) && Enabled(s, e)
    ensures Numbered(After(s, e))
  {
  }

  /** Exactly when a step keeps the loading flag exact: always, except that a render with other
      dependencies and a defined `initial` retires the request of a loading hook and starts none. */
  lemma StepKeepsLoadingExact<T, E>(s: System<T, E>, e: Event<T, E>)
    requires Numbered(s) && LoadingExact(s) && Enabled(s, e)
    ensures LoadingExact(After(s, e)) <==> !(e.Rerendering? && e.seeded && s.hook.loading)
  {
    assert s.hook.revision + 1 !in s.outstanding && s.hook.revision + 2 !in s.outstanding;
  }

  /** A seeded render strands the newest request if it is unanswered; the next reload, replacement or
      unseeded render makes good for it. */
  function StrandedBy<T, E>(s: System<T, E>, e: Event<T, E>, before: bool): bool {
    match e
    case Reloading => false
    case Replacing(_) => false
    case Settling(_, _) => before
    case Rerendering(seeded) => seeded && (before || s.hook.revision in s.outstanding)
  }

  /** Whether a request of the run is stranded at its end. */
  function Stranded<T, E>(s: System<T, E>, run: seq<Event<T, E>>, before: bool): bool
    decreases run
  {
    if run == [] then before
    else Stranded(After(s, run[0]), run[1..], StrandedBy(s, run[0], before))
  }

  /** Loading is shown while the newest request is unanswered or stranded, and never otherwise. */
  ghost predicate LoadingMeans<T, E>(s: System<T, E>, stranded: bool) {
    (s.hook.loading <==> s.hook.revision in s.outstanding || stranded) &&
    !(stranded && s.hook.revision in s.outstanding)
  }

  lemma {:induction false} RunKeepsLoading<T, E>(s: System<T, E>, run: seq<Event<T, E>>, before: bool)
    requires Numbered(s) && LoadingMeans(s, before) && Possible(s, run)
    ensures Numbered(AfterAll(s, run)) && LoadingMeans(AfterAll(s, run), Stranded(s, run, before))
    decreases run
  {
    if run != [] {
      var now := StrandedBy(s, run[0], before);
      StepKeepsNumbered(s, run[0]);
      assert s.hook.revision + 1 !in s.outstanding && s.hook.revision + 2 !in s.outstanding;
      assert LoadingMeans(After(s, run[0]), now);
      RunKeepsLoading(After(s, run[0]), run[1..], now);
    }
  }

  /** From mounting on, over every run and whatever the order of replies: loading is shown exactly
      while the newest request is unanswered, if and only if no request is stranded; a stranded one
      shows loading with nothing to wait for. */
  lemma LoadingShownExactly<T, E>(initial: Option<T>, run: seq<Event<T, E>>)
    requires Possible(Mounted<T, E>(initial), run)
    ensures var s := AfterAll(Mounted<T, E>(initial), run);
            var stranded := Stranded(Mounted<T, E>(initial), run, false);
            (LoadingExact(s) <==> !stranded) &&
            (stranded ==> s.hook.loading && s.hook.revision !in s.outstanding)
  {
    RunKeepsLoading(Mounted<T, E>(initial), run, false);
  }

  /** A hook whose first request is unanswered when `initial` becomes defined: no reply is awaited,
      yet it shows loading until the next reload, replacement or unseeded render. */
  lemma SeedStrandsLoading<T, E>(value: T)
    ensures var run := [Rerendering(true), Settling(1, Loaded(value))];
            Possible(Mounted<T, E>(None), run) &&
            AfterAll(Mounted<T, E>(None), run).outstanding == {} &&
            AfterAll(Mounted<T, E>(None), run).hook.loading
  {
    var reply := Settling(1, Loaded(value));
    var run: seq<Event<T, E>> := [Rerendering(true), reply];
    var s1 := After(Mounted<T, E>(None), Rerendering(true));
    var s2 := After(s1, reply);
    assert run[1..] == [reply] && run[1..][1..] == [];
    assert s1.outstanding == {1} && s1.hook.revision == 2;
    assert s2.outstanding == {} && s2.hook.loading;
    assert AfterAll(s2, run[1..][1..]) == s2 && Possible(s2, run[1..][1..]);
    assert AfterAll(s1, run[1..]) == s2 && Possible(s1, run[1..]);
  }

  /** The same for a seeded hook that swaps its loader while a reload is unanswered. */
  lemma SwapStrandsLoading<T, E>(value: T)
    ensures var run := [Reloading, Rerendering(true), Settling(1, Loaded(value))];
            Possible(Mounted<T, E>(Some(value)), run) &&
            AfterAll(Mounted<T, E>(Some(value)), run).outstanding == {} &&
            AfterAll(Mounted<T, E>(Some(value)), run).hook.loading
  {
    var s0 := Mounted<T, E>(Some(value));
    var reply := Settling(1, Loaded(value));
    var run: seq<Event<T, E>> := [Reloading, Rerendering(true), reply];
    var s1 := After(s0, Reloading);
    var s2 := After(s1, Rerendering(true));
    var s3 := After(s2, reply);
    assert run[1..] == [Rerendering(true), reply] && run[1..][1..] == [reply] && run[1..][1..][1..] == [];
    assert s1.outstanding == {1} && s2.outstanding == {1} && s2.hook.revision == 2;
    assert s3.outstanding == {} && s3.hook.loading;
    assert AfterAll(s3, run[1..][1..][1..]) == s3 && Possible(s3, run[1..][1..][1..]);
    assert AfterAll(s2, run[1..][1..]) == s3 && Possible(s2, run[1..][1..]);
    assert AfterAll(s1, run[1..]) == s3 && Possible(s1, run[1..]);
  }

  // ---------------------------------------------------------- accepted data

  datatype Write<T> = Write(revision: nat, value: T)

  /** The data write of one step, if it makes one. */
  function WriteOf<T, E>(s: System<T, E>, e: Event<T, E>): Option<Write<T>> {
    match e
    case Settling(requested, Loaded(value)) =>
      if requested == s.hook.revision then Some(Write(requested, value)) else None
    case Replacing(value) => Some(Write(s.hook.revision + 1, value))
    case _ => None
  }

  function Writes<T, E>(s: System<T, E>, run: seq<Event<T, E>>): seq<Write<T>>
    decreases run
  {
    if run == [] then []
    else (match WriteOf(s, run[0]) case Some(w) => [w] case None => []) + Writes(After(s, run[0]), run[1..])
  }

  /** Accepted writes carry strictly increasing revisions: data never goes back to an older request. */
  lemma {:induction false} WritesIncrease<T, E>(s: System<T, E>, run: seq<Event<T, E>>, written: nat)
    requires Numbered(s) && Possible(s, run)
    requires written <= s.hook.revision && written !in s.outstanding
    ensures forall i :: 0 <= i < |Writes(s, run)| ==> written < Writes(s, run)[i].revision
    ensures forall i, j :: 0 <= i < j < |Writes(s, run)| ==> Writes(s, run)[i].revision < Writes(s, run)[j].revision
    decreases run
  {
    if run != [] {
      var next := After(s, run[0]);
      StepKeepsNumbered(s, run[0]);
      var last := match WriteOf(s, run[0]) case Some(w) => w.revision case None => written;
      assert last <= next.hook.revision && last !in next.outstanding;
      WritesIncrease(next, run[1..], last);
    }
  }

  /** What is shown is the last accepted write. */
  lemma {:induction false} DataIsLastWrite<T, E>(s: System<T, E>, run: seq<Event<T, E>>)
    ensures var writes := Writes(s, run);
            AfterAll(s, run).hook.data == if writes == [] then s.hook.data else Some(writes[|writes| - 1].value)
    decreases run
  {
    if run != [] {
      DataIsLastWrite(After(s, run[0]), run[1..]);
    }
  }

  lemma LatestWriteWins<T, E>(initial: Option<T>, run: seq<Event<T, E>>)
    requires Possible(Mounted<T, E>(initial), run)
    ensures var writes := Writes(Mounted<T, E>(initial), run);
            (forall i, j :: 0 <= i < j < |writes| ==> writes[i].revision < writes[j].revision) &&
            AfterAll(Mounted<T, E>(initial), run).hook.data ==
              if writes == [] then initial else Some(writes[|writes| - 1].value)
  {
    WritesIncrease(Mounted<T, E>(initial), run, 0);
    DataIsLastWrite(Mounted<T, E>(initial), run);
  }

  // ------------------------------------------------------- accepted reports

  /** How many numbers an event takes: one for a reload, a replacement or a cleanup, and one for the
      reload of an unseeded render. */
  function Taken<T, E>(e: Event<T, E>): nat {
    match e
    case Reloading => 1
    case Settling(_, _) => 0
    case Replacing(_) => 1
    case Rerendering(seeded) => if seeded then 1 else 2
  }

  datatype Report<T, E> = Wrote(value: T) | FailedWith(cause: E)

  /** What is accepted, told from the events alone: every replacement, and the replies to the newest
      number; `newest` is the newest number so far. */
  function Reports<T, E>(newest: nat, run: seq<Event<T, E>>): seq<Report<T, E>>
    decreases run
  {
    if run == [] then []
    else
      var rest := Reports(newest + Taken(run[0]), run[1..]);
      match run[0]
      case Settling(requested, Loaded(value)) => if requested == newest then [Wrote(value)] + rest else rest
      case Settling(requested, Failed(cause)) => if requested == newest then [FailedWith(cause)] + rest else rest
      case Replacing(value) => [Wrote(value)] + rest
      case _ => rest
  }

  /** The cause of the last report, if that is a failure. */
  function LastCause<T, E>(reports: seq<Report<T, E>>, before: Option<E>): Option<E> {
    if reports == [] then before
    else match reports[|reports| - 1]
         case FailedWith(cause) => Some(cause)
         case Wrote(_) => None
  }

  /** The last value that was written. */
  function LastValue<T, E>(reports: seq<Report<T, E>>, before: Option<T>): Option<T>
    decreases |reports|
  {
    if reports == [] then before
    else match reports[|reports| - 1]
         case FailedWith(_) => LastValue(reports[..|reports| - 1], before)
         case Wrote(value) => Some(value)
  }

  lemma {:induction false} LastValueLater<T, E>(first: Report<T, E>, rest: seq<Report<T, E>>, before: Option<T>)
    ensures LastValue([first] + rest, before) ==
            LastValue(rest, if first.Wrote? then Some(first.value) else before)
    decreases |rest|
  {
    var all := [first] + rest;
    if rest == [] {
      assert all[..0] == [];
    } else {
      assert all[..|all| - 1] == [first] + rest[..|rest| - 1];
      LastValueLater(first, rest[..|rest| - 1], before);
    }
  }

  lemma {:induction false} ReportsShown<T, E>(s: System<T, E>, run: seq<Event<T, E>>)
    ensures var reports := Reports(s.hook.revision, run);
            var h := AfterAll(s, run).hook;
            h.error == LastCause(reports, s.hook.error) && h.data == LastValue(reports, s.hook.data)
    decreases run
  {
    if run != [] {
      var next := After(s, run[0]);
      var rest := Reports(next.hook.revision, run[1..]);
      assert next.hook.revision == s.hook.revision + Taken(run[0]);
      ReportsShown(next, run[1..]);
      if Reports(s.hook.revision, run) != rest {
        var first := Reports(s.hook.revision, run)[0];
        assert Reports(s.hook.revision, run) == [first] + rest;
        LastValueLater(first, rest, s.hook.data);
      }
    }
  }

  /** From mounting on, over every run: the error shown is the cause of the last accepted report if that
      is a failure, and none otherwise; the data shown is the last value written. */
  lemma LastReportShown<T, E>(initial: Option<T>, run: seq<Event<T, E>>)
    ensures var reports := Reports(if initial.Some? then 0 else 1, run);
            var h := AfterAll(Mounted<T, E>(initial), run).hook;
            h.error == LastCause(reports, None) && h.data == LastValue(reports, initial)
  {
    ReportsShown(Mounted<T, E>(initial), run);
  }

  ghost predicate OnlyReplies<T, E>(run: seq<Event<T, E>>) {
    forall i :: 0 <= i < |run| ==> run[i].Settling?
  }

  /** Replies to older requests, before or after it, never disturb the outcome of the newest one. */
  lemma {:induction false} NewestReplyDecides<T, E>(s: System<T, E>, run: seq<Event<T, E>>, k: nat)
    requires Numbered(s) && s.hook.revision in s.outstanding && Possible(s, run) && OnlyReplies(run)
    requires k < |run| && run[k].requested == s.hook.revision
    ensures AfterAll(s, run).hook == Settled(s.hook, s.hook.revision, run[k].outcome)
    decreases run
  {
    var next := After(s, run[0]);
    assert run == [run[0]] + run[1..];
    if k == 0 {
      RepliesIgnored(next, run[1..]);
    } else {
      if run[0].requested == s.hook.revision {
        NeverAgain(next, run[1..], s.hook.revision, k - 1);
      }
      NewestReplyDecides(next, run[1..], k - 1);
    }
  }

  /** A request is answered once. */
  lemma {:induction false} NeverAgain<T, E>(s: System<T, E>, run: seq<Event<T, E>>, r: nat, k: nat)
    requires r !in s.outstanding && Possible(s, run) && OnlyReplies(run) && k < |run|
    ensures run[k].requested != r
    decreases run
  {
    assert run == [run[0]] + run[1..];
    if k > 0 {
      NeverAgain(After(s, run[0]), run[1..], r, k - 1);
    }
  }

  lemma {:induction false} RepliesIgnored<T, E>(s: System<T, E>, run: seq<Event<T, E>>)
    requires s.hook.revision !in s.outstanding && Possible(s, run) && OnlyReplies(run)
    ensures AfterAll(s, run).hook == s.hook
    decreases run
  {
    if run != [] {
      assert run == [run[0]] + run[1..];
      RepliesIgnored(After(s, run[0]), run[1..]);
    }
  }
}
