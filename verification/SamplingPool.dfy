/** The bounded pool that samples every container's processes (extensions/top/src/processes.tsx).
    Workers share one cursor; a worker's run between two awaits is one step. */
module SamplingPool {
  import opened Wrappers

  const SAMPLING_CONCURRENCY: nat := 8

  /** The reply of one sample. */
  datatype Reply<+R, +E> = Rows(rows: R) | Cause(cause: E)

  datatype Group<+C, +R, +E> = Snapshot(container: C, rows: R) | Failure(container: C, error: E)

  datatype Worker = Waiting(index: nat) | Done

  datatype Pool<C, R, E> = Pool(containers: seq<C>, groups: seq<Option<Group<C, R, E>>>, cursor: nat, workers: seq<Worker>)

  function Min(a: nat, b: nat): nat {
    if a < b then a else b
  }

  function GroupOf<C, R, E>(container: C, reply: Reply<R, E>): Group<C, R, E> {
    match reply
    case Rows(rows) => Snapshot(container, rows)
    case Cause(cause) => Failure(container, cause)
  }

  /** The head of the worker loop: claim the next index or finish. */
  function Claim<C, R, E>(p: Pool<C, R, E>): (Worker, nat) {
    if p.cursor < |p.containers| then (Waiting(p.cursor), p.cursor + 1) else (Done, p.cursor)
  }

  /** Starting one more worker runs it to its first await. */
  function Launch<C, R, E>(p: Pool<C, R, E>): Pool<C, R, E> {
    var (worker, cursor) := Claim(p);
    p.(workers := p.workers + [worker], cursor := cursor)
  }

  function LaunchAll<C, R, E>(p: Pool<C, R, E>, count: nat): Pool<C, R, E> {
    if count == 0 then p else Launch(LaunchAll(p, count - 1))
  }

  function Started<C, R, E>(containers: seq<C>): Pool<C, R, E> {
    LaunchAll(Pool(containers, seq(|containers|, _ => None), 0, []), Min(SAMPLING_CONCURRENCY, |containers|))
  }

  predicate Enabled<C, R, E>(p: Pool<C, R, E>, w: nat) {
    w < |p.workers| && p.workers[w].Waiting? && p.workers[w].index < |p.groups| == |p.containers|
  }

  /** A reply reaches worker `w`: it stores its group and goes round its loop. */
  function Deliver<C, R, E>(p: Pool<C, R, E>, w: nat, reply: Reply<R, E>): Pool<C, R, E>
    requires Enabled(p, w)
  {
    var index := p.workers[w].index;
    var (worker, cursor) := Claim(p);
    p.(groups := p.groups[index := Some(GroupOf(p.containers[index], reply))],
       workers := p.workers[w := worker], cursor := cursor)
  }

  // ------------------------------------------------------------- invariant

  ghost predicate Sampled<C, R, E>(p: Pool<C, R, E>, i: nat) {
    exists w :: 0 <= w < |p.workers| && p.workers[w] == Waiting(i)
  }

  /** Every claimed index is either in flight at one worker or filled; nothing else is. */
  ghost predicate Valid<C, R, E>(p: Pool<C, R, E>) {
    |p.groups| == |p.containers| && p.cursor <= |p.containers| &&
    |p.workers| <= Min(SAMPLING_CONCURRENCY, |p.containers|) &&
    (forall w :: 0 <= w < |p.workers| && p.workers[w].Waiting? ==>
       p.workers[w].index < p.cursor && p.groups[p.workers[w].index].None?) &&
    (forall v, w :: 0 <= v < w < |p.workers| && p.workers[v].Waiting? ==> p.workers[v] != p.workers[w]) &&
    (forall i :: 0 <= i < p.cursor ==> p.groups[i].Some? || Sampled(p, i)) &&
    (forall i :: p.cursor <= i < |p.groups| ==> p.groups[i].None?) &&
    (forall w :: 0 <= w < |p.workers| && p.workers[w].Done? ==> p.cursor == |p.containers|)
  }

  /** Launched: the whole crew is there, so an unclaimed index keeps somebody at work. */
  ghost predicate Crewed<C, R, E>(p: Pool<C, R, E>) {
    Valid(p) && |p.workers| == Min(SAMPLING_CONCURRENCY, |p.containers|)
  }

  lemma LaunchKeeps<C, R, E>(p: Pool<C, R, E>)
    requires Valid(p) && |p.workers| < Min(SAMPLING_CONCURRENCY, |p.containers|)
    ensures Valid(Launch(p))
  {
    var q := Launch(p);
    var n := |p.workers|;
    assert q.workers[n] == Claim(p).0;
    forall i | 0 <= i < q.cursor ensures q.groups[i].Some? || Sampled(q, i) {
      if i < p.cursor && p.groups[i].None? {
        var w :| 0 <= w < |p.workers| && p.workers[w] == Waiting(i);
        assert q.workers[w] == Waiting(i);
      }
    }
  }

  lemma {:induction false} LaunchAllKeeps<C, R, E>(p: Pool<C, R, E>, count: nat)
    requires Valid(p) && |p.workers| + count <= Min(SAMPLING_CONCURRENCY, |p.containers|)
    ensures Valid(LaunchAll(p, count)) && |LaunchAll(p, count).workers| == |p.workers| + count
    ensures LaunchAll(p, count).containers == p.containers && LaunchAll(p, count).groups == p.groups
    decreases count
  {
    if count > 0 {
      LaunchAllKeeps(p, count - 1);
      LaunchKeeps(LaunchAll(p, count - 1));
    }
  }

  lemma StartedCrewed<C, R, E>(containers: seq<C>)
    ensures Crewed(Started<C, R, E>(containers)) && Started<C, R, E>(containers).containers == containers
    ensures forall i :: 0 <= i < |containers| ==> Started<C, R, E>(containers).groups[i].None?
    ensures Missing(Started<C, R, E>(containers).groups) == |containers|
  {
    var empty: Pool<C, R, E> := Pool(containers, seq(|containers|, _ => None), 0, []);
    LaunchAllKeeps(empty, Min(SAMPLING_CONCURRENCY, |containers|));
    AllMissing(Started<C, R, E>(containers).groups);
  }

  lemma DeliverKeeps<C, R, E>(p: Pool<C, R, E>, w: nat, reply: Reply<R, E>)
    requires Crewed(p) && Enabled(p, w)
    ensures Crewed(Deliver(p, w, reply))
  {
    var q := Deliver(p, w, reply);
    var index := p.workers[w].index;
    forall i | 0 <= i < q.cursor ensures q.groups[i].Some? || Sampled(q, i) {
      if i == p.cursor {
        assert q.workers[w] == Waiting(i);
      } else if i != index && p.groups[i].None? {
        assert Sampled(p, i);
        var v :| 0 <= v < |p.workers| && p.workers[v] == Waiting(i);
        assert q.workers[v] == Waiting(i);
      }
    }
  }

  // ------------------------------------------------------------ termination

  /** Slots still empty. */
  function Missing<G>(groups: seq<Option<G>>): nat {
    if groups == [] then 0 else (if groups[0].None? then 1 else 0) + Missing(groups[1..])
  }

  lemma {:induction false} AllMissing<G>(groups: seq<Option<G>>)
    requires forall i :: 0 <= i < |groups| ==> groups[i].None?
    ensures Missing(groups) == |groups|
  {
    if groups != [] {
      AllMissing(groups[1..]);
    }
  }

  lemma {:induction false} FillOne<G>(groups: seq<Option<G>>, k: nat, g: G)
    requires k < |groups| && groups[k].None?
    ensures Missing(groups[k := Some(g)]) == Missing(groups) - 1
  {
    if k == 0 {
      assert groups[0 := Some(g)][1..] == groups[1..];
    } else {
      assert groups[k := Some(g)][1..] == groups[1..][k - 1 := Some(g)];
      FillOne(groups[1..], k - 1, g);
    }
  }

  lemma {:induction false} NoneMissing<G>(groups: seq<Option<G>>)
    ensures Missing(groups) == 0 <==> forall i :: 0 <= i < |groups| ==> groups[i].Some?
  {
    if groups != [] {
      NoneMissing(groups[1..]);
      assert forall i :: 1 <= i < |groups| ==> groups[i] == groups[1..][i - 1];
    }
  }

  predicate Finished<C, R, E>(p: Pool<C, R, E>) {
    forall w :: 0 <= w < |p.workers| ==> p.workers[w].Done?
  }

  /** The pool is finished exactly when every slot is filled, and otherwise some reply is awaited. */
  lemma FinishedIsFull<C, R, E>(p: Pool<C, R, E>)
    requires Crewed(p)
    ensures Finished(p) <==> Missing(p.groups) == 0
    ensures !Finished(p) ==> exists w :: Enabled(p, w)
  {
    NoneMissing(p.groups);
    if Finished(p) {
      forall i | 0 <= i < |p.groups| ensures p.groups[i].Some? {
        assert |p.workers| > 0 ==> p.workers[0].Done?;
        assert p.groups[i].Some? || Sampled(p, i);
      }
    } else {
      var w :| 0 <= w < |p.workers| && p.workers[w].Waiting?;
      assert Enabled(p, w);
    }
  }

  /** Each reply fills one slot, so every schedule ends after one reply per container. */
  lemma DeliverFills<C, R, E>(p: Pool<C, R, E>, w: nat, reply: Reply<R, E>)
    requires Crewed(p) && Enabled(p, w)
    ensures Missing(Deliver(p, w, reply).groups) == Missing(p.groups) - 1
  {
    var index := p.workers[w].index;
    FillOne(p.groups, index, GroupOf(p.containers[index], reply));
  }

  // ------------------------------------------------------------------ runs

  datatype Delivery<R, E> = Delivery(worker: nat, reply: Reply<R, E>)

  ghost predicate Possible<C, R, E>(p: Pool<C, R, E>, run: seq<Delivery<R, E>>)
    decreases run
  {
    run == [] || (Enabled(p, run[0].worker) && Possible(Deliver(p, run[0].worker, run[0].reply), run[1..]))
  }

  ghost function AfterAll<C, R, E>(p: Pool<C, R, E>, run: seq<Delivery<R, E>>): Pool<C, R, E>
    requires Possible(p, run)
    decreases run
  {
    if run == [] then p else AfterAll(Deliver(p, run[0].worker, run[0].reply), run[1..])
  }

  /** The slots the replies of a run go to, in delivery order. */
  ghost function Slots<C, R, E>(p: Pool<C, R, E>, run: seq<Delivery<R, E>>): (slots: seq<nat>)
    requires Possible(p, run)
    ensures |slots| == |run|
    decreases run
  {
    if run == [] then [] else [p.workers[run[0].worker].index] + Slots(Deliver(p, run[0].worker, run[0].reply), run[1..])
  }

  lemma {:induction false} RunKeepsCrew<C, R, E>(p: Pool<C, R, E>, run: seq<Delivery<R, E>>)
    requires Crewed(p) && Possible(p, run)
    ensures Crewed(AfterAll(p, run)) && AfterAll(p, run).containers == p.containers
    ensures Missing(AfterAll(p, run).groups) == Missing(p.groups) - |run|
    decreases run
  {
    if run != [] {
      DeliverKeeps(p, run[0].worker, run[0].reply);
      DeliverFills(p, run[0].worker, run[0].reply);
      RunKeepsCrew(Deliver(p, run[0].worker, run[0].reply), run[1..]);
    }
  }

  lemma {:induction false} RunKeepsFilled<C, R, E>(p: Pool<C, R, E>, run: seq<Delivery<R, E>>, i: nat)
    requires Crewed(p) && Possible(p, run) && i < |p.groups| && p.groups[i].Some?
    ensures i < |AfterAll(p, run).groups| && AfterAll(p, run).groups[i] == p.groups[i]
    decreases run
  {
    if run != [] {
      DeliverKeeps(p, run[0].worker, run[0].reply);
      RunKeepsFilled(Deliver(p, run[0].worker, run[0].reply), run[1..], i);
    }
  }

  ghost predicate FillsSlot<C, R, E>(p: Pool<C, R, E>, run: seq<Delivery<R, E>>, k: nat)
    requires Possible(p, run) && k < |run|
  {
    var slot, end := Slots(p, run)[k], AfterAll(p, run);
    slot < |p.groups| == |p.containers| && p.groups[slot].None? && slot < |end.groups| &&
    end.groups[slot] == Some(GroupOf(p.containers[slot], run[k].reply))
  }

  lemma {:induction false} RunFillsSlot<C, R, E>(p: Pool<C, R, E>, run: seq<Delivery<R, E>>, k: nat)
    requires Crewed(p) && Possible(p, run) && k < |run|
    ensures FillsSlot(p, run, k)
    decreases run
  {
    var next := Deliver(p, run[0].worker, run[0].reply);
    DeliverKeeps(p, run[0].worker, run[0].reply);
    if k == 0 {
      RunKeepsFilled(next, run[1..], p.workers[run[0].worker].index);
    } else {
      RunFillsSlot(next, run[1..], k - 1);
      assert Slots(p, run)[k] == Slots(next, run[1..])[k - 1] && run[k] == run[1..][k - 1];
    }
  }

  lemma {:induction false} SlotsDiffer<C, R, E>(p: Pool<C, R, E>, run: seq<Delivery<R, E>>, j: nat, k: nat)
    requires Crewed(p) && Possible(p, run) && j < k < |run|
    ensures Slots(p, run)[j] != Slots(p, run)[k]
    decreases run
  {
    var next := Deliver(p, run[0].worker, run[0].reply);
    DeliverKeeps(p, run[0].worker, run[0].reply);
    assert Slots(p, run)[k] == Slots(next, run[1..])[k - 1];
    if j == 0 {
      RunFillsSlot(next, run[1..], k - 1);
    } else {
      SlotsDiffer(next, run[1..], j - 1, k - 1);
      assert Slots(p, run)[j] == Slots(next, run[1..])[j - 1];
    }
  }

  /** What every schedule does: it keeps the invariant, sends each reply to a slot of its own that
      was empty, and leaves in every slot the group of that slot's container and reply. */
  lemma RunFillsSlots<C, R, E>(p: Pool<C, R, E>, run: seq<Delivery<R, E>>)
    requires Crewed(p) && Possible(p, run)
    ensures Crewed(AfterAll(p, run)) && AfterAll(p, run).containers == p.containers
    ensures Missing(AfterAll(p, run).groups) == Missing(p.groups) - |run|
    ensures forall k :: 0 <= k < |run| ==> FillsSlot(p, run, k)
    ensures forall i :: 0 <= i < |p.groups| && p.groups[i].Some? ==> AfterAll(p, run).groups[i] == p.groups[i]
    ensures forall j, k :: 0 <= j < k < |run| ==> Slots(p, run)[j] != Slots(p, run)[k]
  {
    RunKeepsCrew(p, run);
    forall k | 0 <= k < |run|
      ensures FillsSlot(p, run, k)
    {
      RunFillsSlot(p, run, k);
    }
    forall i | 0 <= i < |p.groups| && p.groups[i].Some?
      ensures AfterAll(p, run).groups[i] == p.groups[i]
    {
      RunKeepsFilled(p, run, i);
    }
    forall j, k | 0 <= j < k < |run|
      ensures Slots(p, run)[j] != Slots(p, run)[k]
    {
      SlotsDiffer(p, run, j, k);
    }
  }

  /** Every complete schedule consists of one reply per container and ends with every slot filled
      by its own container, in container order; every incomplete one can go on. */
  lemma EveryScheduleEnds<C, R, E>(containers: seq<C>, run: seq<Delivery<R, E>>)
    requires Possible(Started<C, R, E>(containers), run)
    ensures var end := AfterAll(Started<C, R, E>(containers), run);
            |run| <= |containers| && (Finished(end) <==> |run| == |containers|) &&
            (!Finished(end) ==> exists w :: Enabled(end, w)) &&
            |end.groups| == |containers| &&
            (Finished(end) ==> forall i :: 0 <= i < |containers| ==>
               end.groups[i].Some? && end.groups[i].value.container == containers[i])
  {
    var start := Started<C, R, E>(containers);
    StartedCrewed<C, R, E>(containers);
    RunFillsSlots(start, run);
    var end := AfterAll(start, run);
    FinishedIsFull(end);
    NoneMissing(end.groups);
    if Finished(end) {
      forall i | 0 <= i < |containers| ensures end.groups[i].Some? && end.groups[i].value.container == containers[i] {
        OwnContainers(start, run, i);
      }
    }
  }

  lemma {:induction false} OwnContainers<C, R, E>(p: Pool<C, R, E>, run: seq<Delivery<R, E>>, i: nat)
    requires Crewed(p) && Possible(p, run) && i < |p.containers|
    requires p.groups[i].Some? ==> p.groups[i].value.container == p.containers[i]
    ensures AfterAll(p, run).containers == p.containers && |AfterAll(p, run).groups| == |p.groups|
    ensures AfterAll(p, run).groups[i].Some? ==> AfterAll(p, run).groups[i].value.container == p.containers[i]
    decreases run
  {
    if run != [] {
      DeliverKeeps(p, run[0].worker, run[0].reply);
      OwnContainers(Deliver(p, run[0].worker, run[0].reply), run[1..], i);
    }
  }

  /** Never more than eight samples, nor more than there are containers, are in flight, and no two
      of them are of the same container. */
  lemma InFlightBounded<C, R, E>(containers: seq<C>, run: seq<Delivery<R, E>>, inFlight: set<nat>)
    requires Possible(Started<C, R, E>(containers), run)
    requires forall w <- inFlight :: Enabled(AfterAll(Started<C, R, E>(containers), run), w)
    ensures |inFlight| <= Min(SAMPLING_CONCURRENCY, |containers|)
    ensures var end := AfterAll(Started<C, R, E>(containers), run);
            forall v: nat, w: nat :: Enabled(end, v) && Enabled(end, w) && v != w ==> end.workers[v].index != end.workers[w].index
  {
    StartedCrewed<C, R, E>(containers);
    RunFillsSlots(Started<C, R, E>(containers), run);
    var end := AfterAll(Started<C, R, E>(containers), run);
    SubsetOfRange(inFlight, |end.workers|);
    forall v: nat, w: nat | Enabled(end, v) && Enabled(end, w) && v != w ensures end.workers[v].index != end.workers[w].index {
      if v < w {
        assert end.workers[v] != end.workers[w];
      } else {
        assert end.workers[w] != end.workers[v];
      }
    }
  }

  lemma {:induction false} SubsetOfRange(s: set<nat>, n: nat)
    requires forall x <- s :: x < n
    ensures |s| <= n
    decreases n
  {
    if n > 0 {
      SubsetOfRange(s - {n - 1}, n - 1);
      if n - 1 in s {
        assert |s - {n - 1}| == |s| - 1;
      } else {
        assert s - {n - 1} == s;
      }
    } else if x :| x in s {
    }
  }

  // -------------------------------------------------------------- in place

  /** The pool in the source's own form: an array of groups and a shared cursor. */
  class Sampler<C, R, E> {
    const containers: seq<C>
    const groups: array<Option<Group<C, R, E>>>
    var cursor: nat
    var workers: seq<Worker>

    constructor (containers: seq<C>)
      ensures this.containers == containers && fresh(groups) && groups.Length == |containers|
      ensures View() == Started(containers)
    {
      this.containers := containers;
      groups := new Option<Group<C, R, E>>[|containers|](_ => None);
      cursor := 0;
      workers := [];
      new;
      ghost var empty := Pool(containers, seq(|containers|, _ => None), 0, []);
      var crew := Min(SAMPLING_CONCURRENCY, |containers|);
      for k := 0 to crew
        invariant View() == LaunchAll(empty, k)
      {
        var worker := NextIndex();
        workers := workers + [worker];
      }
    }

    function View(): Pool<C, R, E>
      reads this, groups
    {
      Pool(containers, groups[..], cursor, workers)
    }

    /** Claims the next index, or finishes when there is none. */
    method NextIndex() returns (worker: Worker)
      modifies this`cursor
      ensures (worker, cursor) == Claim(old(View()))
    {
      if cursor < |containers| {
        worker := Waiting(cursor);
        cursor := cursor + 1;
      } else {
        worker := Done;
      }
    }

    /** From a worker's await to its next one. */
    method Resume(w: nat, reply: Reply<R, E>)
      requires Enabled(View(), w)
      modifies this`cursor, this`workers, groups
      ensures View() == Deliver(old(View()), w, reply)
    {
      var index := workers[w].index;
      groups[index] := Some(GroupOf(containers[index], reply));
      var worker := NextIndex();
      workers := workers[w := worker];
    }

    /** The whole pool against any host and any schedule: which waiting worker resumes next is
        chosen arbitrarily, and the loop ends with the host's reply for every container. */
    method Drain(replies: seq<Reply<R, E>>)
      requires |replies| == |containers| == groups.Length && View() == Started(containers)
      modifies this`cursor, this`workers, groups
      ensures Finished(View())
      ensures groups[..] == Full(containers, replies)
    {
      StartedCrewed<C, R, E>(containers);
      while exists w :: 0 <= w < |workers| && workers[w].Waiting?
        invariant Crewed(View())
        invariant forall i :: 0 <= i < groups.Length ==>
                    groups[i].None? || groups[i] == Some(GroupOf(containers[i], replies[i]))
        decreases Missing(groups[..])
      {
        var w :| 0 <= w < |workers| && workers[w].Waiting?;
        ghost var before := View();
        var index := workers[w].index;
        DeliverKeeps(before, w, replies[index]);
        DeliverFills(before, w, replies[index]);
        Resume(w, replies[index]);
        assert groups[..] == before.groups[index := Some(GroupOf(containers[index], replies[index]))];
      }
      FinishedIsFull(View());
      NoneMissing(groups[..]);
      assert forall i :: 0 <= i < groups.Length ==> groups[..][i].Some?;
    }
  }

  // ------------------------------------------------------------ publication

  datatype Screen<C, R, E> =
    Screen(loadRevision: nat, snapshots: seq<Group<C, R, E>>, failures: seq<Group<C, R, E>>, error: Option<E>, loading: bool)

  function Defined<G>(groups: seq<Option<G>>): seq<G> {
    if groups == [] then []
    else (match groups[0] case Some(g) => [g] case None => []) + Defined(groups[1..])
  }

  function Snapshots<C, R, E>(groups: seq<Group<C, R, E>>): seq<Group<C, R, E>> {
    if groups == [] then [] else (if groups[0].Snapshot? then [groups[0]] else []) + Snapshots(groups[1..])
  }

  function Failures<C, R, E>(groups: seq<Group<C, R, E>>): seq<Group<C, R, E>> {
    if groups == [] then [] else (if groups[0].Failure? then [groups[0]] else []) + Failures(groups[1..])
  }

  function Begun<C, R, E>(s: Screen<C, R, E>): Screen<C, R, E> {
    s.(loadRevision := s.loadRevision + 1, loading := true)
  }

  /** The end of `load`, under its revision. */
  function Published<C, R, E>(s: Screen<C, R, E>, revision: nat, groups: seq<Option<Group<C, R, E>>>): Screen<C, R, E> {
    if revision != s.loadRevision then s
    else
      var available, unavailable := Snapshots(Defined(groups)), Failures(Defined(groups));
      FailuresFail(Defined(groups));
      s.(snapshots := available, failures := unavailable, loading := false,
         error := if available == [] && unavailable != [] then Some(unavailable[0].error) else None)
  }

  lemma {:induction false} FailuresFail<C, R, E>(groups: seq<Group<C, R, E>>)
    ensures forall i :: 0 <= i < |Failures(groups)| ==> Failures(groups)[i].Failure?
  {
    if groups != [] {
      FailuresFail(groups[1..]);
    }
  }

  class Loader<C, R, E> {
    var loadRevision: nat
    var snapshots: seq<Group<C, R, E>>
    var failures: seq<Group<C, R, E>>
    var error: Option<E>
    var loading: bool

    constructor ()
      ensures View() == Screen(0, [], [], None, true)
    {
      loadRevision, snapshots, failures, error, loading := 0, [], [], None, true;
    }

    function View(): Screen<C, R, E>
      reads this
    {
      Screen(loadRevision, snapshots, failures, error, loading)
    }

    method Begin() returns (revision: nat)
      modifies this
      ensures View() == Begun(old(View())) && revision == loadRevision
      ensures loading && loadRevision == old(loadRevision) + 1
      ensures snapshots == old(snapshots) && failures == old(failures) && error == old(error)
    {
      loadRevision := loadRevision + 1;
      revision := loadRevision;
      loading := true;
    }

    /** The effect's cleanup retires a load that is still running. */
    method Release()
      modifies this
      ensures View() == old(View()).(loadRevision := old(loadRevision) + 1)
    {
      loadRevision := loadRevision + 1;
    }

    method Publish(revision: nat, groups: seq<Option<Group<C, R, E>>>)
      modifies this
      ensures View() == Published(old(View()), revision, groups)
    {
      if revision != loadRevision {
        return;
      }
      var complete := Defined(groups);
      var available, unavailable := Snapshots(complete), Failures(complete);
      FailuresFail(complete);
      snapshots := available;
      failures := unavailable;
      error := if |available| == 0 && |unavailable| > 0 then Some(unavailable[0].error) else None;
      if revision == loadRevision {
        loading := false;
      }
    }
  }

  lemma {:induction false} DefinedOfFull<G>(groups: seq<Option<G>>)
    requires forall i :: 0 <= i < |groups| ==> groups[i].Some?
    ensures |Defined(groups)| == |groups| && forall i :: 0 <= i < |groups| ==> Defined(groups)[i] == groups[i].value
  {
    if groups != [] {
      DefinedOfFull(groups[1..]);
      assert forall i :: 1 <= i < |groups| ==> groups[i] == groups[1..][i - 1];
    }
  }

  lemma {:induction false} Partition<C, R, E>(groups: seq<Group<C, R, E>>)
    ensures multiset(Snapshots(groups)) + multiset(Failures(groups)) == multiset(groups)
    ensures forall g :: g in Snapshots(groups) <==> g in groups && g.Snapshot?
    ensures forall g :: g in Failures(groups) <==> g in groups && g.Failure?
  {
    if groups != [] {
      Partition(groups[1..]);
      assert groups == [groups[0]] + groups[1..];
    }
  }

  lemma {:induction false} AllFailed<C, R, E>(groups: seq<Group<C, R, E>>)
    requires forall i :: 0 <= i < |groups| ==> groups[i].Failure?
    ensures Snapshots(groups) == [] && Failures(groups) == groups
  {
    if groups != [] {
      AllFailed(groups[1..]);
      assert groups == [groups[0]] + groups[1..];
    }
  }

  /** The groups of a finished load. */
  function Full<C, R, E>(containers: seq<C>, replies: seq<Reply<R, E>>): seq<Option<Group<C, R, E>>>
    requires |replies| == |containers|
  {
    seq(|containers|, i requires 0 <= i < |containers| => Some(GroupOf(containers[i], replies[i])))
  }

  function Groups<C, R, E>(containers: seq<C>, replies: seq<Reply<R, E>>): seq<Group<C, R, E>>
    requires |replies| == |containers|
  {
    seq(|containers|, i requires 0 <= i < |containers| => GroupOf(containers[i], replies[i]))
  }

  lemma ErrorOnlyWhenAllFailed<C, R, E>(containers: seq<C>, replies: seq<Reply<R, E>>)
    requires |replies| == |containers|
    ensures Snapshots(Groups(containers, replies)) == [] <==> forall i :: 0 <= i < |replies| ==> replies[i].Cause?
    ensures Snapshots(Groups(containers, replies)) == [] ==> Failures(Groups(containers, replies)) == Groups(containers, replies)
  {
    var all := Groups(containers, replies);
    if forall i :: 0 <= i < |replies| ==> replies[i].Cause? {
      assert forall i :: 0 <= i < |all| ==> all[i].Failure?;
      AllFailed(all);
    } else {
      var i :| 0 <= i < |replies| && replies[i].Rows?;
      Partition(all);
      assert all[i] in all && all[i].Snapshot?;
      assert all[i] in Snapshots(all);
    }
  }

  lemma DefinedOfFullGroups<C, R, E>(containers: seq<C>, replies: seq<Reply<R, E>>)
    requires |replies| == |containers|
    ensures Defined(Full(containers, replies)) == Groups(containers, replies)
  {
    DefinedOfFull(Full(containers, replies));
  }

  lemma {:induction false} SnapshotsSucceed<C, R, E>(groups: seq<Group<C, R, E>>)
    ensures forall i :: 0 <= i < |Snapshots(groups)| ==> Snapshots(groups)[i].Snapshot?
  {
    if groups != [] {
      SnapshotsSucceed(groups[1..]);
    }
  }

  /** A finished load whose revision is still current shows every container exactly once, as a
      snapshot or a failure, and stops loading; a retired one changes nothing. */
  lemma PublishesEveryContainer<C, R, E>(s: Screen<C, R, E>, revision: nat, containers: seq<C>, replies: seq<Reply<R, E>>)
    requires |replies| == |containers|
    ensures var shown := Published(s, revision, Full(containers, replies));
            if revision != s.loadRevision then shown == s
            else multiset(shown.snapshots) + multiset(shown.failures) == multiset(Groups(containers, replies)) &&
                 (forall i :: 0 <= i < |shown.snapshots| ==> shown.snapshots[i].Snapshot?) &&
                 (forall i :: 0 <= i < |shown.failures| ==> shown.failures[i].Failure?) &&
                 !shown.loading && shown.loadRevision == s.loadRevision
  {
    var all := Groups(containers, replies);
    DefinedOfFullGroups(containers, replies);
    if revision == s.loadRevision {
      Partition(all);
      FailuresFail(all);
      SnapshotsSucceed(all);
    }
  }

  /** The page reports an error exactly when there were containers and every one failed, and it is
      the first container's. */
  lemma PublishesErrorOnlyWhenAllFailed<C, R, E>(s: Screen<C, R, E>, revision: nat, containers: seq<C>, replies: seq<Reply<R, E>>)
    requires |replies| == |containers| && revision == s.loadRevision
    ensures var shown := Published(s, revision, Full(containers, replies));
            (shown.error.Some? <==> containers != [] && forall i :: 0 <= i < |replies| ==> replies[i].Cause?) &&
            (shown.error.Some? ==> shown.error.value == replies[0].cause)
  {
    var all := Groups(containers, replies);
    DefinedOfFullGroups(containers, replies);
    ErrorOnlyWhenAllFailed(containers, replies);
    assert |all| == |containers|;
    if Snapshots(all) == [] && containers != [] {
      assert all[0] == GroupOf(containers[0], replies[0]);
    }
  }

  /** Both shown lists keep the order of the containers: a group's place among its kind is the number
      of groups of its kind before it. */
  lemma {:induction false} ListsKeepOrder<C, R, E>(groups: seq<Group<C, R, E>>, i: nat)
    requires i < |groups|
    ensures groups[i].Snapshot? ==>
              |Snapshots(groups[..i])| < |Snapshots(groups)| && Snapshots(groups)[|Snapshots(groups[..i])|] == groups[i]
    ensures groups[i].Failure? ==>
              |Failures(groups[..i])| < |Failures(groups)| && Failures(groups)[|Failures(groups[..i])|] == groups[i]
  {
    if i > 0 {
      ListsKeepOrder(groups[1..], i - 1);
      assert groups[1..][i - 1] == groups[i];
      assert groups[..i][1..] == groups[1..][..i - 1];
    }
  }

  /** What happens to the page between two moments. */
  datatype Moment<C, R, E> =
    | Beginning
    | Releasing
    | Publishing(revision: nat, groups: seq<Option<Group<C, R, E>>>)

  function Passed<C, R, E>(s: Screen<C, R, E>, m: Moment<C, R, E>): Screen<C, R, E> {
    match m
    case Beginning => Begun(s)
    case Releasing => s.(loadRevision := s.loadRevision + 1)
    case Publishing(revision, groups) => Published(s, revision, groups)
  }

  function PassedAll<C, R, E>(s: Screen<C, R, E>, run: seq<Moment<C, R, E>>): Screen<C, R, E>
    decreases run
  {
    if run == [] then s else PassedAll(Passed(s, run[0]), run[1..])
  }

  function Retirements<C, R, E>(run: seq<Moment<C, R, E>>): nat {
    if run == [] then 0 else (if run[0].Publishing? then 0 else 1) + Retirements(run[1..])
  }

  lemma {:induction false} RevisionCounts<C, R, E>(s: Screen<C, R, E>, run: seq<Moment<C, R, E>>)
    ensures PassedAll(s, run).loadRevision == s.loadRevision + Retirements(run)
    decreases run
  {
    if run != [] {
      RevisionCounts(Passed(s, run[0]), run[1..]);
    }
  }

  /** Over any run: the load begun at some moment still publishes exactly if no other load was begun
      and the effect was not released since; otherwise its publication changes nothing. */
  lemma OnlyCurrentLoadPublishes<C, R, E>(s: Screen<C, R, E>, run: seq<Moment<C, R, E>>, containers: seq<C>,
                                          replies: seq<Reply<R, E>>)
    requires |replies| == |containers|
    ensures var now := PassedAll(Begun(s), run);
            var shown := Published(now, Begun(s).loadRevision, Full(containers, replies));
            if Retirements(run) == 0
            then !shown.loading && shown.snapshots == Snapshots(Groups(containers, replies)) &&
                 shown.failures == Failures(Groups(containers, replies))
            else shown == now
  {
    RevisionCounts(Begun(s), run);
    DefinedOfFullGroups(containers, replies);
  }

  /** The result shown last, told from the moments alone: publications count under the newest revision,
      which every begun load and every release raises. */
  function LastResult<C, R, E>(newest: nat, run: seq<Moment<C, R, E>>, before: Option<seq<Option<Group<C, R, E>>>>):
    Option<seq<Option<Group<C, R, E>>>>
    decreases run
  {
    if run == [] then before
    else match run[0]
         case Beginning => LastResult(newest + 1, run[1..], before)
         case Releasing => LastResult(newest + 1, run[1..], before)
         case Publishing(revision, groups) =>
           LastResult(newest, run[1..], if revision == newest then Some(groups) else before)
  }

  /** Whether a load is being waited for: the last begun one has not been published. */
  function Busy<C, R, E>(newest: nat, run: seq<Moment<C, R, E>>, before: bool): bool
    decreases run
  {
    if run == [] then before
    else match run[0]
         case Beginning => Busy(newest + 1, run[1..], true)
         case Releasing => Busy(newest + 1, run[1..], before)
         case Publishing(revision, _) => Busy(newest, run[1..], before && revision != newest)
  }

  /** The lists and the error of a result. */
  ghost predicate ShowsResult<C, R, E>(s: Screen<C, R, E>, groups: seq<Option<Group<C, R, E>>>) {
    s.snapshots == Snapshots(Defined(groups)) && s.failures == Failures(Defined(groups)) &&
    (s.error.Some? <==> |s.snapshots| == 0 && |s.failures| > 0) &&
    (s.error.Some? ==> s.failures[0].Failure? && s.error.value == s.failures[0].error)
  }

  lemma PublishedShows<C, R, E>(s: Screen<C, R, E>, revision: nat, groups: seq<Option<Group<C, R, E>>>)
    requires revision == s.loadRevision
    ensures ShowsResult(Published(s, revision, groups), groups)
  {
    FailuresFail(Defined(groups));
  }

  /** One moment: the revision, the loading flag and the lists. */
  lemma MomentShows<C, R, E>(s: Screen<C, R, E>, m: Moment<C, R, E>)
    ensures Passed(s, m).loadRevision == s.loadRevision + if m.Publishing? then 0 else 1
    ensures Passed(s, m).loading == (m.Beginning? || (s.loading && !(m.Publishing? && m.revision == s.loadRevision)))
    ensures m.Publishing? && m.revision == s.loadRevision ==> ShowsResult(Passed(s, m), m.groups)
    ensures !(m.Publishing? && m.revision == s.loadRevision) ==>
              Passed(s, m).snapshots == s.snapshots && Passed(s, m).failures == s.failures && Passed(s, m).error == s.error
  {
    if m.Publishing? && m.revision == s.loadRevision {
      PublishedShows(s, m.revision, m.groups);
    }
  }

  lemma {:induction false} LoadingTold<C, R, E>(s: Screen<C, R, E>, run: seq<Moment<C, R, E>>)
    ensures PassedAll(s, run).loading == Busy(s.loadRevision, run, s.loading)
    decreases run
  {
    if run != [] {
      MomentShows(s, run[0]);
      LoadingTold(Passed(s, run[0]), run[1..]);
    }
  }

  /** The screen shows the result, or as long as there is none what the other screen shows. */
  ghost predicate ShowsLast<C, R, E>(t: Screen<C, R, E>, last: Option<seq<Option<Group<C, R, E>>>>, first: Screen<C, R, E>) {
    match last
    case Some(groups) => ShowsResult(t, groups)
    case None => t.snapshots == first.snapshots && t.failures == first.failures && t.error == first.error
  }

  lemma {:induction false} ResultTold<C, R, E>(s: Screen<C, R, E>, run: seq<Moment<C, R, E>>,
                                               before: Option<seq<Option<Group<C, R, E>>>>, first: Screen<C, R, E>)
    requires ShowsLast(s, before, first)
    ensures ShowsLast(PassedAll(s, run), LastResult(s.loadRevision, run, before), first)
    decreases run
  {
    if run != [] {
      var m := run[0];
      var now := if m.Publishing? && m.revision == s.loadRevision then Some(m.groups) else before;
      MomentShows(s, m);
      ResultTold(Passed(s, m), run[1..], now, first);
    }
  }

  function Mounted<C, R, E>(): Screen<C, R, E> {
    Screen(0, [], [], None, true)
  }

  /** Over every run from the mounted page: it shows loading exactly while the last load begun is
      unpublished or none was begun yet, and meanwhile keeps the lists and the error of the last result. */
  lemma LastResultStays<C, R, E>(run: seq<Moment<C, R, E>>)
    ensures var t := PassedAll(Mounted<C, R, E>(), run);
            var last := LastResult(0, run, None);
            t.loading == Busy(0, run, true) &&
            (last.Some? ==> ShowsResult(t, last.value)) &&
            (last.None? ==> t.snapshots == [] && t.failures == [] && t.error == None)
  {
    LoadingTold(Mounted<C, R, E>(), run);
    ResultTold(Mounted<C, R, E>(), run, None, Mounted<C, R, E>());
  }
}
