/** Watching an image pull (extensions/top/src/images.tsx). Every JavaScript run between two awaits is
    one step. Subscriptions, events and status reads are in flight together and arrive in any order;
    the host changes between any two steps. */
module ImagePull {
  import opened Wrappers

  type Job = string

  datatype PullState = Complete | Failed | Cancelled | Progress(name: string)

  /** `rest` stands for the fields the page only displays. */
  datatype Status = Status(job: Job, reference: string, revision: nat, state: PullState, error: Option<string>, rest: string)

  datatype Change = Change(job: Job, revision: nat)

  predicate Terminal(state: PullState) {
    state.Complete? || state.Failed? || state.Cancelled?
  }

  const STARTING: string := "starting"
  const STARTING_TEXT: string := "Starting pull\U{2026}"
  const CANCELLED_TEXT: string := "Pull cancelled."

  // -------------------------------------------------------------- segments

  /** The component's state. `completions` lists the jobs whose completion was announced and whose
      inventory reload was asked for. */
  datatype Page = Page(pull: Option<Status>, pullRevision: nat, completedPull: Job, completions: multiset<Job>)

  const FRESH: Page := Page(None, 0, "", multiset{})

  /** The job the effect depends on; the empty string when nothing is watched. */
  function ActiveJob(p: Page): Job {
    if p.pull.Some? && !Terminal(p.pull.value.state) then p.pull.value.job else ""
  }

  function Placeholder(job: Job, reference: string): Status {
    Status(job, reference, 0, Progress(STARTING), None, STARTING_TEXT)
  }

  /** The reply of `startPull`. */
  function Started(p: Page, job: Job, reference: string): Page {
    Page(Some(Placeholder(job, reference)), 0, "", p.completions)
  }

  predicate Accepts(p: Page, disposed: bool, active: Job, status: Status, minimum: nat) {
    !disposed && status.job == active && minimum <= status.revision && p.pullRevision <= status.revision
  }

  /** `accept` */
  function Accepted(p: Page, disposed: bool, active: Job, status: Status, minimum: nat): Page {
    if !Accepts(p, disposed, active, status, minimum) then p
    else if status.state.Complete? && p.completedPull != status.job
    then Page(Some(status), status.revision, status.job, p.completions + multiset{status.job})
    else p.(pull := Some(status), pullRevision := status.revision)
  }

  /** Whether the listener reads the status after a change. */
  predicate Wanted(p: Page, disposed: bool, active: Job, change: Change) {
    !disposed && change.job == active && p.pullRevision < change.revision
  }

  /** The reply of `cancelPull`. */
  function CancelledHere(p: Page): Page {
    if p.pull.None? then p else p.(pull := Some(p.pull.value.(state := Cancelled, rest := CANCELLED_TEXT)))
  }

  /** The watch's `catch`. */
  function FailedHere(p: Page, disposed: bool, cause: string): Page {
    if disposed || p.pull.None? then p
    else p.(pull := Some(p.pull.value.(state := Failed, error := Some(cause))))
  }

  class PullPage {
    var pull: Option<Status>
    var pullRevision: nat
    var completedPull: Job
    var completions: multiset<Job>

    constructor ()
      ensures View() == FRESH
    {
      pull, pullRevision, completedPull, completions := None, 0, "", multiset{};
    }

    function View(): Page
      reads this
    {
      Page(pull, pullRevision, completedPull, completions)
    }

    method FinishStart(job: Job, requested: string)
      modifies this
      ensures View() == Started(old(View()), job, requested)
      ensures pull == Some(Status(job, requested, 0, Progress("starting"), None, "Starting pull\U{2026}"))
      ensures pullRevision == 0 && completedPull == "" && completions == old(completions)
    {
      pullRevision := 0;
      completedPull := "";
      pull := Some(Placeholder(job, requested));
    }

    method Accept(disposed: bool, active: Job, status: Status, minimum: nat)
      modifies this
      ensures View() == Accepted(old(View()), disposed, active, status, minimum)
      ensures var accepts := !disposed && status.job == active && minimum <= status.revision && old(pullRevision) <= status.revision;
              var completes := accepts && status.state == Complete && old(completedPull) != status.job;
              pull == (if accepts then Some(status) else old(pull)) &&
              pullRevision == (if accepts then status.revision else old(pullRevision)) &&
              completedPull == (if completes then status.job else old(completedPull)) &&
              completions == old(completions) + (if completes then multiset{status.job} else multiset{})
    {
      if disposed || status.job != active || status.revision < minimum || status.revision < pullRevision {
        return;
      }
      pullRevision := status.revision;
      pull := Some(status);
      if status.state.Complete? && completedPull != status.job {
        completedPull := status.job;
        completions := completions + multiset{status.job};
      }
    }

    /** The listener up to its await: the revision its read must reach, if it reads. */
    method OnChange(disposed: bool, active: Job, change: Change) returns (minimum: Option<nat>)
      ensures minimum == if Wanted(View(), disposed, active, change) then Some(change.revision) else None
      ensures minimum.Some? <==> !disposed && change.job == active && change.revision > pullRevision
    {
      if disposed || change.job != active || change.revision <= pullRevision {
        return None;
      }
      return Some(change.revision);
    }

    method FinishCancel()
      modifies this`pull
      ensures View() == CancelledHere(old(View()))
      ensures old(pull).None? ==> pull.None?
      ensures old(pull).Some? ==>
        var p := old(pull).value; pull == Some(Status(p.job, p.reference, p.revision, Cancelled, p.error, "Pull cancelled."))
    {
      if pull.Some? {
        pull := Some(pull.value.(state := Cancelled, rest := CANCELLED_TEXT));
      }
    }

    method WatchFailed(disposed: bool, cause: string)
      modifies this`pull
      ensures View() == FailedHere(old(View()), disposed, cause)
      ensures disposed || old(pull).None? ==> pull == old(pull)
      ensures !disposed && old(pull).Some? ==>
        var p := old(pull).value; pull == Some(Status(p.job, p.reference, p.revision, Failed, Some(cause), p.rest))
    {
      if !disposed && pull.Some? {
        pull := Some(pull.value.(state := Failed, error := Some(cause)));
      }
    }
  }

  // ---------------------------------------------------------------- system

  /** One run of the effect: its closure holds the job; `epoch` tells the runs apart. */
  datatype Watch = Watch(epoch: nat, job: Job)

  datatype Event = Event(watch: Watch, change: Change)

  /** A status read the host has not answered; `initial` for the one that follows the acknowledgement. */
  datatype Ask = Ask(watch: Watch, minimum: nat, initial: bool)

  datatype Reply = Reply(ask: Ask, status: Status)

  /** `last` is the status accepted last for the current job; `overridden` says that the page itself
      changed the shown state since (cancellation or failure). `answered` says that since its last change
      the host answered a read of the live watch that asked for no more, or that the page had the
      host's status when the watch began; `refused` says that the host refused a read of the live watch
      and has neither acknowledged it nor announced a change to it since. The program keeps none of these. */
  datatype System = System(
    page: Page,
    host: map<Job, Status>,
    live: Option<Watch>, epochs: nat,
    subscribing: set<Watch>, acknowledged: set<Watch>,
    events: multiset<Event>, asks: multiset<Ask>, replies: multiset<Reply>,
    last: Option<Status>, overridden: bool, answered: bool, refused: bool)

  const INITIAL: System :=
    System(FRESH, map[], None, 0, {}, {}, multiset{}, multiset{}, multiset{}, None, false, false, false)

  predicate Disposed(s: System, w: Watch) {
    s.live != Some(w)
  }

  datatype Action =
    | Start(first: Status, requested: string)
    | Mount
    | Unmount
    | Acknowledge(watch: Watch)
    | Refuse(watch: Watch, cause: string)
    | HostChange(status: Status, receivers: set<Watch>)
    | Announce(event: Event)
    | Coalesce(older: Event, newer: Event)
    | DeliverEvent(event: Event)
    | Answer(ask: Ask)
    | DeliverReply(reply: Reply)
    | Reject(ask: Ask, cause: string)
    | FinishCancel

  /** What each step needs. `Start` needs the enabled button (no watch runs and the shown pull has
      ended) and a job the host never used before; `HostChange` needs a pull that has not ended and a
      higher revision, and reaches at least the acknowledged live watch. */
  predicate Enabled(s: System, a: Action) {
    match a
    case Start(first, _) =>
      s.live.None? && ActiveJob(s.page) == "" && first.job !in s.host && first.job != "" &&
      (s.page.pull.Some? ==> Terminal(s.page.pull.value.state))
    case Mount => s.live.None? && ActiveJob(s.page) != ""
    case Unmount => s.live.Some?
    case Acknowledge(w) => w in s.subscribing
    case Refuse(w, _) => w in s.subscribing
    case HostChange(status, receivers) =>
      status.job in s.host && !Terminal(s.host[status.job].state) && s.host[status.job].revision < status.revision &&
      receivers <= s.subscribing + s.acknowledged &&
      (s.live.Some? && s.live.value in s.acknowledged ==> s.live.value in receivers)
    case Announce(e) =>
      e.watch in s.subscribing + s.acknowledged && e.change.job in s.host &&
      e.change.revision <= s.host[e.change.job].revision
    case Coalesce(e, f) =>
      e in s.events && f in s.events - multiset{e} && e.watch == f.watch &&
      e.change.job == f.change.job && e.change.revision <= f.change.revision
    case DeliverEvent(e) => e in s.events
    case Answer(k) => k in s.asks && k.watch.job in s.host
    case DeliverReply(r) => r in s.replies
    case Reject(k, _) => k in s.asks
    case FinishCancel => true
  }

  function Emitted(status: Status, receivers: set<Watch>): multiset<Event> {
    multiset(set w | w in receivers :: Event(w, Change(status.job, status.revision)))
  }

  function Next(s: System, a: Action): System
    requires Enabled(s, a)
  {
    match a
    case Start(first, requested) =>
      s.(page := Started(s.page, first.job, requested), host := s.host[first.job := first],
         last := None, overridden := false)
    case Mount =>
      var w := Watch(s.epochs, ActiveJob(s.page));
      s.(live := Some(w), epochs := s.epochs + 1, subscribing := s.subscribing + {w}, refused := false,
        answered := w.job in s.host && s.last == Some(s.host[w.job]))
    case Unmount => s.(live := None)
    case Acknowledge(w) =>
      if Disposed(s, w) then s.(subscribing := s.subscribing - {w})
      else s.(subscribing := s.subscribing - {w}, acknowledged := s.acknowledged + {w},
              asks := s.asks + multiset{Ask(w, 0, true)}, refused := false)
    case Refuse(w, cause) =>
      s.(subscribing := s.subscribing - {w}, page := FailedHere(s.page, Disposed(s, w), cause),
         overridden := s.overridden || !Disposed(s, w))
    case HostChange(status, receivers) =>
      s.(host := s.host[status.job := status], events := s.events + Emitted(status, receivers),
         answered := s.answered && !(s.live.Some? && s.live.value.job == status.job),
         refused := s.refused && !(s.live.Some? && s.live.value.job == status.job && s.live.value in receivers))
    case Announce(e) => s.(events := s.events + multiset{e})
    case Coalesce(e, _) => s.(events := s.events - multiset{e})
    case DeliverEvent(e) =>
      s.(events := s.events - multiset{e},
         asks := if Wanted(s.page, Disposed(s, e.watch), e.watch.job, e.change)
                 then s.asks + multiset{Ask(e.watch, e.change.revision, false)} else s.asks)
    case Answer(k) =>
      s.(asks := s.asks - multiset{k}, replies := s.replies + multiset{Reply(k, s.host[k.watch.job])},
         answered := s.answered || (!Disposed(s, k.watch) && k.minimum <= s.host[k.watch.job].revision))
    case DeliverReply(r) =>
      var accepts := Accepts(s.page, Disposed(s, r.ask.watch), r.ask.watch.job, r.status, r.ask.minimum);
      s.(replies := s.replies - multiset{r},
         page := Accepted(s.page, Disposed(s, r.ask.watch), r.ask.watch.job, r.status, r.ask.minimum),
         last := if accepts then Some(r.status) else s.last,
         overridden := s.overridden && !accepts)
    case Reject(k, cause) =>
      s.(asks := s.asks - multiset{k}, refused := s.refused || !Disposed(s, k.watch),
         page := if k.initial then FailedHere(s.page, Disposed(s, k.watch), cause) else s.page,
         overridden := s.overridden || (k.initial && !Disposed(s, k.watch)))
    case FinishCancel => s.(page := CancelledHere(s.page), overridden := s.overridden || s.page.pull.Some?)
  }

  // ------------------------------------------------------------- invariant

  /** A new run of the effect is not one that was acknowledged before. */
  predicate EpochsUsed(s: System) {
    (s.live.Some? ==> s.live.value.epoch < s.epochs) &&
    (forall w :: w in s.acknowledged ==> w.epoch < s.epochs)
  }

  /** `status` was the host's status at some time up to `now`. */
  predicate Past(status: Status, now: Status) {
    status.job == now.job && status.revision <= now.revision &&
    (status.revision == now.revision || Terminal(status.state) ==> status == now)
  }

  ghost predicate HostNamed(s: System) {
    forall j :: j in s.host ==> s.host[j].job == j
  }

  predicate ReplyPast(s: System, r: Reply) {
    r.ask.watch.job in s.host && Past(r.status, s.host[r.ask.watch.job])
  }

  ghost predicate RepliesPast(s: System) {
    forall r :: r in s.replies ==> ReplyPast(s, r)
  }

  predicate EventPast(s: System, e: Event) {
    e.change.job in s.host && e.change.revision <= s.host[e.change.job].revision
  }

  ghost predicate EventsPast(s: System) {
    forall e :: e in s.events ==> EventPast(s, e)
  }

  /** What the page shows of its job. */
  predicate ShownSound(s: System) {
    if s.page.pull.None? then s.live.None? && s.last.None?
    else
      var p := s.page.pull.value;
      p.job in s.host && p.job != "" && p.revision == s.page.pullRevision &&
      (s.live.Some? ==> s.live.value.job == p.job) &&
      (s.last.Some? ==> Past(s.last.value, s.host[p.job]) && s.last.value.revision == p.revision) &&
      (s.last.None? ==> p.revision == 0) &&
      (!s.overridden ==> if s.last.Some? then p == s.last.value else !Terminal(p.state))
  }

  ghost predicate Announced(s: System) {
    (forall j :: s.page.completions[j] <= 1) &&
    (forall j :: j in s.page.completions ==> j in s.host && s.host[j].state.Complete?) &&
    (s.page.pull.Some? ==> (s.page.pull.value.job in s.page.completions <==> s.page.completedPull == s.page.pull.value.job)) &&
    (s.last.Some? && s.last.value.state.Complete? ==> s.last.value.job in s.page.completions)
  }

  predicate AskCarries(k: Ask, w: Watch, now: Status) {
    k.watch == w && k.minimum <= now.revision
  }

  /** The host's current status has been accepted, or something in flight will bring it. */
  ghost predicate Carries(s: System, w: Watch, now: Status) {
    s.last == Some(now) ||
    (now.revision > 0 && Event(w, Change(w.job, now.revision)) in s.events) ||
    (exists k :: k in s.asks && AskCarries(k, w, now)) ||
    (exists r :: r in s.replies && r.status == now && AskCarries(r.ask, w, now))
  }

  ghost predicate Carried(s: System) {
    s.live.Some? && s.live.value in s.acknowledged && s.live.value.job in s.host && !s.refused ==>
      Carries(s, s.live.value, s.host[s.live.value.job])
  }

  /** The page has accepted the host's current status, or an answered read will make it. */
  ghost predicate Served(s: System, w: Watch, now: Status) {
    s.last == Some(now) || exists r :: r in s.replies && r.status == now && AskCarries(r.ask, w, now)
  }

  ghost predicate AnsweredExactly(s: System) {
    s.live.Some? && s.live.value.job in s.host ==>
      (s.answered <==> Served(s, s.live.value, s.host[s.live.value.job]))
  }

  /** No read in flight belongs to a later run of the effect. */
  ghost predicate ReadsOld(s: System) {
    (forall k :: k in s.asks ==> k.watch.epoch < s.epochs) &&
    (forall r :: r in s.replies ==> r.ask.watch.epoch < s.epochs)
  }

  ghost predicate Inv(s: System) {
    Sound(s) && Carried(s) && ReadsOld(s) && AnsweredExactly(s)
  }

  lemma InitialInv()
    ensures Inv(INITIAL)
  {
  }

  ghost predicate Sound(s: System) {
    EpochsUsed(s) && HostNamed(s) && RepliesPast(s) && EventsPast(s) && ShownSound(s) && Announced(s)
  }

  lemma StartShows(s: System, first: Status, requested: string)
    requires Enabled(s, Start(first, requested))
    ensures ShownSound(Next(s, Start(first, requested)))
  {
  }

  lemma StartAnnounces(s: System, first: Status, requested: string)
    requires Announced(s) && Enabled(s, Start(first, requested))
    ensures Announced(Next(s, Start(first, requested)))
  {
    assert first.job !in s.page.completions;
  }

  lemma StartNames(s: System, first: Status, requested: string)
    requires EpochsUsed(s) && HostNamed(s) && Enabled(s, Start(first, requested))
    ensures EpochsUsed(Next(s, Start(first, requested))) && HostNamed(Next(s, Start(first, requested)))
  {
  }

  /** A new job changes nothing for the old ones. */
  lemma InFlightStaysPast(s: System, t: System)
    requires RepliesPast(s) && EventsPast(s) && t.replies == s.replies && t.events == s.events
    requires forall j :: j in s.host ==> j in t.host && t.host[j] == s.host[j]
    ensures RepliesPast(t) && EventsPast(t)
  {
    forall r | r in t.replies
      ensures ReplyPast(t, r)
    {
      assert ReplyPast(s, r);
    }
    forall e | e in t.events
      ensures EventPast(t, e)
    {
      assert EventPast(s, e);
    }
  }

  lemma StartKeeps(s: System, first: Status, requested: string)
    requires Sound(s) && Enabled(s, Start(first, requested))
    ensures Sound(Next(s, Start(first, requested)))
  {
    StartNames(s, first, requested);
    StartShows(s, first, requested);
    StartAnnounces(s, first, requested);
    InFlightStaysPast(s, Next(s, Start(first, requested)));
  }

  lemma MountKeeps(s: System)
    requires Sound(s) && Enabled(s, Mount)
    ensures Sound(Next(s, Mount))
  {
    FrameKeeps(s, Next(s, Mount));
  }

  lemma AcknowledgeEpochs(s: System, w: Watch)
    requires EpochsUsed(s) && ShownSound(s) && Enabled(s, Acknowledge(w))
    ensures EpochsUsed(Next(s, Acknowledge(w))) && ShownSound(Next(s, Acknowledge(w)))
  {
  }

  lemma AcknowledgeFrame(s: System, w: Watch)
    requires Enabled(s, Acknowledge(w))
    ensures var t := Next(s, Acknowledge(w));
            t.page == s.page && t.host == s.host && t.last == s.last && t.events == s.events && t.replies == s.replies
  {
  }

  lemma AcknowledgeKeeps(s: System, w: Watch)
    requires Sound(s) && Enabled(s, Acknowledge(w))
    ensures Sound(Next(s, Acknowledge(w)))
  {
    AcknowledgeEpochs(s, w);
    AcknowledgeFrame(s, w);
    FrameKeeps(s, Next(s, Acknowledge(w)));
  }

  lemma ChangeStaysPast(s: System, status: Status, receivers: set<Watch>)
    requires HostNamed(s) && RepliesPast(s) && EventsPast(s) && Enabled(s, HostChange(status, receivers))
    ensures var t := Next(s, HostChange(status, receivers)); RepliesPast(t) && EventsPast(t)
  {
    var t := Next(s, HostChange(status, receivers));
    forall r | r in t.replies
      ensures ReplyPast(t, r)
    {
      assert ReplyPast(s, r);
    }
    forall e | e in t.events
      ensures EventPast(t, e)
    {
      if e in s.events {
        assert EventPast(s, e);
      }
    }
  }

  lemma ChangeShows(s: System, status: Status, receivers: set<Watch>)
    requires HostNamed(s) && ShownSound(s) && Announced(s) && Enabled(s, HostChange(status, receivers))
    ensures var t := Next(s, HostChange(status, receivers)); ShownSound(t) && Announced(t)
  {
  }

  lemma ChangeNames(s: System, status: Status, receivers: set<Watch>)
    requires EpochsUsed(s) && HostNamed(s) && Enabled(s, HostChange(status, receivers))
    ensures var t := Next(s, HostChange(status, receivers)); EpochsUsed(t) && HostNamed(t)
  {
  }

  lemma ChangeKeeps(s: System, status: Status, receivers: set<Watch>)
    requires Sound(s) && Enabled(s, HostChange(status, receivers))
    ensures Sound(Next(s, HostChange(status, receivers)))
  {
    ChangeNames(s, status, receivers);
    ChangeStaysPast(s, status, receivers);
    ChangeShows(s, status, receivers);
  }

  lemma DeliverEventKeeps(s: System, e: Event)
    requires Sound(s) && Enabled(s, DeliverEvent(e))
    ensures Sound(Next(s, DeliverEvent(e)))
  {
    FrameKeeps(s, Next(s, DeliverEvent(e)));
  }

  lemma AnswerKeeps(s: System, k: Ask)
    requires Sound(s) && Enabled(s, Answer(k))
    ensures Sound(Next(s, Answer(k)))
  {
    FrameKeeps(s, Next(s, Answer(k)));
  }

  lemma DeliverReplyKeeps(s: System, r: Reply)
    requires Sound(s) && Enabled(s, DeliverReply(r))
    ensures Sound(Next(s, DeliverReply(r)))
  {
    var t := Next(s, DeliverReply(r));
    if Accepts(s.page, Disposed(s, r.ask.watch), r.ask.watch.job, r.status, r.ask.minimum) {
      AcceptShows(s, r);
      AcceptAnnounces(s, r);
      AcceptStaysPast(s, r);
    } else {
      FrameKeeps(s, t);
    }
  }

  lemma AcceptStaysPast(s: System, r: Reply)
    requires EpochsUsed(s) && HostNamed(s) && RepliesPast(s) && EventsPast(s) && r in s.replies
    ensures var t := Next(s, DeliverReply(r)); EpochsUsed(t) && HostNamed(t) && RepliesPast(t) && EventsPast(t)
  {
    var t := Next(s, DeliverReply(r));
    assert t.host == s.host && t.events == s.events && t.live == s.live;
    forall q | q in t.replies
      ensures ReplyPast(t, q)
    {
      assert q in s.replies && ReplyPast(s, q);
    }
    forall e | e in t.events
      ensures EventPast(t, e)
    {
      assert EventPast(s, e);
    }
  }

  lemma AcceptShows(s: System, r: Reply)
    requires Sound(s) && r in s.replies
    requires Accepts(s.page, Disposed(s, r.ask.watch), r.ask.watch.job, r.status, r.ask.minimum)
    ensures ShownSound(Next(s, DeliverReply(r)))
  {
    assert ReplyPast(s, r);
  }

  lemma AcceptAnnounces(s: System, r: Reply)
    requires Sound(s) && r in s.replies
    requires Accepts(s.page, Disposed(s, r.ask.watch), r.ask.watch.job, r.status, r.ask.minimum)
    ensures Announced(Next(s, DeliverReply(r)))
  {
    assert ReplyPast(s, r);
  }

  /** A step that leaves the host, the acceptances and the announcements alone. */
  lemma FrameKeeps(s: System, t: System)
    requires Sound(s) && EpochsUsed(t) && ShownSound(t)
    requires t.host == s.host && t.last == s.last && t.page.completions == s.page.completions
    requires t.page.completedPull == s.page.completedPull
    requires t.page.pull.Some? ==> s.page.pull.Some? && t.page.pull.value.job == s.page.pull.value.job
    requires forall e :: e in t.events ==> e in s.events || EventPast(t, e)
    requires forall r :: r in t.replies ==> r in s.replies || ReplyPast(t, r)
    ensures Sound(t)
  {
    forall r | r in t.replies
      ensures ReplyPast(t, r)
    {
      if r in s.replies {
        assert ReplyPast(s, r);
      }
    }
    forall e | e in t.events
      ensures EventPast(t, e)
    {
      if e in s.events {
        assert EventPast(s, e);
      }
    }
  }

  lemma RejectKeeps(s: System, k: Ask, cause: string)
    requires Sound(s) && Enabled(s, Reject(k, cause))
    ensures Sound(Next(s, Reject(k, cause)))
  {
    FrameKeeps(s, Next(s, Reject(k, cause)));
  }

  lemma RefuseKeeps(s: System, w: Watch, cause: string)
    requires Sound(s) && Enabled(s, Refuse(w, cause))
    ensures Sound(Next(s, Refuse(w, cause)))
  {
    FrameKeeps(s, Next(s, Refuse(w, cause)));
  }

  lemma CancelKeeps(s: System)
    requires Sound(s)
    ensures Sound(Next(s, FinishCancel))
  {
    FrameKeeps(s, Next(s, FinishCancel));
  }

  lemma AnnounceKeeps(s: System, e: Event)
    requires Sound(s) && Enabled(s, Announce(e))
    ensures Sound(Next(s, Announce(e)))
  {
    FrameKeeps(s, Next(s, Announce(e)));
  }

  lemma CoalesceKeeps(s: System, e: Event, f: Event)
    requires Sound(s) && Enabled(s, Coalesce(e, f))
    ensures Sound(Next(s, Coalesce(e, f)))
  {
    FrameKeeps(s, Next(s, Coalesce(e, f)));
  }

  lemma StepKeepsSound(s: System, a: Action)
    requires Sound(s) && Enabled(s, a)
    ensures Sound(Next(s, a))
  {
    match a
    case Start(first, requested) => StartKeeps(s, first, requested);
    case Mount => MountKeeps(s);
    case Unmount => FrameKeeps(s, Next(s, a));
    case Acknowledge(w) => AcknowledgeKeeps(s, w);
    case Refuse(w, cause) => RefuseKeeps(s, w, cause);
    case HostChange(status, receivers) => ChangeKeeps(s, status, receivers);
    case Announce(e) => AnnounceKeeps(s, e);
    case Coalesce(e, f) => CoalesceKeeps(s, e, f);
    case DeliverEvent(e) => DeliverEventKeeps(s, e);
    case Answer(k) => AnswerKeeps(s, k);
    case DeliverReply(r) => DeliverReplyKeeps(s, r);
    case Reject(k, cause) => RejectKeeps(s, k, cause);
    case FinishCancel => CancelKeeps(s);
  }

  predicate Watching(s: System) {
    s.live.Some? && s.live.value in s.acknowledged && s.live.value.job in s.host && !s.refused
  }

  lemma CarriedReply(s: System, r: Reply)
    requires Sound(s) && Carried(s) && r in s.replies && Watching(s)
    ensures Carried(Next(s, DeliverReply(r)))
  {
    var w, t := s.live.value, Next(s, DeliverReply(r));
    var now := s.host[w.job];
    assert ReplyPast(s, r);
    assert Carries(s, w, now);
    if q :| q in s.replies && q.status == now && AskCarries(q.ask, w, now) {
      assert q == r || q in t.replies;
    } else if k :| k in s.asks && AskCarries(k, w, now) {
      assert k in t.asks;
    }
  }

  lemma EventCarries(s: System, e: Event, now: Status)
    requires s.live == Some(e.watch) && e.change == Change(e.watch.job, now.revision) && e in s.events
    requires s.page.pullRevision < now.revision
    ensures Carries(Next(s, DeliverEvent(e)), e.watch, now)
  {
    var k := Ask(e.watch, now.revision, false);
    assert k in Next(s, DeliverEvent(e)).asks && AskCarries(k, e.watch, now);
  }

  lemma EventFrame(s: System, e: Event)
    requires e in s.events
    ensures var t := Next(s, DeliverEvent(e));
            t.live == s.live && t.host == s.host && t.last == s.last && t.replies == s.replies &&
            (forall k :: k in s.asks ==> k in t.asks) && (forall f :: f in s.events && f != e ==> f in t.events)
  {
  }

  lemma CarriedEvent(s: System, e: Event)
    requires Sound(s) && Carried(s) && e in s.events && Watching(s)
    ensures Carried(Next(s, DeliverEvent(e)))
  {
    var w, t := s.live.value, Next(s, DeliverEvent(e));
    var now := s.host[w.job];
    EventFrame(s, e);
    if e == Event(w, Change(w.job, now.revision)) && s.page.pullRevision < now.revision {
      EventCarries(s, e, now);
    } else {
      CarriedElse(s, t, e);
    }
  }

  /** Without the event, the status was accepted or is carried by something else. */
  lemma CarriedElse(s: System, t: System, e: Event)
    requires Sound(s) && Carried(s) && Watching(s) && t.live == s.live && t.host == s.host && t.last == s.last
    requires t.replies == s.replies && forall k :: k in s.asks ==> k in t.asks
    requires forall f :: f in s.events && f != e ==> f in t.events
    requires var now := s.host[s.live.value.job];
             e == Event(s.live.value, Change(now.job, now.revision)) ==> now.revision <= s.page.pullRevision
    ensures Carried(t)
  {
    var w := s.live.value;
    var now := s.host[w.job];
    assert Carries(s, w, now);
    if q :| q in s.replies && q.status == now && AskCarries(q.ask, w, now) {
      assert q in t.replies;
    } else if k :| k in s.asks && AskCarries(k, w, now) {
      assert k in t.asks;
    }
  }

  lemma CarriedChange(s: System, status: Status, receivers: set<Watch>)
    requires Sound(s) && Carried(s) && Enabled(s, HostChange(status, receivers))
    ensures Carried(Next(s, HostChange(status, receivers)))
  {
    var t := Next(s, HostChange(status, receivers));
    if Watching(t) {
      var w := s.live.value;
      if status.job == w.job {
        assert Event(w, Change(w.job, status.revision)) in Emitted(status, receivers);
        assert Event(w, Change(w.job, status.revision)) in t.events;
      } else {
        CarriedSame(s, t);
      }
    }
  }

  lemma CarriedAnswer(s: System, k: Ask)
    requires Sound(s) && Carried(s) && Enabled(s, Answer(k)) && Watching(s)
    ensures Carried(Next(s, Answer(k)))
  {
    var w, t := s.live.value, Next(s, Answer(k));
    var now := s.host[w.job];
    assert Carries(s, w, now);
    if q :| q in s.replies && q.status == now && AskCarries(q.ask, w, now) {
      assert q in t.replies;
    } else if h :| h in s.asks && AskCarries(h, w, now) {
      if h == k {
        assert Reply(k, now) in t.replies && AskCarries(Reply(k, now).ask, w, now);
      } else {
        assert h in t.asks;
      }
    }
  }

  lemma CarriedAcknowledge(s: System, v: Watch)
    requires Sound(s) && Carried(s) && v in s.subscribing
    ensures Carried(Next(s, Acknowledge(v)))
  {
    var t := Next(s, Acknowledge(v));
    if s.live == Some(v) {
      var w := v;
      assert Ask(w, 0, true) in t.asks && AskCarries(Ask(w, 0, true), w, s.host[w.job]);
    } else if Watching(s) {
      CarriedSame(s, t);
    }
  }

  lemma CarriedCoalesce(s: System, e: Event, f: Event)
    requires Sound(s) && Carried(s) && Enabled(s, Coalesce(e, f)) && Watching(s)
    ensures Carried(Next(s, Coalesce(e, f)))
  {
    var w, t := s.live.value, Next(s, Coalesce(e, f));
    var now := s.host[w.job];
    assert EventPast(s, f);
    assert f in t.events;
    var carrier := Event(w, Change(w.job, now.revision));
    assert carrier in s.events ==> e == f == carrier || carrier in t.events;
    if q :| q in s.replies && q.status == now && AskCarries(q.ask, w, now) {
      assert q in t.replies;
    } else if k :| k in s.asks && AskCarries(k, w, now) {
      assert k in t.asks;
    }
  }

  /** A step that takes nothing away from what is in flight. */
  lemma CarriedSame(s: System, t: System)
    requires Carried(s) && Watching(s) && t.live == s.live && s.live.value.job in t.host
    requires t.host[s.live.value.job] == s.host[s.live.value.job] && t.last == s.last
    requires forall e :: e in s.events ==> e in t.events
    requires forall k :: k in s.asks ==> k in t.asks
    requires forall r :: r in s.replies ==> r in t.replies
    ensures Carried(t)
  {
    var w := s.live.value;
    var now := s.host[w.job];
    assert Carries(s, w, now);
    if q :| q in s.replies && q.status == now && AskCarries(q.ask, w, now) {
      assert q in t.replies;
    } else if k :| k in s.asks && AskCarries(k, w, now) {
      assert k in t.asks;
    }
  }

  /** A refused read of another watch. */
  lemma CarriedReject(s: System, k: Ask, cause: string)
    requires Sound(s) && Carried(s) && k in s.asks && Watching(s) && Disposed(s, k.watch)
    ensures Carried(Next(s, Reject(k, cause)))
  {
    var w, t := s.live.value, Next(s, Reject(k, cause));
    var now := s.host[w.job];
    if q :| q in s.replies && q.status == now && AskCarries(q.ask, w, now) {
      assert q in t.replies;
    } else if h :| h in s.asks && AskCarries(h, w, now) {
      assert h in t.asks;
    }
  }

  /** A step that only adds in flight or changes what the page shows. */
  lemma CarriedOther(s: System, a: Action)
    requires Enabled(s, a) && Sound(s) && Carried(s) && (a.Announce? || a.Refuse? || a.FinishCancel?)
    ensures Carried(Next(s, a))
  {
    if Watching(s) {
      CarriedSame(s, Next(s, a));
    }
  }

  /** Nothing in flight has to carry anything for a watch that is not acknowledged. */
  lemma CarriedVacuously(s: System, a: Action)
    requires Enabled(s, a) && Sound(s) && Carried(s) && (a.Start? || a.Mount? || a.Unmount?)
    ensures Carried(Next(s, a))
  {
  }

  lemma WatchingBefore(s: System, a: Action)
    requires Enabled(s, a) && Sound(s) && Carried(s) && Watching(Next(s, a))
    requires a.Coalesce? || a.Reject?
    ensures Watching(s) && (a.Reject? ==> Disposed(s, a.ask.watch))
  {
  }

  lemma CarriedDelivery(s: System, a: Action)
    requires Enabled(s, a) && Sound(s) && Carried(s) && (a.Answer? || a.DeliverEvent? || a.DeliverReply?)
    ensures Carried(Next(s, a))
  {
    if Watching(s) {
      match a
      case DeliverReply(r) => CarriedReply(s, r);
      case DeliverEvent(e) => CarriedEvent(s, e);
      case Answer(k) => CarriedAnswer(s, k);
    }
  }

  lemma CarriedRemoval(s: System, a: Action)
    requires Enabled(s, a) && Sound(s) && Carried(s) && (a.Coalesce? || a.Reject?)
    ensures Carried(Next(s, a))
  {
    if Watching(Next(s, a)) {
      WatchingBefore(s, a);
      match a
      case Coalesce(e, f) => CarriedCoalesce(s, e, f);
      case Reject(k, cause) => CarriedReject(s, k, cause);
    }
  }

  lemma KeepsCarried(s: System, a: Action)
    requires Enabled(s, a) && Sound(s) && Carried(s)
    ensures Carried(Next(s, a))
  {
    if a.Start? || a.Mount? || a.Unmount? {
      CarriedVacuously(s, a);
    } else if a.Announce? || a.Refuse? || a.FinishCancel? {
      CarriedOther(s, a);
    } else if a.HostChange? {
      CarriedChange(s, a.status, a.receivers);
    } else if a.Acknowledge? {
      CarriedAcknowledge(s, a.watch);
    } else if a.Coalesce? || a.Reject? {
      CarriedRemoval(s, a);
    } else {
      CarriedDelivery(s, a);
    }
  }

  // ---------------------------------------------------------- what is served

  lemma KeepsReadsOld(s: System, a: Action)
    requires Enabled(s, a) && EpochsUsed(s) && ReadsOld(s)
    ensures ReadsOld(Next(s, a))
  {
    match a
    case Acknowledge(w) => AcknowledgeReadsOld(s, w);
    case DeliverEvent(e) => DeliverEventReadsOld(s, e);
    case Answer(k) => assert Next(s, a).replies == s.replies + multiset{Reply(k, s.host[k.watch.job])};
    case _ =>
  }

  lemma AcknowledgeReadsOld(s: System, w: Watch)
    requires Enabled(s, Acknowledge(w)) && EpochsUsed(s) && ReadsOld(s)
    ensures ReadsOld(Next(s, Acknowledge(w)))
  {
  }

  lemma DeliverEventReadsOld(s: System, e: Event)
    requires Enabled(s, DeliverEvent(e)) && EpochsUsed(s) && ReadsOld(s)
    ensures ReadsOld(Next(s, DeliverEvent(e)))
  {
  }

  /** Steps that touch neither the answers nor what was accepted. */
  lemma ServedSame(s: System, t: System)
    requires AnsweredExactly(s) && t.answered == s.answered && t.live == s.live && t.last == s.last
    requires t.replies == s.replies
    requires s.live.Some? && s.live.value.job in t.host ==>
               s.live.value.job in s.host && t.host[s.live.value.job] == s.host[s.live.value.job]
    ensures AnsweredExactly(t)
  {
    if t.live.Some? && t.live.value.job in t.host {
      assert Served(t, t.live.value, t.host[t.live.value.job]) <==> Served(s, s.live.value, s.host[s.live.value.job]);
    }
  }

  /** A change is new to the page and to every answer on its way. */
  lemma ServedChange(s: System, status: Status, receivers: set<Watch>)
    requires Sound(s) && AnsweredExactly(s) && Enabled(s, HostChange(status, receivers))
    ensures AnsweredExactly(Next(s, HostChange(status, receivers)))
  {
    var t := Next(s, HostChange(status, receivers));
    if s.live.Some? {
      var w := s.live.value;
      if w.job == status.job {
        forall r | r in t.replies && AskCarries(r.ask, w, status)
          ensures r.status != status
        {
          assert ReplyPast(s, r);
        }
        assert t.last != Some(status);
        assert !Served(t, w, status);
      } else {
        ServedSame(s, t);
      }
    }
  }

  lemma ServedAnswer(s: System, k: Ask)
    requires Sound(s) && AnsweredExactly(s) && Enabled(s, Answer(k))
    ensures AnsweredExactly(Next(s, Answer(k)))
  {
    var t := Next(s, Answer(k));
    if s.live.Some? {
      var w := s.live.value;
      var now := s.host[w.job];
      var reply := Reply(k, s.host[k.watch.job]);
      assert t.replies == s.replies + multiset{reply};
      assert reply in t.replies;
      if AskCarries(k, w, now) {
        assert reply.status == now;
        assert Served(t, w, now);
      } else {
        assert forall r :: r in t.replies && AskCarries(r.ask, w, now) ==> r in s.replies;
        assert forall r :: r in s.replies ==> r in t.replies;
        assert Served(t, w, now) <==> Served(s, w, now);
      }
    }
  }

  lemma ServedReply(s: System, r: Reply)
    requires Sound(s) && AnsweredExactly(s) && r in s.replies
    ensures AnsweredExactly(Next(s, DeliverReply(r)))
  {
    var t := Next(s, DeliverReply(r));
    if s.live.Some? {
      var w := s.live.value;
      var now := s.host[w.job];
      assert ReplyPast(s, r);
      if r.status == now && AskCarries(r.ask, w, now) {
        assert t.last == Some(now) && Served(s, w, now) && Served(t, w, now);
      } else {
        assert (t.last == Some(now)) == (s.last == Some(now));
        assert forall q :: q in s.replies && q != r ==> q in t.replies;
        assert forall q :: q in t.replies ==> q in s.replies;
        assert Served(t, w, now) <==> Served(s, w, now);
      }
    }
  }

  /** A new run of the effect has no answers yet. */
  lemma ServedMount(s: System)
    requires Sound(s) && ReadsOld(s) && Enabled(s, Mount)
    ensures AnsweredExactly(Next(s, Mount))
  {
    var t := Next(s, Mount);
    var w := t.live.value;
    assert forall r :: r in t.replies ==> r.ask.watch != w;
    if w.job in t.host {
      assert Served(t, w, t.host[w.job]) <==> t.last == Some(t.host[w.job]);
    }
  }

  lemma ServedAcknowledge(s: System, w: Watch)
    requires AnsweredExactly(s) && Enabled(s, Acknowledge(w))
    ensures AnsweredExactly(Next(s, Acknowledge(w)))
  {
    ServedSame(s, Next(s, Acknowledge(w)));
  }

  lemma ServedOther(s: System, a: Action)
    requires AnsweredExactly(s) && Enabled(s, a)
    requires a.Refuse? || a.Announce? || a.Coalesce? || a.DeliverEvent? || a.Reject? || a.FinishCancel?
    ensures AnsweredExactly(Next(s, a))
  {
    ServedSame(s, Next(s, a));
  }

  lemma KeepsAnsweredExactly(s: System, a: Action)
    requires Enabled(s, a) && Sound(s) && ReadsOld(s) && AnsweredExactly(s)
    ensures AnsweredExactly(Next(s, a))
  {
    match a
    case Mount => ServedMount(s);
    case HostChange(status, receivers) => ServedChange(s, status, receivers);
    case Answer(k) => ServedAnswer(s, k);
    case DeliverReply(r) => ServedReply(s, r);
    case Acknowledge(w) => ServedAcknowledge(s, w);
    case Start(_, _) =>
    case Unmount =>
    case _ => ServedOther(s, a);
  }

  lemma StepKeepsInv(s: System, a: Action)
    requires Enabled(s, a) && Inv(s)
    ensures Inv(Next(s, a))
  {
    StepKeepsSound(s, a);
    KeepsCarried(s, a);
    KeepsReadsOld(s, a);
    KeepsAnsweredExactly(s, a);
  }

  // ------------------------------------------------------------------ runs

  ghost predicate Allowed(s: System, run: seq<Action>)
    decreases |run|
  {
    run == [] || (Enabled(s, run[0]) && Allowed(Next(s, run[0]), run[1..]))
  }

  ghost function After(s: System, run: seq<Action>): System
    requires Allowed(s, run)
    decreases |run|
  {
    if run == [] then s else After(Next(s, run[0]), run[1..])
  }

  lemma {:induction false} RunKeepsInv(s: System, run: seq<Action>)
    requires Inv(s) && Allowed(s, run)
    ensures Inv(After(s, run))
    decreases |run|
  {
    if run != [] {
      StepKeepsInv(s, run[0]);
      RunKeepsInv(Next(s, run[0]), run[1..]);
    }
  }

  /** The live watch is acknowledged and nothing of it is in flight; in particular the read that
      followed the acknowledgement is done. */
  ghost predicate Quiet(s: System) {
    s.live.Some? && s.live.value in s.acknowledged &&
    (forall e :: e in s.events ==> e.watch != s.live.value) &&
    (forall k :: k in s.asks ==> k.watch != s.live.value) &&
    (forall r :: r in s.replies ==> r.ask.watch != s.live.value)
  }

  /** The host refused a read since it last spoke to the live watch, answered none since its last change,
      and the page did not have its status when the watch began either. */
  predicate Lost(s: System) {
    s.refused && !s.answered
  }

  /** What a quiet state means, from any state of the invariant. */
  lemma QuietMeans(s: System)
    requires Inv(s) && Quiet(s)
    ensures var job := s.live.value.job;
            job in s.host && (s.last == Some(s.host[job]) <==> !Lost(s))
  {
    var w := s.live.value;
    if !s.refused {
      assert Carries(s, w, s.host[w.job]);
    }
    assert Served(s, w, s.host[w.job]) <==> s.last == Some(s.host[w.job]);
  }

  /** In every interleaving: once nothing is in flight, the page has accepted the host's current status
      if and only if the host did not withhold it: it answered a read of the watch since its last
      change, the page already had the status when the watch began, or no read was refused. The page then shows that status, unless it put a cancellation or a failure over it,
      and a completion has been announced exactly once; otherwise it has accepted an older one or none. */
  lemma QuietShowsHost(run: seq<Action>)
    requires Allowed(INITIAL, run) && Quiet(After(INITIAL, run))
    ensures var s := After(INITIAL, run);
            var job := s.live.value.job;
            job in s.host && s.page.pull.Some? && s.page.pull.value.job == job &&
            (s.last == Some(s.host[job]) <==> !Lost(s)) &&
            (!s.overridden && s.last.Some? ==> (s.page.pull == Some(s.host[job]) <==> !Lost(s))) &&
            (!Lost(s) ==> s.page.pullRevision == s.host[job].revision) &&
            (!Lost(s) && s.host[job].state.Complete? ==> s.page.completions[job] == 1)
  {
    InitialInv();
    RunKeepsInv(INITIAL, run);
    QuietMeans(After(INITIAL, run));
  }

  /** Also after the watch is gone: an end the page shows is the host's unless the page put it there,
      no job is announced twice, and only jobs the host completed are announced. */
  lemma EndsAreTrue(run: seq<Action>, job: Job)
    requires Allowed(INITIAL, run)
    ensures var s := After(INITIAL, run);
            (s.page.pull.Some? && Terminal(s.page.pull.value.state) && !s.overridden ==>
               s.page.pull.value.job in s.host && s.page.pull.value == s.host[s.page.pull.value.job]) &&
            s.page.completions[job] <= 1 &&
            (job in s.page.completions ==> job in s.host && s.host[job].state.Complete?)
  {
    InitialInv();
    RunKeepsInv(INITIAL, run);
  }

  // ---------------------------------------------------- what the page writes

  /** What is shown beside the last accepted status, or beside the placeholder of the start: the same
      job, reference and revision, and, where the page wrote itself, only a cancellation or a failure. */
  predicate PageWrites(s: System) {
    s.page.pull.Some? ==>
      var p := s.page.pull.value;
      (s.last.Some? ==> p.job == s.last.value.job && p.reference == s.last.value.reference) &&
      (s.last.None? && !s.overridden ==> p == Status(p.job, p.reference, 0, Progress("starting"), None, "Starting pull\U{2026}")) &&
      (s.overridden ==> (p.state.Cancelled? && p.rest == "Pull cancelled.") || (p.state.Failed? && p.error.Some?))
  }

  /** The steps that write the page or what was accepted last. */
  predicate Writes(a: Action) {
    a.Start? || a.DeliverReply? || a.Refuse? || a.Reject? || a.FinishCancel?
  }

  lemma OthersLeavePage(s: System, a: Action)
    requires Enabled(s, a) && !Writes(a)
    ensures Next(s, a).page == s.page && Next(s, a).last == s.last && Next(s, a).overridden == s.overridden
  {
  }

  lemma ReplyKeepsPageWrites(s: System, r: Reply)
    requires r in s.replies && PageWrites(s)
    ensures PageWrites(Next(s, DeliverReply(r)))
  {
  }

  lemma StepKeepsPageWrites(s: System, a: Action)
    requires Enabled(s, a) && PageWrites(s)
    ensures PageWrites(Next(s, a))
  {
    if !Writes(a) {
      OthersLeavePage(s, a);
    } else if a.DeliverReply? {
      ReplyKeepsPageWrites(s, a.reply);
    }
  }

  lemma {:induction false} RunKeepsPageWrites(s: System, run: seq<Action>)
    requires Allowed(s, run) && PageWrites(s)
    ensures PageWrites(After(s, run))
    decreases |run|
  {
    if run != [] {
      StepKeepsPageWrites(s, run[0]);
      RunKeepsPageWrites(Next(s, run[0]), run[1..]);
    }
  }

  lemma CompleteFromSound(s: System)
    requires ShownSound(s) && Announced(s) && PageWrites(s)
    requires s.page.pull.Some? && s.page.pull.value.state.Complete?
    ensures var p := s.page.pull.value;
            p.job in s.host && s.host[p.job] == p && s.page.completions[p.job] == 1
  {
  }

  /** Over every run, whatever the page wrote over the status: a pull shown as complete is exactly what
      the host says of that job, and its completion was announced once. */
  lemma CompleteIsTrue(run: seq<Action>)
    requires Allowed(INITIAL, run)
    ensures var s := After(INITIAL, run);
            s.page.pull.Some? && s.page.pull.value.state.Complete? ==>
              var p := s.page.pull.value;
              p.job in s.host && s.host[p.job] == p && s.page.completions[p.job] == 1
  {
    InitialInv();
    RunKeepsInv(INITIAL, run);
    RunKeepsPageWrites(INITIAL, run);
    var s := After(INITIAL, run);
    if s.page.pull.Some? && s.page.pull.value.state.Complete? {
      CompleteFromSound(s);
    }
  }

  /** Over every run: the shown pull is a status the host had at some time, or the placeholder of its
      start, with nothing changed but, where the page wrote over it, the end and its text. */
  lemma ShownExplained(run: seq<Action>)
    requires Allowed(INITIAL, run) && After(INITIAL, run).page.pull.Some?
    ensures var s := After(INITIAL, run);
            var p := s.page.pull.value;
            p.job in s.host && p.revision == s.page.pullRevision &&
            (s.last.Some? ==> Past(s.last.value, s.host[p.job]) && p.job == s.last.value.job &&
                              p.reference == s.last.value.reference && p.revision == s.last.value.revision) &&
            (s.last.None? ==> p.revision == 0) &&
            (!s.overridden ==> p == if s.last.Some? then s.last.value
                                    else Status(p.job, p.reference, 0, Progress("starting"), None, "Starting pull\U{2026}")) &&
            (s.overridden ==> (p.state.Cancelled? && p.rest == "Pull cancelled.") || (p.state.Failed? && p.error.Some?))
  {
    InitialInv();
    RunKeepsInv(INITIAL, run);
    RunKeepsPageWrites(INITIAL, run);
  }

  /** A cancellation that returns marks the pull shown by then, and changes nothing else. */
  lemma CancelShows(s: System)
    ensures var t := Next(s, FinishCancel);
            (s.page.pull.None? ==> t == s) &&
            (s.page.pull.Some? ==>
               var p := s.page.pull.value;
               t == s.(page := s.page.(pull := Some(Status(p.job, p.reference, p.revision, Cancelled, p.error, "Pull cancelled."))),
                       overridden := true))
  {
  }

  /** What the host refused: the subscription, or the read after its acknowledgement. */
  predicate WatchEnds(a: Action, w: Watch, cause: string) {
    a == Refuse(w, cause) || (a.Reject? && a.ask.watch == w && a.ask.initial && a.cause == cause)
  }

  /** It fails the pull shown by a live watch; a watch that was cleaned up does nothing, and neither does
      a refused read of the listener. */
  lemma RefusalShows(s: System, a: Action, w: Watch, cause: string)
    requires Enabled(s, a) && WatchEnds(a, w, cause)
    ensures var t := Next(s, a);
            (s.live == Some(w) && s.page.pull.Some? ==>
               var p := s.page.pull.value;
               t.page == s.page.(pull := Some(Status(p.job, p.reference, p.revision, Failed, Some(cause), p.rest)))) &&
            (s.live != Some(w) || s.page.pull.None? ==> t.page == s.page)
  {
  }

  lemma RefusedListenerReadHides(s: System, k: Ask, cause: string)
    requires Enabled(s, Reject(k, cause)) && !k.initial
    ensures Next(s, Reject(k, cause)).page == s.page
  {
  }

  /** The same pull, still shown as cancelled. */
  predicate StillCancelled(p: Status, s: System) {
    s.page.pull.Some? &&
    var q := s.page.pull.value;
    q.state.Cancelled? && q.job == p.job && q.reference == p.reference && q.revision == p.revision
  }

  predicate LeavesShown(a: Action) {
    !a.Start? && !a.DeliverReply? && !a.Refuse? && !a.Reject?
  }

  lemma StepLeavesCancelled(s: System, a: Action, p: Status)
    requires Enabled(s, a) && LeavesShown(a) && StillCancelled(p, s)
    ensures StillCancelled(p, Next(s, a))
  {
  }

  /** The end the page put there stays, with its job, until a reply arrives, a read or subscription is
      refused or another pull starts. */
  lemma {:induction false} CancelledStays(s: System, run: seq<Action>, p: Status)
    requires Allowed(s, run) && StillCancelled(p, s)
    requires forall i :: 0 <= i < |run| ==> LeavesShown(run[i])
    ensures StillCancelled(p, After(s, run))
    decreases |run|
  {
    if run != [] {
      StepLeavesCancelled(s, run[0], p);
      CancelledStays(Next(s, run[0]), run[1..], p);
    }
  }

  predicate ShownAtLeast(s: System, job: Job, revision: nat) {
    job in s.host && (s.page.pull.Some? && s.page.pull.value.job == job ==> revision <= s.page.pullRevision)
  }

  lemma StepKeepsShown(s: System, a: Action, job: Job, revision: nat)
    requires Enabled(s, a) && ShownSound(s) && ShownAtLeast(s, job, revision)
    ensures ShownAtLeast(Next(s, a), job, revision)
  {
    match a
    case Start(_, _) =>
    case DeliverReply(_) =>
    case HostChange(_, _) =>
    case _ =>
  }

  lemma {:induction false} RunKeepsShown(s: System, run: seq<Action>, job: Job, revision: nat)
    requires Inv(s) && Allowed(s, run) && ShownAtLeast(s, job, revision)
    ensures ShownAtLeast(After(s, run), job, revision)
    decreases |run|
  {
    if run != [] {
      StepKeepsShown(s, run[0], job, revision);
      StepKeepsInv(s, run[0]);
      RunKeepsShown(Next(s, run[0]), run[1..], job, revision);
    }
  }

  /** Between any two moments of a run that show the same job the revision does not fall. */
  lemma ShownRevisionNeverFalls(before: seq<Action>, between: seq<Action>)
    requires Allowed(INITIAL, before) && Allowed(After(INITIAL, before), between)
    ensures var s := After(INITIAL, before);
            var t := After(s, between);
            s.page.pull.Some? && t.page.pull.Some? && s.page.pull.value.job == t.page.pull.value.job ==>
              s.page.pull.value.revision <= t.page.pull.value.revision
  {
    var s := After(INITIAL, before);
    InitialInv();
    RunKeepsInv(INITIAL, before);
    RunKeepsInv(s, between);
    if s.page.pull.Some? {
      RunKeepsShown(s, between, s.page.pull.value.job, s.page.pullRevision);
    }
  }

  /** How many deliveries are still to come. */
  function Pending(s: System): nat {
    3 * |s.events| + 2 * |s.asks| + |s.replies|
  }

  lemma OneLess<T>(m: multiset<T>, x: T)
    requires x in m
    ensures |m - multiset{x}| == |m| - 1
  {
  }

  lemma EventDrains(s: System, e: Event)
    requires Enabled(s, DeliverEvent(e))
    ensures Pending(Next(s, DeliverEvent(e))) < Pending(s)
  {
    OneLess(s.events, e);
    var asks := Next(s, DeliverEvent(e)).asks;
    assert asks == s.asks || asks == s.asks + multiset{Ask(e.watch, e.change.revision, false)};
    assert |asks| <= |s.asks| + 1;
  }

  /** Delivering uses up what is in flight. */
  lemma DeliveriesDrain(s: System, a: Action)
    requires Enabled(s, a) && (a.DeliverEvent? || a.Answer? || a.DeliverReply? || a.Reject? || a.Coalesce?)
    ensures Pending(Next(s, a)) < Pending(s)
  {
    match a
    case DeliverEvent(e) => EventDrains(s, e);
    case Coalesce(e, _) => OneLess(s.events, e);
    case Answer(k) => OneLess(s.asks, k);
    case Reject(k, _) => OneLess(s.asks, k);
    case DeliverReply(r) => OneLess(s.replies, r);
  }

  predicate Delivery(a: Action) {
    a.DeliverEvent? || a.Answer? || a.DeliverReply?
  }

  lemma DeliveryKeeps(s: System, a: Action)
    requires Enabled(s, a) && Delivery(a)
    ensures Next(s, a).live == s.live && Next(s, a).acknowledged == s.acknowledged
    ensures Next(s, a).host == s.host && Next(s, a).refused == s.refused
  {
  }

  /** Something of the live watch that can be delivered or answered. */
  lemma NextDelivery(s: System) returns (a: Action)
    requires Inv(s) && s.live.Some? && s.live.value in s.acknowledged && !Quiet(s)
    ensures Enabled(s, a) && Delivery(a)
  {
    var w := s.live.value;
    if e :| e in s.events && e.watch == w {
      a := DeliverEvent(e);
    } else if k :| k in s.asks && k.watch == w {
      a := Answer(k);
    } else {
      var r :| r in s.replies && r.ask.watch == w;
      a := DeliverReply(r);
    }
  }

  ghost predicate Waiting(s: System) {
    Inv(s) && s.live.Some? && s.live.value in s.acknowledged
  }

  lemma DeliveryStep(s: System, a: Action)
    requires Waiting(s) && Enabled(s, a) && Delivery(a)
    ensures Waiting(Next(s, a)) && Pending(Next(s, a)) < Pending(s)
  {
    StepKeepsInv(s, a);
    DeliveriesDrain(s, a);
    DeliveryKeeps(s, a);
  }

  predicate OnlyDeliveries(run: seq<Action>) {
    forall i :: 0 <= i < |run| ==> Delivery(run[i])
  }

  lemma OneMoreDelivery(a: Action, rest: seq<Action>)
    ensures OnlyDeliveries([a] + rest) <==> Delivery(a) && OnlyDeliveries(rest)
  {
    var run := [a] + rest;
    assert run[0] == a && forall i :: 0 <= i < |rest| ==> run[i + 1] == rest[i];
  }

  lemma LaterDeliveries(run: seq<Action>)
    requires OnlyDeliveries(run) && run != []
    ensures Delivery(run[0]) && OnlyDeliveries(run[1..])
  {
  }

  ghost predicate Deliveries(s: System, run: seq<Action>) {
    Allowed(s, run) && OnlyDeliveries(run)
  }

  lemma {:induction false} DeliveriesShrink(s: System, run: seq<Action>)
    requires Waiting(s) && Deliveries(s, run)
    ensures Waiting(After(s, run)) && |run| + Pending(After(s, run)) <= Pending(s)
    ensures After(s, run).live == s.live && After(s, run).host == s.host && After(s, run).refused == s.refused
    decreases |run|
  {
    if run != [] {
      LaterDeliveries(run);
      DeliveryStep(s, run[0]);
      DeliveryKeeps(s, run[0]);
      DeliveriesShrink(Next(s, run[0]), run[1..]);
    }
  }

  ghost predicate CanDeliver(s: System) {
    exists a :: Enabled(s, a) && Delivery(a)
  }

  lemma QuietOrMore(s: System)
    requires Waiting(s)
    ensures Quiet(s) || CanDeliver(s)
  {
    if !Quiet(s) {
      var a := NextDelivery(s);
    }
  }

  /** A host that pauses and answers is caught up with, in whatever order: from every state of the
      invariant with an acknowledged live watch, every run of deliveries and answers is short, and when
      nothing more can be delivered or answered the state is quiet; if no read was refused, the page has
      by then accepted the host's status. */
  lemma QuietReached(s: System, run: seq<Action>)
    requires Waiting(s) && Deliveries(s, run)
    ensures |run| <= Pending(s)
    ensures !CanDeliver(After(s, run)) ==> Quiet(After(s, run))
    ensures s.live.value.job in s.host && After(s, run).live == s.live && After(s, run).host == s.host
    ensures Quiet(After(s, run)) && !s.refused ==> After(s, run).last == Some(s.host[s.live.value.job])
  {
    DeliveriesShrink(s, run);
    QuietOrMore(After(s, run));
    if Quiet(After(s, run)) {
      QuietMeans(After(s, run));
    }
  }

  ghost predicate QuietRun(s: System, run: seq<Action>) {
    Deliveries(s, run) && Quiet(After(s, run))
  }

  lemma DeliverFirst(s: System, a: Action, rest: seq<Action>)
    requires Enabled(s, a) && Delivery(a) && QuietRun(Next(s, a), rest)
    ensures QuietRun(s, [a] + rest)
  {
    RunFirst(s, a, rest);
    OneMoreDelivery(a, rest);
  }

  lemma RunFirst(s: System, a: Action, rest: seq<Action>)
    requires Enabled(s, a) && Allowed(Next(s, a), rest)
    ensures Allowed(s, [a] + rest) && After(s, [a] + rest) == After(Next(s, a), rest)
  {
    assert ([a] + rest)[1..] == rest;
  }

  lemma NoRun(s: System)
    requires Quiet(s)
    ensures QuietRun(s, [])
  {
  }

  lemma DeliverOnce(s: System) returns (a: Action, t: System)
    requires Waiting(s) && !Quiet(s)
    ensures Waiting(t) && Pending(t) < Pending(s)
    ensures forall rest :: QuietRun(t, rest) ==> QuietRun(s, [a] + rest)
  {
    a := NextDelivery(s);
    t := Next(s, a);
    DeliveryStep(s, a);
    forall rest | QuietRun(t, rest)
      ensures QuietRun(s, [a] + rest)
    {
      DeliverFirst(s, a, rest);
    }
  }

  /** Such a run exists. */
  lemma {:induction false} SomeRunIsQuiet(s: System)
    requires Waiting(s)
    ensures exists run :: QuietRun(s, run)
    decreases Pending(s)
  {
    if Quiet(s) {
      NoRun(s);
    } else {
      var a, t := DeliverOnce(s);
      SomeRunIsQuiet(t);
      RunLater(s, a, t);
    }
  }

  lemma RunLater(s: System, a: Action, t: System)
    requires forall rest :: QuietRun(t, rest) ==> QuietRun(s, [a] + rest)
    requires exists rest :: QuietRun(t, rest)
    ensures exists run :: QuietRun(s, run)
  {
    var rest :| QuietRun(t, rest);
    assert QuietRun(s, [a] + rest);
  }

  lemma ChangeEmits(s: System, w: Watch, status: Status)
    requires Enabled(s, HostChange(status, {w})) && s.live == Some(w) && status.job == w.job
    ensures Next(s, HostChange(status, {w})) ==
            s.(host := s.host[status.job := status], answered := false, refused := false,
               events := s.events + multiset{Event(w, Change(status.job, status.revision))})
  {
    assert (set v | v in {w} :: Event(v, Change(status.job, status.revision))) ==
           {Event(w, Change(status.job, status.revision))};
  }

  lemma ReadRefused(s: System, w: Watch, revision: nat, cause: string)
    requires s.live == Some(w) && s.page.pullRevision < revision
    requires Event(w, Change(w.job, revision)) in s.events
    ensures var event, ask := Event(w, Change(w.job, revision)), Ask(w, revision, false);
            Enabled(Next(s, DeliverEvent(event)), Reject(ask, cause)) &&
            Next(Next(s, DeliverEvent(event)), Reject(ask, cause)) ==
            s.(events := s.events - multiset{event}, refused := true)
  {
    var event, ask := Event(w, Change(w.job, revision)), Ask(w, revision, false);
    var t := Next(s, DeliverEvent(event));
    assert t == s.(events := s.events - multiset{event}, asks := s.asks + multiset{ask});
    assert s.asks + multiset{ask} - multiset{ask} == s.asks;
  }

  lemma ChangeThenRefusal(s: System, w: Watch, status: Status, cause: string)
    requires Enabled(s, HostChange(status, {w})) && s.live == Some(w) && status.job == w.job
    requires s.page.pullRevision < status.revision
    ensures var event := Event(w, Change(status.job, status.revision));
            var run := [HostChange(status, {w}), DeliverEvent(event), Reject(Ask(w, status.revision, false), cause)];
            Allowed(s, run) && After(s, run) == s.(host := s.host[status.job := status], answered := false, refused := true)
  {
    var event := Event(w, Change(status.job, status.revision));
    var a, b, c := HostChange(status, {w}), DeliverEvent(event), Reject(Ask(w, status.revision, false), cause);
    ChangeEmits(s, w, status);
    var s1 := Next(s, a);
    ReadRefused(s1, w, status.revision, cause);
    assert s1.events - multiset{event} == s.events;
    RunOfThree(s, a, b, c);
  }

  /** Losing a change is real: from any quiet state, one change whose read the host refuses leaves the
      page quiet and showing the old status. */
  lemma RefusedReadHidesChange(s: System, status: Status, cause: string)
    requires Inv(s) && Quiet(s) && s.live.value.job == status.job
    requires !Terminal(s.host[status.job].state) && s.host[status.job].revision < status.revision
    ensures var w := s.live.value;
            var event := Event(w, Change(status.job, status.revision));
            var run := [HostChange(status, {w}), DeliverEvent(event), Reject(Ask(w, status.revision, false), cause)];
            Allowed(s, run) && After(s, run) == s.(host := s.host[status.job := status], answered := false, refused := true) &&
            Quiet(After(s, run)) && Lost(After(s, run)) && s.page.pull != Some(status)
  {
    assert s.page.pullRevision < status.revision;
    ChangeThenRefusal(s, s.live.value, status, cause);
    QuietSame(s, s.(host := s.host[status.job := status], answered := false, refused := true));
  }

  lemma QuietSame(s: System, t: System)
    requires Quiet(s) && t.live == s.live && t.acknowledged == s.acknowledged
    requires t.events == s.events && t.asks == s.asks && t.replies == s.replies
    ensures Quiet(t)
  {
  }

  lemma RunOfThree(s: System, a: Action, b: Action, c: Action)
    requires Enabled(s, a) && Enabled(Next(s, a), b) && Enabled(Next(Next(s, a), b), c)
    ensures Allowed(s, [a, b, c]) && After(s, [a, b, c]) == Next(Next(Next(s, a), b), c)
  {
    var s1 := Next(s, a);
    var s2 := Next(s1, b);
    assert [c][1..] == [] && [b, c][1..] == [c] && [a, b, c][1..] == [b, c];
    assert Allowed(s2, [c]) && After(s2, [c]) == Next(s2, c);
    assert Allowed(s1, [b, c]) && After(s1, [b, c]) == After(s2, [c]);
  }
}
