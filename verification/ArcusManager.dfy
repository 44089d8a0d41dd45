/**
  The ZooKeeper manager thread of an Arcus client, as a step relation.

  One manager thread, any number of ZooKeeper callbacks, the starting thread and one closing thread
  share the request flags, the notification bit, the stop flag and the `running` flag under one mutex,
  and the ZooKeeper handle under another, the global lock_arcus. Every access to a variable that
  another thread may write is a step of its own, the mutexes and the condition variable are explicit,
  and the environment chooses the order of the steps, the outcome of every ZooKeeper call and of every
  allocation, time-outs and spurious wake-ups.
 */
module ArcusManager {

  /** ARCUS_ZK_RETRY_RECONNECT_DELAY_IN_MS, and the length of one poll. */
  const RETRY_DELAY_MS := 1000
  const POLL_MS := 100

  datatype Request = Request(reconnect: bool, update: bool) {
    predicate Any() { reconnect || update }
  }
  const NO_REQUEST := Request(false, false)

  /**
    A child event asks for a new server list, an expired or refused session for a new client. The
    starting thread asks for the first list. All other users of lock_arcus ask for nothing.
   */
  datatype Kind = ChildEvent | SessionEvent | Starting | OtherUse

  /**
    Where a callback is: entered, inside lock_arcus, past it, past its tests, in the critical section
    of the manager (three points). The starting thread keeps lock_arcus all the while, and then
    releases it.
   */
  datatype Poster =
    | Delivered(kind: Kind)
    | Inside(kind: Kind)
    | Outside(kind: Kind)
    | Wanting(kind: Kind)
    | Holding(kind: Kind)
    | Raised(kind: Kind)
    | Woken(kind: Kind)
    | Releasing
  {
    predicate Owns() { Holding? || Raised? || Woken? }
    predicate OwnsOuter() { Inside? || Releasing? || ((Wanting? || Holding? || Raised? || Woken?) && kind.Starting?) }
    predicate BeforeTests() { Delivered? || Inside? || Outside? }
    predicate Unposted() { (Delivered? || Inside? || Outside? || Wanting? || Holding?) && !kind.OtherUse? }
  }

  datatype Owner = Free | ByManager | ByStopper | ByPoster(id: nat)

  /** Program points of the manager loop; `In` means inside lock_arcus. */
  datatype Pc =
    | Top                               // while (!reqstop)
    | Acquire                           // about to lock
    | Test                              // lock held: is there a notification or a stop?
    | Sleep(timed: bool, signalled: bool)
    | Rewake(timed: bool)               // woken, must get the lock back
    | Take                              // lock held: copy and clear the requests
    | Check                             // read reqstop again
    | Decide                            // choose what to do with the copied request
    | Closing                           // reconnect: must close the old client
    | ClosingIn
    | Connecting                        // reconnect: must create the new client
    | ConnectingIn
    | Waiting                           // the new client waits for its session
    | Validating                        // must look at the result
    | ValidatingIn
    | Joining                           // registers the client
    | Undoing                           // must close the new client again
    | UndoingIn
    | Reposting                         // reconnect succeeded, must request a fetch
    | Fetching(snapshot: bool)          // inside zoo_wget_children
    | FetchFailed                       // must request another fetch
    | Applying                          // must store the fetched list
    | ApplyingIn
    | Leaving                           // left the loop
    | Gone                              // running is false
  {
    predicate HasLock() { Test? || Take? }
    predicate HasOuter() { ClosingIn? || ConnectingIn? || ValidatingIn? || UndoingIn? || ApplyingIn? }
    /** A request is being worked on. */
    predicate Busy() { Decide? || InReconnect() || InUpdate() }
    predicate InUpdate() { Fetching? || FetchFailed? || Applying? || ApplyingIn? }
    /** The ZooKeeper handle may be in use or being replaced by the manager. */
    predicate UsesZooKeeper() {
      ClosingIn? || ConnectingIn? || Waiting? || ValidatingIn? || Joining? || UndoingIn? || Fetching?
    }
    predicate InReconnect() {
      || Closing? || ClosingIn? || Connecting? || ConnectingIn? || Waiting? || Validating? || ValidatingIn?
      || Joining? || Undoing? || UndoingIn? || Reposting?
    }
    /** A new client has been created. */
    predicate HasNewHandle() { Waiting? || Validating? || ValidatingIn? || Joining? || Undoing? || UndoingIn? || Reposting? }
    /** The children have been read and the list is not yet stored. */
    predicate HasSnapshot() { (Fetching? && snapshot) || Applying? || ApplyingIn? }
  }

  /** Progress of arcus_close. */
  datatype Stopper =
    | Idle | Asking | Asked | WantLock | InWakeup | AfterWakeup | Spinning | ClosingHandle | ClosingInside | Closed
  {
    predicate PastWakeup() { AfterWakeup? || Spinning? || PastManager() }
    /** It has seen that the manager is gone. */
    predicate PastManager() { ClosingHandle? || ClosingInside? || Closed? }
    predicate Requested() { !Idle? && !Asking? && !Asked? }
  }

  datatype State = State(
    request: Request,
    notification: bool,
    reqstop: bool,
    lock: Owner,                        // zk_mgr.lock
    outer: Owner,                       // lock_arcus
    handle: bool,                       // is zk.handle non-null?
    // locals of the manager
    pc: Pc,
    zkreq: Request,
    zkRetry: bool,
    reconnectRetry: bool,
    elapsed: nat,
    // the other threads
    posters: map<nat, Poster>,
    stopper: Stopper,
    // history, read by no step
    dirty: bool,                        // an event was delivered since the children were read for the list in use
    sinceSnapshot: bool,                // ... since the current fetch read the children
    lost: bool,                         // a change was outstanding when the last fetched list could not be put to use
    finishedAfterStop: nat              // requests completed after the stop flag was set
  ) {
    /** zk_mgr.running */
    predicate Running() { !pc.Gone? }
  }

  /** The steps of a callback, of arcus_close, and of the manager thread. */
  datatype PosterStep = Deliver(kind: Kind) | EnterOuter | LeaveOuter | TestHandle | Lock | RaiseFlag | Wake | Unlock
  datatype StopStep =
    | StopEnter | StopLeave | StopRequest | StopLock | StopWake | StopUnlock | StopSeen | StopCloseLock | StopClosed
  datatype ManagerStep =
    | LoopTest
    | LockForTest
    | TestNotification
    | WakeUp
    | Relock
    | TakeRequest
    | CheckStop
    | Dispatch
    | CloseLock
    | CloseReturned(ok: bool)
    | ConnectLock
    | InitReturned(ok: bool)
    | SessionReturned(ok: bool)
    | ValidateLock
    | Validated(ok: bool)
    | Joined(ok: bool)
    | UndoLock
    | Undone
    | Repost
    | ChildrenRead
    | FetchReturned(ok: bool)
    | RequestAgain
    | ApplyLock
    /** The list is put to use, unless there is no memory or memcached_update_cachelist reports an error. */
    | Applied(done: bool)
    | Leave
  {
    predicate OfReconnect() {
      || CloseLock? || CloseReturned? || ConnectLock? || InitReturned? || SessionReturned? || ValidateLock? || Validated?
      || Joined? || UndoLock? || Undone? || Repost?
    }
    predicate OfUpdate() { ChildrenRead? || FetchReturned? || RequestAgain? || ApplyLock? || Applied? }
  }

  datatype Event = Posting(id: nat, p: PosterStep) | Stopping(q: StopStep) | Managing(m: ManagerStep)

  /** The thread has just started: the starting thread's own request may still be on its way. */
  ghost predicate Init(s: State) {
    && s.reqstop == false && s.lock == Free && s.handle && s.pc == Top
    && s.zkreq == NO_REQUEST && !s.zkRetry && !s.reconnectRetry && s.elapsed == 0
    && s.stopper == Idle && s.dirty && !s.sinceSnapshot && !s.lost && s.finishedAfterStop == 0
    && (|| (s.request == NO_REQUEST && !s.notification && s.posters == map[0 := Wanting(Starting)] && s.outer == ByPoster(0))
        || (s.request == Request(false, true) && s.notification && s.posters == map[] && s.outer == Free))
  }

  predicate PosterEnabled(s: State, id: nat, p: PosterStep) {
    if p.Deliver? then id !in s.posters && !p.kind.Starting?
    else
      id in s.posters &&
      match p
      case EnterOuter => s.posters[id].Delivered? && s.outer == Free
      case LeaveOuter => s.posters[id].Inside? || s.posters[id].Releasing?
      case TestHandle => s.posters[id].Outside?
      case Lock => s.posters[id].Wanting? && s.lock == Free
      case RaiseFlag => s.posters[id].Holding?
      case Wake => s.posters[id].Raised?
      case Unlock => s.posters[id].Woken?
  }

  predicate StopEnabled(s: State, q: StopStep) {
    match q
    case StopEnter => s.stopper == Idle && s.outer == Free
    case StopLeave => s.stopper == Asking
    case StopRequest => s.stopper == Asked && s.Running()
    case StopLock => s.stopper == WantLock && s.lock == Free
    case StopWake => s.stopper == InWakeup
    case StopUnlock => s.stopper == AfterWakeup
    case StopSeen => s.stopper == Spinning && !s.Running()
    case StopCloseLock => s.stopper == ClosingHandle && s.outer == Free
    case StopClosed => s.stopper == ClosingInside
  }

  predicate ManagerEnabled(s: State, m: ManagerStep) {
    match m
    case LoopTest => s.pc == Top
    case LockForTest => s.pc == Acquire && s.lock == Free
    case TestNotification => s.pc == Test
    case WakeUp => s.pc.Sleep?
    case Relock => s.pc.Rewake? && s.lock == Free
    case TakeRequest => s.pc == Take
    case CheckStop => s.pc == Check
    case Dispatch => s.pc == Decide
    case CloseLock => s.pc == Closing && s.outer == Free
    case CloseReturned(_) => s.pc == ClosingIn
    case ConnectLock => s.pc == Connecting && s.outer == Free
    case InitReturned(_) => s.pc == ConnectingIn
    case SessionReturned(_) => s.pc == Waiting
    case ValidateLock => s.pc == Validating && s.outer == Free
    case Validated(_) => s.pc == ValidatingIn
    case Joined(_) => s.pc == Joining
    case UndoLock => s.pc == Undoing && s.outer == Free
    case Undone => s.pc == UndoingIn
    case Repost => s.pc == Reposting && s.lock == Free
    case ChildrenRead => s.pc == Fetching(false)
    case FetchReturned(ok) => s.pc.Fetching? && (ok ==> s.pc.snapshot)
    case RequestAgain => s.pc == FetchFailed && s.lock == Free
    case ApplyLock => s.pc == Applying && s.outer == Free
    case Applied(_) => s.pc == ApplyingIn
    case Leave => s.pc == Leaving
  }

  predicate Enabled(s: State, e: Event) {
    match e
    case Posting(id, p) => PosterEnabled(s, id, p)
    case Stopping(q) => StopEnabled(s, q)
    case Managing(m) => ManagerEnabled(s, m)
  }

  /** do_arcus_zk_manager_wakeup, with the mutex held: the first notification signals the sleeper. */
  function Signalled(s: State): Pc {
    if s.pc.Sleep? && !s.notification then Sleep(s.pc.timed, true) else s.pc
  }

  /** History: requests finished after the stop flag was set, one more having just finished. */
  function CountFinished(s: State): nat {
    s.finishedAfterStop + if s.reqstop then 1 else 0
  }

  /** Inside lock_arcus the session callback finds no handle; nobody else looks, or asks for anything. */
  predicate DropsInside(s: State, me: Poster) {
    me.Releasing? || (me.Inside? && (me.kind.OtherUse? || (me.kind.SessionEvent? && !s.handle)))
  }

  /** Outside it the child callback finds no handle, or the session callback a manager that has left. */
  predicate DropsOutside(s: State, me: Poster) {
    me.Outside? && ((me.kind.ChildEvent? && !s.handle) || (me.kind.SessionEvent? && !s.Running()))
  }

  function Raise(r: Request, kind: Kind): Request {
    Request(r.reconnect || kind == SessionEvent, r.update || kind == ChildEvent || kind == Starting)
  }

  /** The callback's own progress. */
  function NextPoster(me: Poster, p: PosterStep): Poster
    requires !p.Deliver? && !me.Releasing?
  {
    match p
    case EnterOuter => Inside(me.kind)
    case LeaveOuter => Outside(me.kind)
    case TestHandle => Wanting(me.kind)
    case Lock => Holding(me.kind)
    case RaiseFlag => Raised(me.kind)
    case Wake => Woken(me.kind)
    case Unlock => Releasing
  }

  /** It goes away. */
  predicate Ends(s: State, me: Poster, p: PosterStep) {
    || (p.LeaveOuter? && DropsInside(s, me))
    || (p.TestHandle? && DropsOutside(s, me))
    || (p.Unlock? && me.Woken? && !me.kind.Starting?)
  }

  function NextPosters(s: State, id: nat, p: PosterStep): map<nat, Poster>
    requires PosterEnabled(s, id, p)
  {
    if p.Deliver? then s.posters[id := Delivered(p.kind)]
    else if Ends(s, s.posters[id], p) then s.posters - {id}
    else s.posters[id := NextPoster(s.posters[id], p)]
  }

  function PosterApply(s: State, id: nat, p: PosterStep): State
    requires PosterEnabled(s, id, p)
  {
    var change := p.Deliver? && !p.kind.OtherUse?;
    s.(posters := NextPosters(s, id, p),
       outer := if p.EnterOuter? then ByPoster(id) else if p.LeaveOuter? then Free else s.outer,
       lock := if p.Lock? then ByPoster(id) else if p.Unlock? then Free else s.lock,
       request := if p.RaiseFlag? then Raise(s.request, s.posters[id].kind) else s.request,
       notification := s.notification || p.Wake?,
       pc := if p.Wake? then Signalled(s) else s.pc,
       dirty := s.dirty || change,
       sinceSnapshot := s.sinceSnapshot || change)
  }

  function NextStopper(q: StopStep): Stopper {
    match q
    case StopEnter => Asking
    case StopLeave => Asked
    case StopRequest => WantLock
    case StopLock => InWakeup
    case StopWake => AfterWakeup
    case StopUnlock => Spinning
    case StopSeen => ClosingHandle
    case StopCloseLock => ClosingInside
    case StopClosed => Closed
  }

  function StopApply(s: State, q: StopStep): State
    requires StopEnabled(s, q)
  {
    s.(stopper := NextStopper(q),
       outer := if q.StopEnter? || q.StopCloseLock? then ByStopper else if q.StopLeave? || q.StopClosed? then Free else s.outer,
       lock := if q.StopLock? then ByStopper else if q.StopUnlock? then Free else s.lock,
       reqstop := s.reqstop || q.StopRequest?,
       notification := s.notification || q.StopWake?,
       pc := if q.StopWake? then Signalled(s) else s.pc,
       handle := s.handle && !q.StopClosed?)
  }

  /** A reconnect is due, and it is too early for it. */
  predicate TooEarly(s: State) { s.reconnectRetry && s.elapsed < RETRY_DELAY_MS }

  /** The loop itself. */
  function LoopPc(s: State, m: ManagerStep): Pc
    requires ManagerEnabled(s, m) && !m.OfReconnect() && !m.OfUpdate()
  {
    match m
    case LoopTest => if s.reqstop then Leaving else Acquire
    case LockForTest => Test
    case TestNotification => if s.notification || s.reqstop then Take else Sleep(s.zkRetry || s.reconnectRetry, false)
    case WakeUp => Rewake(s.pc.timed)
    case Relock => if s.pc.timed then Take else Test
    case TakeRequest => Check
    case CheckStop => if s.reqstop then Leaving else Decide
    case Dispatch =>
      if s.zkreq.reconnect || s.reconnectRetry then (if TooEarly(s) then Top else Closing)
      else if s.zkreq.update then Fetching(false)
      else Top
    case Leave => Gone
  }

  function LoopApply(s: State, m: ManagerStep): State
    requires ManagerEnabled(s, m) && !m.OfReconnect() && !m.OfUpdate()
  {
    var releases := m.TakeRequest? || (m.TestNotification? && !s.notification && !s.reqstop);
    s.(pc := LoopPc(s, m),
       lock := if m.LockForTest? || m.Relock? then ByManager else if releases then Free else s.lock,
       notification := s.notification && !m.TakeRequest?,
       zkreq := if m.TakeRequest? then s.request else s.zkreq,
       request := if m.TakeRequest? then NO_REQUEST else s.request,
       zkRetry := s.zkRetry && !(m.Relock? && s.pc.timed),
       elapsed := if m.Relock? && s.pc.timed && s.reconnectRetry then s.elapsed + POLL_MS
                  else if m.Dispatch? && s.reconnectRetry && !TooEarly(s) then 0
                  else s.elapsed,
       reconnectRetry := if m.Dispatch? then TooEarly(s) else s.reconnectRetry)
  }

  /** do_arcus_zk_process_reconnect */
  function ReconnectPc(m: ManagerStep): Pc
    requires m.OfReconnect()
  {
    match m
    case CloseLock => ClosingIn
    case CloseReturned(ok) => if ok then Connecting else Top
    case ConnectLock => ConnectingIn
    case InitReturned(ok) => if ok then Waiting else Top
    case SessionReturned(ok) => if ok then Validating else Undoing
    case ValidateLock => ValidatingIn
    case Validated(ok) => if ok then Joining else Undoing
    case Joined(ok) => if ok then Reposting else Undoing
    case UndoLock => UndoingIn
    case Undone => Top
    case Repost => Top
  }

  function ReconnectApply(s: State, m: ManagerStep): State
    requires ManagerEnabled(s, m) && m.OfReconnect()
  {
    var locks := m.CloseLock? || m.ConnectLock? || m.ValidateLock? || m.UndoLock?;
    var unlocks := m.CloseReturned? || m.InitReturned? || m.Validated? || m.Undone?;
    var fails := m.Undone? || (m.CloseReturned? && !m.ok) || (m.InitReturned? && !m.ok);
    s.(pc := ReconnectPc(m),
       outer := if locks then ByManager else if unlocks then Free else s.outer,
       handle := if m.CloseReturned? || m.Undone? then false else if m.InitReturned? then m.ok else s.handle,
       reconnectRetry := s.reconnectRetry || fails,
       request := Request(s.request.reconnect, s.request.update || m.Repost?),
       zkRetry := s.zkRetry || m.Repost?,
       finishedAfterStop := if fails || m.Repost? then CountFinished(s) else s.finishedAfterStop)
  }

  /** do_arcus_zk_watch_and_update_cachelist */
  function UpdatePc(m: ManagerStep): Pc
    requires m.OfUpdate()
  {
    match m
    case ChildrenRead => Fetching(true)
    case FetchReturned(ok) => if ok then Applying else FetchFailed
    case RequestAgain => Top
    case ApplyLock => ApplyingIn
    case Applied(_) => Top
  }

  function UpdateApply(s: State, m: ManagerStep): State
    requires ManagerEnabled(s, m) && m.OfUpdate()
  {
    s.(pc := UpdatePc(m),
       outer := if m.ApplyLock? then ByManager else if m.Applied? then Free else s.outer,
       request := Request(s.request.reconnect, s.request.update || m.RequestAgain?),
       zkRetry := s.zkRetry || m.RequestAgain?,
       sinceSnapshot := s.sinceSnapshot && !m.ChildrenRead?,
       dirty := if m.Applied? && m.done then s.sinceSnapshot else s.dirty,
       lost := if m.Applied? then !m.done && s.dirty else s.lost,
       finishedAfterStop := if m.RequestAgain? || m.Applied? then CountFinished(s) else s.finishedAfterStop)
  }

  function ManagerApply(s: State, m: ManagerStep): State
    requires ManagerEnabled(s, m)
  {
    if m.OfReconnect() then ReconnectApply(s, m) else if m.OfUpdate() then UpdateApply(s, m) else LoopApply(s, m)
  }

  function Apply(s: State, e: Event): State
    requires Enabled(s, e)
  {
    match e
    case Posting(id, p) => PosterApply(s, id, p)
    case Stopping(q) => StopApply(s, q)
    case Managing(m) => ManagerApply(s, m)
  }

  /** A run: states, and the event that leads from each to the next. */
  ghost predicate IsRun(states: seq<State>, events: seq<Event>) {
    && |states| == |events| + 1
    && Init(states[0])
    && forall i :: 0 <= i < |events| ==>
         Enabled(states[i], events[i]) && states[i + 1] == Apply(states[i], events[i])
  }

  // ---------------------------------------------------------------------------------------------
  // What is proved of every reachable state
  // ---------------------------------------------------------------------------------------------

  ghost predicate SomeoneWillPost(posters: map<nat, Poster>) {
    exists id :: id in posters && posters[id].Unposted()
  }

  /** The manager itself still has the request in hand. */
  predicate HeldByManager(s: State) {
    ((s.pc.Check? || s.pc.Decide?) && s.zkreq.Any()) || s.pc.InReconnect() || s.pc.InUpdate()
  }

  /** Somebody is going to bring the server list up to date, or arcus_close makes it pointless. */
  ghost predicate InProgress(s: State) {
    s.request.Any() || SomeoneWillPost(s.posters) || HeldByManager(s) || s.reconnectRetry || s.reqstop
  }

  /** No delivered event is forgotten, unless the list fetched for it could not be put to use. */
  ghost predicate NoLostUpdate(s: State) {
    && (s.dirty ==> InProgress(s) || s.lost)
    && (s.lost ==> s.dirty)
  }

  /** The mutex is held by a callback that has set its flag and is about to signal. */
  predicate AboutToWake(s: State) {
    s.lock.ByPoster? && s.lock.id in s.posters && s.posters[s.lock.id].Raised?
  }

  /** An untimed sleep without a signal means that there is nothing to wake up for. */
  ghost predicate NoLostWakeup(s: State) {
    s.pc == Sleep(false, false) ==>
      && !s.notification
      && !s.stopper.PastWakeup()
      && (s.request.Any() ==> AboutToWake(s))
  }

  /** A request nobody was notified of is one the manager has promised itself to poll for. */
  ghost predicate UnnotifiedIsPolled(s: State) {
    s.request.Any() && !s.notification && !s.pc.Take? ==>
      s.zkRetry || AboutToWake(s)
  }

  /** The closing thread is alone with ZooKeeper, and a stop lets at most one request finish. */
  ghost predicate StopExclusion(s: State) {
    && (s.stopper.PastManager() ==> s.pc.Gone?)
    && s.finishedAfterStop + (if s.reqstop && s.pc.Busy() then 1 else 0) <= 1
  }

  /** A failed reconnect is retried after ten polls, and the clock never runs without one. */
  ghost predicate RetryClock(s: State) {
    && s.elapsed % POLL_MS == 0
    && s.elapsed <= RETRY_DELAY_MS
    && (s.elapsed > 0 ==> s.reconnectRetry)
    && (s.elapsed == RETRY_DELAY_MS ==> s.pc.Take? || s.pc.Check? || s.pc.Decide? || s.pc.Leaving? || s.pc.Gone?)
  }

  // ---------------------------------------------------------------------------------------------
  // The inductive invariant
  // ---------------------------------------------------------------------------------------------

  ghost predicate LockDiscipline(s: State) {
    && (s.lock == ByManager <==> s.pc.HasLock())
    && (s.lock == ByStopper <==> s.stopper.InWakeup? || s.stopper.AfterWakeup?)
    && (s.lock.ByPoster? ==> s.lock.id in s.posters)
    && forall id :: id in s.posters ==> (s.posters[id].Owns() <==> s.lock == ByPoster(id))
  }

  ghost predicate OuterDiscipline(s: State) {
    && (s.outer == ByManager <==> s.pc.HasOuter())
    && (s.outer == ByStopper <==> s.stopper.Asking? || s.stopper.ClosingInside?)
    && (s.outer.ByPoster? ==> s.outer.id in s.posters)
    && (forall id :: id in s.posters ==> (s.posters[id].OwnsOuter() <==> s.outer == ByPoster(id)))
    && forall id :: id in s.posters && s.posters[id].BeforeTests() ==> !s.posters[id].kind.Starting?
  }

  ghost predicate StopPhase(s: State) {
    && (s.reqstop <==> s.stopper.Requested())
    && (s.pc.Leaving? || s.pc.Gone? ==> s.reqstop)
    && (s.finishedAfterStop == 1 ==> s.reqstop && (s.pc.Top? || s.pc.Leaving? || s.pc.Gone?))
  }

  ghost predicate HandlePhase(s: State) {
    && (!s.handle ==> s.pc.InReconnect() || s.reconnectRetry || s.stopper.Closed?)
    && (s.pc.HasNewHandle() ==> s.handle)
    && (s.pc.Busy() && !s.pc.Decide? ==> !s.reconnectRetry)
    && (s.pc.Sleep? || s.pc.Rewake? ==> s.pc.timed == (s.zkRetry || s.reconnectRetry))
    && (s.pc.HasSnapshot() && s.sinceSnapshot ==> s.request.Any() || SomeoneWillPost(s.posters) || s.reqstop)
  }

  ghost predicate Inv(s: State) {
    && LockDiscipline(s) && OuterDiscipline(s) && StopPhase(s) && HandlePhase(s)
    && NoLostUpdate(s) && NoLostWakeup(s) && UnnotifiedIsPolled(s) && StopExclusion(s) && RetryClock(s)
  }

  lemma InitInv(s: State)
    requires Init(s)
    ensures Inv(s)
  {
    if s.posters == map[0 := Wanting(Starting)] {
      assert 0 in s.posters && s.posters[0].Unposted();
    }
  }

  /** A callback on its way posts, stays on its way, or is dropped. */
  lemma StillPosting(s: State, id: nat, p: PosterStep)
    requires PosterEnabled(s, id, p)
    ensures p.Deliver? && !p.kind.OtherUse? ==> SomeoneWillPost(PosterApply(s, id, p).posters)
    ensures SomeoneWillPost(s.posters) ==>
              || SomeoneWillPost(PosterApply(s, id, p).posters)
              || PosterApply(s, id, p).request.Any()
              || (!p.Deliver? && p.LeaveOuter? && s.posters[id].Inside? && s.posters[id].kind.SessionEvent? && !s.handle)
              || (!p.Deliver? && p.TestHandle? && DropsOutside(s, s.posters[id]))
  {
    var t := PosterApply(s, id, p);
    if SomeoneWillPost(s.posters) {
      var w :| w in s.posters && s.posters[w].Unposted();
      if w != id || p.EnterOuter? || p.LeaveOuter? || p.TestHandle? || p.Lock? {
        assert w in t.posters ==> t.posters[w].Unposted();
      }
    }
    if p.Deliver? && !p.kind.OtherUse? {
      assert t.posters[id].Unposted();
    }
  }

  lemma PosterKeepsLock(s: State, id: nat, p: PosterStep)
    requires LockDiscipline(s) && PosterEnabled(s, id, p)
    ensures LockDiscipline(PosterApply(s, id, p))
  {
  }

  lemma PosterKeepsOuter(s: State, id: nat, p: PosterStep)
    requires OuterDiscipline(s) && PosterEnabled(s, id, p)
    ensures OuterDiscipline(PosterApply(s, id, p))
  {
  }

  lemma PosterKeepsStop(s: State, id: nat, p: PosterStep)
    requires StopPhase(s) && StopExclusion(s) && RetryClock(s) && PosterEnabled(s, id, p)
    ensures StopPhase(PosterApply(s, id, p)) && StopExclusion(PosterApply(s, id, p)) && RetryClock(PosterApply(s, id, p))
  {
  }

  /** What a callback leaves as it is, of what the invariant about updates speaks of. */
  lemma PosterLeaves(s: State, id: nat, p: PosterStep)
    requires PosterEnabled(s, id, p)
    ensures var t := PosterApply(s, id, p);
      && t.handle == s.handle && t.reqstop == s.reqstop && t.stopper == s.stopper && t.reconnectRetry == s.reconnectRetry
      && t.zkRetry == s.zkRetry && t.zkreq == s.zkreq && t.lost == s.lost
  {
  }

  /** What it can change. */
  lemma PosterChanges(s: State, id: nat, p: PosterStep)
    requires PosterEnabled(s, id, p)
    ensures var t := PosterApply(s, id, p);
      && (s.request.Any() ==> t.request.Any())
      && (t.pc == s.pc || (s.pc.Sleep? && t.pc == Sleep(s.pc.timed, true)))
      && (t.dirty == s.dirty || (p.Deliver? && !p.kind.OtherUse?))
      && (t.sinceSnapshot == s.sinceSnapshot || (p.Deliver? && !p.kind.OtherUse?))
      && (s.dirty ==> t.dirty)
  {
  }

  lemma PosterKeepsHandle(s: State, id: nat, p: PosterStep)
    requires HandlePhase(s) && StopExclusion(s) && StopPhase(s) && PosterEnabled(s, id, p)
    ensures HandlePhase(PosterApply(s, id, p))
  {
    PosterLeaves(s, id, p);
    PosterChanges(s, id, p);
    StillPosting(s, id, p);
    hide PosterApply, SomeoneWillPost;
  }

  lemma PosterKeepsUpdate(s: State, id: nat, p: PosterStep)
    requires HandlePhase(s) && StopExclusion(s) && StopPhase(s) && NoLostUpdate(s) && PosterEnabled(s, id, p)
    ensures NoLostUpdate(PosterApply(s, id, p))
  {
    PosterLeaves(s, id, p);
    PosterChanges(s, id, p);
    StillPosting(s, id, p);
    hide PosterApply, SomeoneWillPost;
  }

  lemma PosterKeepsWakeup(s: State, id: nat, p: PosterStep)
    requires LockDiscipline(s) && NoLostWakeup(s) && UnnotifiedIsPolled(s) && PosterEnabled(s, id, p)
    ensures NoLostWakeup(PosterApply(s, id, p)) && UnnotifiedIsPolled(PosterApply(s, id, p))
  {
  }

  lemma StopKeepsLocks(s: State, q: StopStep)
    requires LockDiscipline(s) && OuterDiscipline(s) && StopEnabled(s, q)
    ensures LockDiscipline(StopApply(s, q)) && OuterDiscipline(StopApply(s, q))
  {
  }

  lemma StopKeepsRest(s: State, q: StopStep)
    requires Inv(s) && StopEnabled(s, q)
    ensures var t := StopApply(s, q);
      StopPhase(t) && HandlePhase(t) && NoLostUpdate(t) && NoLostWakeup(t) && UnnotifiedIsPolled(t) && StopExclusion(t) && RetryClock(t)
  {
    hide SomeoneWillPost;
  }

  lemma LoopKeepsLock(s: State, m: ManagerStep)
    requires LockDiscipline(s) && ManagerEnabled(s, m) && !m.OfReconnect() && !m.OfUpdate()
    ensures LockDiscipline(LoopApply(s, m))
  {
  }

  lemma ReconnectKeepsLock(s: State, m: ManagerStep)
    requires LockDiscipline(s) && ManagerEnabled(s, m) && m.OfReconnect()
    ensures LockDiscipline(ReconnectApply(s, m))
  {
  }

  lemma UpdateKeepsLock(s: State, m: ManagerStep)
    requires LockDiscipline(s) && ManagerEnabled(s, m) && m.OfUpdate()
    ensures LockDiscipline(UpdateApply(s, m))
  {
  }

  lemma ManagerKeepsLock(s: State, m: ManagerStep)
    requires LockDiscipline(s) && ManagerEnabled(s, m)
    ensures LockDiscipline(ManagerApply(s, m))
  {
    hide LockDiscipline, ManagerEnabled, LoopApply, ReconnectApply, UpdateApply;
    if m.OfReconnect() {
      ReconnectKeepsLock(s, m);
    } else if m.OfUpdate() {
      UpdateKeepsLock(s, m);
    } else {
      LoopKeepsLock(s, m);
    }
  }

  lemma LoopKeepsOuter(s: State, m: ManagerStep)
    requires OuterDiscipline(s) && ManagerEnabled(s, m) && !m.OfReconnect() && !m.OfUpdate()
    ensures OuterDiscipline(LoopApply(s, m))
  {
  }

  lemma ReconnectKeepsOuter(s: State, m: ManagerStep)
    requires OuterDiscipline(s) && ManagerEnabled(s, m) && m.OfReconnect()
    ensures OuterDiscipline(ReconnectApply(s, m))
  {
  }

  lemma UpdateKeepsOuter(s: State, m: ManagerStep)
    requires OuterDiscipline(s) && ManagerEnabled(s, m) && m.OfUpdate()
    ensures OuterDiscipline(UpdateApply(s, m))
  {
  }

  lemma ManagerKeepsOuter(s: State, m: ManagerStep)
    requires OuterDiscipline(s) && ManagerEnabled(s, m)
    ensures OuterDiscipline(ManagerApply(s, m))
  {
    hide OuterDiscipline, ManagerEnabled, LoopApply, ReconnectApply, UpdateApply;
    if m.OfReconnect() {
      ReconnectKeepsOuter(s, m);
    } else if m.OfUpdate() {
      UpdateKeepsOuter(s, m);
    } else {
      LoopKeepsOuter(s, m);
    }
  }

  lemma LoopKeepsStop(s: State, m: ManagerStep)
    requires StopPhase(s) && StopExclusion(s) && ManagerEnabled(s, m) && !m.OfReconnect() && !m.OfUpdate()
    ensures StopPhase(LoopApply(s, m)) && StopExclusion(LoopApply(s, m))
  {
  }

  lemma ReconnectKeepsStop(s: State, m: ManagerStep)
    requires StopPhase(s) && StopExclusion(s) && ManagerEnabled(s, m) && m.OfReconnect()
    ensures StopPhase(ReconnectApply(s, m)) && StopExclusion(ReconnectApply(s, m))
  {
  }

  lemma UpdateKeepsStop(s: State, m: ManagerStep)
    requires StopPhase(s) && StopExclusion(s) && ManagerEnabled(s, m) && m.OfUpdate()
    ensures StopPhase(UpdateApply(s, m)) && StopExclusion(UpdateApply(s, m))
  {
  }

  lemma ManagerKeepsStop(s: State, m: ManagerStep)
    requires StopPhase(s) && StopExclusion(s) && ManagerEnabled(s, m)
    ensures StopPhase(ManagerApply(s, m)) && StopExclusion(ManagerApply(s, m))
  {
    hide StopPhase, StopExclusion, ManagerEnabled, LoopApply, ReconnectApply, UpdateApply;
    if m.OfReconnect() {
      ReconnectKeepsStop(s, m);
    } else if m.OfUpdate() {
      UpdateKeepsStop(s, m);
    } else {
      LoopKeepsStop(s, m);
    }
  }

  lemma LoopKeepsClock(s: State, m: ManagerStep)
    requires HandlePhase(s) && RetryClock(s) && ManagerEnabled(s, m) && !m.OfReconnect() && !m.OfUpdate()
    ensures RetryClock(LoopApply(s, m))
  {
    hide SomeoneWillPost;
  }

  lemma ReconnectKeepsClock(s: State, m: ManagerStep)
    requires HandlePhase(s) && RetryClock(s) && ManagerEnabled(s, m) && m.OfReconnect()
    ensures RetryClock(ReconnectApply(s, m))
  {
    hide SomeoneWillPost;
  }

  lemma UpdateKeepsClock(s: State, m: ManagerStep)
    requires HandlePhase(s) && RetryClock(s) && ManagerEnabled(s, m) && m.OfUpdate()
    ensures RetryClock(UpdateApply(s, m))
  {
    hide SomeoneWillPost;
  }

  lemma ManagerKeepsClock(s: State, m: ManagerStep)
    requires HandlePhase(s) && RetryClock(s) && ManagerEnabled(s, m)
    ensures RetryClock(ManagerApply(s, m))
  {
    hide HandlePhase, RetryClock, ManagerEnabled, LoopApply, ReconnectApply, UpdateApply;
    if m.OfReconnect() {
      ReconnectKeepsClock(s, m);
    } else if m.OfUpdate() {
      UpdateKeepsClock(s, m);
    } else {
      LoopKeepsClock(s, m);
    }
  }

  lemma LoopKeepsHandle(s: State, m: ManagerStep)
    requires HandlePhase(s) && StopPhase(s) && StopExclusion(s) && ManagerEnabled(s, m) && !m.OfReconnect() && !m.OfUpdate()
    ensures HandlePhase(LoopApply(s, m))
  {
    hide SomeoneWillPost;
  }

  lemma ReconnectKeepsHandle(s: State, m: ManagerStep)
    requires HandlePhase(s) && StopPhase(s) && StopExclusion(s) && ManagerEnabled(s, m) && m.OfReconnect()
    ensures HandlePhase(ReconnectApply(s, m))
  {
    hide SomeoneWillPost;
  }

  lemma UpdateKeepsHandle(s: State, m: ManagerStep)
    requires HandlePhase(s) && StopPhase(s) && StopExclusion(s) && ManagerEnabled(s, m) && m.OfUpdate()
    ensures HandlePhase(UpdateApply(s, m))
  {
    hide SomeoneWillPost;
  }

  lemma ManagerKeepsHandle(s: State, m: ManagerStep)
    requires HandlePhase(s) && StopPhase(s) && StopExclusion(s) && ManagerEnabled(s, m)
    ensures HandlePhase(ManagerApply(s, m))
  {
    hide StopPhase, StopExclusion, HandlePhase, ManagerEnabled, LoopApply, ReconnectApply, UpdateApply;
    if m.OfReconnect() {
      ReconnectKeepsHandle(s, m);
    } else if m.OfUpdate() {
      UpdateKeepsHandle(s, m);
    } else {
      LoopKeepsHandle(s, m);
    }
  }

  lemma LoopKeepsUpdate(s: State, m: ManagerStep)
    requires HandlePhase(s) && StopPhase(s) && StopExclusion(s) && NoLostUpdate(s) && ManagerEnabled(s, m) && !m.OfReconnect() && !m.OfUpdate()
    ensures NoLostUpdate(LoopApply(s, m))
  {
    hide SomeoneWillPost;
  }

  lemma ReconnectKeepsUpdate(s: State, m: ManagerStep)
    requires HandlePhase(s) && StopPhase(s) && StopExclusion(s) && NoLostUpdate(s) && ManagerEnabled(s, m) && m.OfReconnect()
    ensures NoLostUpdate(ReconnectApply(s, m))
  {
    hide SomeoneWillPost;
  }

  lemma UpdateKeepsUpdate(s: State, m: ManagerStep)
    requires HandlePhase(s) && StopPhase(s) && StopExclusion(s) && NoLostUpdate(s) && ManagerEnabled(s, m) && m.OfUpdate()
    ensures NoLostUpdate(UpdateApply(s, m))
  {
    hide SomeoneWillPost;
  }

  lemma ManagerKeepsUpdate(s: State, m: ManagerStep)
    requires HandlePhase(s) && StopPhase(s) && StopExclusion(s) && NoLostUpdate(s) && ManagerEnabled(s, m)
    ensures NoLostUpdate(ManagerApply(s, m))
  {
    hide StopPhase, StopExclusion, HandlePhase, NoLostUpdate, ManagerEnabled, LoopApply, ReconnectApply, UpdateApply;
    if m.OfReconnect() {
      ReconnectKeepsUpdate(s, m);
    } else if m.OfUpdate() {
      UpdateKeepsUpdate(s, m);
    } else {
      LoopKeepsUpdate(s, m);
    }
  }

  lemma LoopKeepsWakeup(s: State, m: ManagerStep)
    requires LockDiscipline(s) && StopPhase(s) && NoLostWakeup(s) && UnnotifiedIsPolled(s) && ManagerEnabled(s, m) && !m.OfReconnect() && !m.OfUpdate()
    ensures NoLostWakeup(LoopApply(s, m)) && UnnotifiedIsPolled(LoopApply(s, m))
  {
  }

  lemma ReconnectKeepsWakeup(s: State, m: ManagerStep)
    requires LockDiscipline(s) && StopPhase(s) && NoLostWakeup(s) && UnnotifiedIsPolled(s) && ManagerEnabled(s, m) && m.OfReconnect()
    ensures NoLostWakeup(ReconnectApply(s, m)) && UnnotifiedIsPolled(ReconnectApply(s, m))
  {
  }

  lemma UpdateKeepsWakeup(s: State, m: ManagerStep)
    requires LockDiscipline(s) && StopPhase(s) && NoLostWakeup(s) && UnnotifiedIsPolled(s) && ManagerEnabled(s, m) && m.OfUpdate()
    ensures NoLostWakeup(UpdateApply(s, m)) && UnnotifiedIsPolled(UpdateApply(s, m))
  {
  }

  lemma ManagerKeepsWakeup(s: State, m: ManagerStep)
    requires LockDiscipline(s) && StopPhase(s) && NoLostWakeup(s) && UnnotifiedIsPolled(s) && ManagerEnabled(s, m)
    ensures NoLostWakeup(ManagerApply(s, m)) && UnnotifiedIsPolled(ManagerApply(s, m))
  {
    hide LockDiscipline, StopPhase, NoLostWakeup, UnnotifiedIsPolled, ManagerEnabled, LoopApply, ReconnectApply, UpdateApply;
    if m.OfReconnect() {
      ReconnectKeepsWakeup(s, m);
    } else if m.OfUpdate() {
      UpdateKeepsWakeup(s, m);
    } else {
      LoopKeepsWakeup(s, m);
    }
  }

  /** Every step of every thread keeps the invariant. */
  lemma StepInv(s: State, e: Event)
    requires Inv(s) && Enabled(s, e)
    ensures Inv(Apply(s, e))
  {
    hide LockDiscipline, OuterDiscipline, StopPhase, HandlePhase, NoLostUpdate, NoLostWakeup, UnnotifiedIsPolled;
    hide StopExclusion, RetryClock, PosterApply, StopApply, ManagerApply, PosterEnabled, StopEnabled, ManagerEnabled;
    match e
    case Posting(id, p) =>
      PosterKeepsLock(s, id, p);
      PosterKeepsOuter(s, id, p);
      PosterKeepsStop(s, id, p);
      PosterKeepsHandle(s, id, p);
      PosterKeepsUpdate(s, id, p);
      PosterKeepsWakeup(s, id, p);
    case Stopping(q) =>
      StopKeepsLocks(s, q);
      StopKeepsRest(s, q);
    case Managing(m) =>
      ManagerKeepsLock(s, m);
      ManagerKeepsOuter(s, m);
      ManagerKeepsStop(s, m);
      ManagerKeepsClock(s, m);
      ManagerKeepsHandle(s, m);
      ManagerKeepsUpdate(s, m);
      ManagerKeepsWakeup(s, m);
  }

  lemma {:induction false} RunInv(states: seq<State>, events: seq<Event>, i: nat)
    requires IsRun(states, events) && i < |states|
    ensures Inv(states[i])
  {
    hide Inv, Init, Enabled, Apply;
    if i == 0 {
      InitInv(states[0]);
    } else {
      RunInv(states, events, i - 1);
      StepInv(states[i - 1], events[i - 1]);
    }
  }

  // ---------------------------------------------------------------------------------------------
  // Theorems over every run
  // ---------------------------------------------------------------------------------------------

  /**
    When nothing is in progress, a cluster change is outstanding if and only if the list fetched for it
    could not be put to use: no other failure and no interleaving loses one.
   */
  lemma NoUpdateIsLost(states: seq<State>, events: seq<Event>, i: nat)
    requires IsRun(states, events) && i < |states|
    ensures !InProgress(states[i]) ==> (states[i].dirty <==> states[i].lost)
  {
    RunInv(states, events, i);
    hide IsRun, InProgress;
  }

  /** Only a failure in the update itself can do that, and the next update that succeeds makes up for it. */
  lemma LossNeedsFailure(states: seq<State>, events: seq<Event>, i: nat)
    requires IsRun(states, events) && i < |events|
    ensures !states[i].lost && states[i + 1].lost ==> events[i] == Managing(Applied(false)) && states[i].dirty
    ensures events[i] == Managing(Applied(true)) ==> !states[i + 1].lost
  {
    hide Init, PosterApply, StopApply, ManagerApply, PosterEnabled, StopEnabled, ManagerEnabled;
    match events[i] {
      case Posting(id, p) => PosterLeaves(states[i], id, p);
      case Stopping(q) => StopLeavesLost(states[i], q);
      case Managing(m) => ManagerLoses(states[i], m);
    }
  }

  lemma StopLeavesLost(s: State, q: StopStep)
    requires StopEnabled(s, q)
    ensures StopApply(s, q).lost == s.lost
  {
  }

  lemma UpdateLoses(s: State, m: ManagerStep)
    requires ManagerEnabled(s, m) && m.OfUpdate()
    ensures UpdateApply(s, m).lost == (if m.Applied? then !m.done && s.dirty else s.lost)
  {
  }

  lemma ReconnectLoses(s: State, m: ManagerStep)
    requires ManagerEnabled(s, m) && m.OfReconnect()
    ensures ReconnectApply(s, m).lost == s.lost
  {
  }

  lemma LoopLoses(s: State, m: ManagerStep)
    requires ManagerEnabled(s, m) && !m.OfReconnect() && !m.OfUpdate()
    ensures LoopApply(s, m).lost == s.lost
  {
  }

  lemma ManagerLoses(s: State, m: ManagerStep)
    requires ManagerEnabled(s, m)
    ensures ManagerApply(s, m).lost == (if m.Applied? then !m.done && s.dirty else s.lost)
  {
    hide ManagerEnabled, LoopApply, ReconnectApply, UpdateApply;
    if m.OfReconnect() {
      ReconnectLoses(s, m);
    } else if m.OfUpdate() {
      UpdateLoses(s, m);
    } else {
      LoopLoses(s, m);
    }
  }

  /** No wake-up is lost, and requests made without a notification are polled for. */
  lemma NoWakeupIsLost(states: seq<State>, events: seq<Event>, i: nat)
    requires IsRun(states, events) && i < |states|
    ensures NoLostWakeup(states[i]) && UnnotifiedIsPolled(states[i])
  {
    RunInv(states, events, i);
  }

  /** Both together: the manager sleeps on an outstanding change only while a callback is about to post it. */
  lemma NeverOversleeps(states: seq<State>, events: seq<Event>, i: nat)
    requires IsRun(states, events) && i < |states|
    requires states[i].dirty && !states[i].lost && !states[i].reqstop && states[i].pc == Sleep(false, false)
    ensures SomeoneWillPost(states[i].posters) || AboutToWake(states[i])
  {
    RunInv(states, events, i);
    hide IsRun, SomeoneWillPost;
  }

  /** zookeeper_close never overlaps the manager's ZooKeeper calls; a stop lets one request finish. */
  lemma StopIsExclusive(states: seq<State>, events: seq<Event>, i: nat)
    requires IsRun(states, events) && i < |states|
    ensures states[i].stopper.PastManager() ==> !states[i].pc.UsesZooKeeper() && !states[i].Running()
    ensures states[i].stopper.ClosingInside? ==> states[i].outer == ByStopper
    ensures states[i].pc.ClosingIn? || states[i].pc.UndoingIn? ==> states[i].outer == ByManager
    ensures states[i].finishedAfterStop <= 1
  {
    RunInv(states, events, i);
    hide IsRun;
  }

  lemma RetryEndsInLoop(s: State, m: ManagerStep)
    requires RetryClock(s) && ManagerEnabled(s, m) && !m.OfReconnect() && !m.OfUpdate()
    requires s.reconnectRetry && !LoopApply(s, m).reconnectRetry
    ensures m == Dispatch && s.elapsed == 10 * POLL_MS && LoopApply(s, m).pc == Closing
  {
  }

  lemma RetryStays(s: State, m: ManagerStep)
    requires ManagerEnabled(s, m) && s.reconnectRetry
    ensures m.OfReconnect() ==> ReconnectApply(s, m).reconnectRetry
    ensures m.OfUpdate() ==> UpdateApply(s, m).reconnectRetry
  {
  }

  lemma RetryEnds(s: State, m: ManagerStep)
    requires RetryClock(s) && ManagerEnabled(s, m) && s.reconnectRetry && !ManagerApply(s, m).reconnectRetry
    ensures m == Dispatch && s.elapsed == 10 * POLL_MS && ManagerApply(s, m).pc == Closing
  {
    hide ManagerEnabled, LoopApply, ReconnectApply, UpdateApply, RetryClock;
    RetryStays(s, m);
    if !m.OfReconnect() && !m.OfUpdate() {
      RetryEndsInLoop(s, m);
    }
  }

  /** What other threads can change of the manager: the signal that reaches it while it sleeps. */
  predicate ManagerUntouched(s: State, t: State) {
    && t.reconnectRetry == s.reconnectRetry
    && (s.reqstop ==> t.reqstop)
    && (t.pc == s.pc || (t.pc.Sleep? && s.pc.Sleep?))
  }

  lemma PosterKeepsManager(s: State, id: nat, p: PosterStep)
    requires PosterEnabled(s, id, p)
    ensures ManagerUntouched(s, PosterApply(s, id, p))
  {
  }

  lemma StopKeepsManager(s: State, q: StopStep)
    requires StopEnabled(s, q)
    ensures ManagerUntouched(s, StopApply(s, q))
  {
  }

  /** A failed reconnect stays pending until ten polls have passed, and only then is tried again. */
  lemma ReconnectIsRetried(states: seq<State>, events: seq<Event>, i: nat)
    requires IsRun(states, events) && i < |events|
    requires states[i].reconnectRetry && !states[i + 1].reconnectRetry
    ensures events[i] == Managing(Dispatch) && states[i].elapsed == 10 * POLL_MS && states[i + 1].pc == Closing
  {
    RunInv(states, events, i);
    hide PosterApply, StopApply, ManagerApply, PosterEnabled, StopEnabled, ManagerEnabled, Init;
    match events[i] {
      case Managing(m) => RetryEnds(states[i], m);
      case Posting(id, p) => PosterKeepsManager(states[i], id, p);
      case Stopping(q) => StopKeepsManager(states[i], q);
    }
  }

  // ---------------------------------------------------------------------------------------------
  // Closing ends
  // ---------------------------------------------------------------------------------------------

  /** How many steps the manager can still take once the stop flag is set. */
  function StopRank(pc: Pc): nat {
    match pc
    case Gone => 0
    case Leaving => 1
    case Top => 2
    case ApplyingIn => 3
    case FetchFailed => 3
    case Reposting => 3
    case UndoingIn => 3
    case Applying => 4
    case Undoing => 4
    case Fetching(snapshot) => if snapshot then 5 else 6
    case Joining => 5
    case ValidatingIn => 6
    case Validating => 7
    case Waiting => 8
    case ConnectingIn => 9
    case Connecting => 10
    case ClosingIn => 11
    case Closing => 12
    case Decide => 13
    case Check => 14
    case Take => 15
    case Test => 16
    case Acquire => 17
    case Rewake(_) => 17
    case Sleep(_, _) => 18
  }

  lemma RankBound(pc: Pc)
    ensures StopRank(pc) <= 18
  {
  }

  function ManagerSteps(events: seq<Event>): nat {
    if events == [] then 0 else (if events[0].Managing? then 1 else 0) + ManagerSteps(events[1..])
  }

  lemma LoopRankDrops(s: State, m: ManagerStep)
    requires ManagerEnabled(s, m) && s.reqstop && !m.OfReconnect() && !m.OfUpdate()
    ensures LoopApply(s, m).reqstop && StopRank(LoopApply(s, m).pc) < StopRank(s.pc)
  {
  }

  lemma ReconnectRankDrops(s: State, m: ManagerStep)
    requires ManagerEnabled(s, m) && s.reqstop && m.OfReconnect()
    ensures ReconnectApply(s, m).reqstop && StopRank(ReconnectApply(s, m).pc) < StopRank(s.pc)
  {
  }

  lemma UpdateRankDrops(s: State, m: ManagerStep)
    requires ManagerEnabled(s, m) && s.reqstop && m.OfUpdate()
    ensures UpdateApply(s, m).reqstop && StopRank(UpdateApply(s, m).pc) < StopRank(s.pc)
  {
  }

  lemma ManagerRankDrops(s: State, m: ManagerStep)
    requires ManagerEnabled(s, m) && s.reqstop
    ensures ManagerApply(s, m).reqstop && StopRank(ManagerApply(s, m).pc) < StopRank(s.pc)
  {
    hide ManagerEnabled, LoopApply, ReconnectApply, UpdateApply, StopRank;
    if m.OfReconnect() {
      ReconnectRankDrops(s, m);
    } else if m.OfUpdate() {
      UpdateRankDrops(s, m);
    } else {
      LoopRankDrops(s, m);
    }
  }

  lemma StopRankDrops(s: State, e: Event, t: State)
    requires Enabled(s, e) && t == Apply(s, e) && s.reqstop
    ensures t.reqstop
    ensures (if e.Managing? then 1 else 0) + StopRank(t.pc) <= StopRank(s.pc)
  {
    hide PosterApply, StopApply, ManagerApply, PosterEnabled, StopEnabled, ManagerEnabled;
    match e
    case Managing(m) => ManagerRankDrops(s, m);
    case Posting(id, p) => PosterKeepsManager(s, id, p);
    case Stopping(q) => StopKeepsManager(s, q);
  }

  /** Once the stop flag is set the manager takes at most 18 more steps, in any interleaving. */
  lemma {:induction false} StopTerminates(states: seq<State>, events: seq<Event>, i: nat, j: nat)
    requires IsRun(states, events) && i <= j < |states| && states[i].reqstop
    ensures StopRank(states[i].pc) <= 18
    ensures ManagerSteps(events[i..j]) + StopRank(states[j].pc) <= StopRank(states[i].pc)
    decreases j - i
  {
    hide Enabled, Apply, Init, StopRank;
    RankBound(states[i].pc);
    if i == j {
      assert events[i..j] == [];
    } else {
      StopRankDrops(states[i], events[i], states[i + 1]);
      StopTerminates(states, events, i + 1, j);
      assert events[i..j][1..] == events[i + 1..j];
    }
  }

  /** A step a thread makes on its own account: everything but a new event and a spurious wake-up. */
  ghost predicate Unforced(s: State, e: Event) {
    Enabled(s, e) && !(e.Posting? && e.p.Deliver?) && (e == Managing(WakeUp) ==> s.pc.timed || s.pc.signalled)
  }

  /** The step of the closing thread, of the manager, or of a thread that holds a mutex. */
  ghost predicate Helps(s: State, e: Event) {
    e.Stopping? || e.Managing? || (e.Posting? && (s.lock == ByPoster(e.id) || s.outer == ByPoster(e.id)))
  }

  /** The next step of whoever holds the manager's mutex: it waits for nothing. */
  function InnerStep(s: State): Event
    requires s.lock.ByPoster? ==> s.lock.id in s.posters
  {
    match s.lock
    case ByPoster(id) =>
      Posting(id, if s.posters[id].Holding? then RaiseFlag else if s.posters[id].Raised? then Wake else Unlock)
    case ByStopper => Stopping(if s.stopper.InWakeup? then StopWake else StopUnlock)
    case _ => Managing(if s.pc.Test? then TestNotification else TakeRequest)
  }

  lemma InnerMoves(s: State)
    requires LockDiscipline(s) && s.lock != Free
    ensures Unforced(s, InnerStep(s)) && Helps(s, InnerStep(s))
  {
  }

  /** The next step of whoever holds lock_arcus: it waits at most for the manager's mutex. */
  function OuterStep(s: State): Event
    requires s.outer.ByPoster? ==> s.outer.id in s.posters
  {
    match s.outer
    case ByPoster(id) => Posting(id, if s.posters[id].Wanting? then Lock else LeaveOuter)
    case ByStopper => Stopping(if s.stopper.Asking? then StopLeave else StopClosed)
    case _ => Managing(
      match s.pc
      case ClosingIn => CloseReturned(true)
      case ConnectingIn => InitReturned(false)
      case ValidatingIn => Validated(false)
      case UndoingIn => Undone
      case _ => Applied(true))
  }

  lemma OuterMoves(s: State)
    requires LockDiscipline(s) && OuterDiscipline(s) && s.lock == Free && s.outer != Free
    ensures Unforced(s, OuterStep(s)) && Helps(s, OuterStep(s))
  {
  }

  /** The next step of the manager when both mutexes are free. */
  function NextManager(s: State): ManagerStep {
    match s.pc
    case Top => LoopTest
    case Acquire => LockForTest
    case Sleep(_, _) => WakeUp
    case Rewake(_) => Relock
    case Check => CheckStop
    case Decide => Dispatch
    case Closing => CloseLock
    case Connecting => ConnectLock
    case Waiting => SessionReturned(false)
    case Validating => ValidateLock
    case Joining => Joined(false)
    case Undoing => UndoLock
    case Reposting => Repost
    case Fetching(_) => FetchReturned(false)
    case FetchFailed => RequestAgain
    case Applying => ApplyLock
    case _ => Leave
  }

  lemma ManagerMoves(s: State)
    requires LockDiscipline(s) && OuterDiscipline(s) && NoLostWakeup(s) && s.stopper.PastWakeup()
    requires s.lock == Free && s.outer == Free && s.Running()
    ensures Unforced(s, Managing(NextManager(s)))
  {
  }

  /** The next step of the closing thread when both mutexes are free. */
  function NextStop(s: State): StopStep {
    match s.stopper
    case Asked => StopRequest
    case WantLock => StopLock
    case Spinning => StopSeen
    case _ => StopCloseLock
  }

  lemma StopperMoves(s: State)
    requires LockDiscipline(s) && OuterDiscipline(s) && StopPhase(s) && s.lock == Free && s.outer == Free
    requires !s.stopper.Idle? && !s.stopper.Closed? && (s.stopper.Spinning? ==> !s.Running())
    ensures Unforced(s, Stopping(NextStop(s)))
  {
  }

  /**
    arcus_close never deadlocks: from its first step to its last, it can move, or the manager can, or a
    thread that holds one of the two mutexes can.
   */
  lemma StopNeverDeadlocks(states: seq<State>, events: seq<Event>, i: nat)
    requires IsRun(states, events) && i < |states|
    requires !states[i].stopper.Idle? && !states[i].stopper.Closed?
    ensures exists e :: Unforced(states[i], e) && Helps(states[i], e)
  {
    RunInv(states, events, i);
    var s := states[i];
    hide IsRun, Unforced, Helps, InnerStep, OuterStep, NextManager, NextStop, HandlePhase, NoLostUpdate, RetryClock;
    if s.lock != Free {
      InnerMoves(s);
    } else if s.outer != Free {
      OuterMoves(s);
    } else if s.stopper.Spinning? && s.Running() {
      ManagerMoves(s);
      OwnStepHelps(s, Managing(NextManager(s)));
    } else {
      StopperMoves(s);
      OwnStepHelps(s, Stopping(NextStop(s)));
    }
  }

  lemma OwnStepHelps(s: State, e: Event)
    requires e.Stopping? || e.Managing?
    ensures Helps(s, e)
  {
  }

  // ---------------------------------------------------------------------------------------------
  // A run that loses a change
  // ---------------------------------------------------------------------------------------------

  /** The manager, alone with its first request, from its start to its second sleep. */
  function LosingPc(i: nat): Pc {
    match i
    case 0 => Top
    case 1 => Acquire
    case 2 => Test
    case 3 => Take
    case 4 => Check
    case 5 => Decide
    case 6 => Fetching(false)
    case 7 => Fetching(true)
    case 8 => Applying
    case 9 => ApplyingIn
    case 10 => Top
    case 11 => Acquire
    case 12 => Test
    case _ => Sleep(false, false)
  }

  function LosingStep(i: nat): ManagerStep {
    match i
    case 0 => LoopTest
    case 1 => LockForTest
    case 2 => TestNotification
    case 3 => TakeRequest
    case 4 => CheckStop
    case 5 => Dispatch
    case 6 => ChildrenRead
    case 7 => FetchReturned(true)
    case 8 => ApplyLock
    case 9 => Applied(false)
    case 10 => LoopTest
    case 11 => LockForTest
    case _ => TestNotification
  }

  function LosingState(i: nat): State {
    State(if i <= 3 then Request(false, true) else NO_REQUEST, i <= 3, false,
          if i in {2, 3, 12} then ByManager else Free, if i == 9 then ByManager else Free, true,
          LosingPc(i), if i <= 3 then NO_REQUEST else Request(false, true), false, false, 0,
          map[], Idle, true, false, i >= 10, 0)
  }

  lemma LosingLoop(i: nat)
    requires i < 6 || 10 <= i < 13
    ensures ManagerEnabled(LosingState(i), LosingStep(i)) && LoopApply(LosingState(i), LosingStep(i)) == LosingState(i + 1)
    ensures !LosingStep(i).OfReconnect() && !LosingStep(i).OfUpdate()
  {
  }

  lemma LosingUpdate(i: nat)
    requires 6 <= i < 10
    ensures LosingStep(i).OfUpdate() && !LosingStep(i).OfReconnect()
    ensures ManagerEnabled(LosingState(i), LosingStep(i)) && UpdateApply(LosingState(i), LosingStep(i)) == LosingState(i + 1)
  {
  }

  lemma LosingStepIs(i: nat)
    requires i < 13
    ensures Enabled(LosingState(i), Managing(LosingStep(i))) && Apply(LosingState(i), Managing(LosingStep(i))) == LosingState(i + 1)
  {
    hide LosingState, LosingStep, ManagerEnabled, LoopApply, UpdateApply, ReconnectApply;
    if 6 <= i < 10 {
      LosingUpdate(i);
    } else {
      LosingLoop(i);
    }
  }

  lemma LosingEnds()
    ensures Init(LosingState(0)) && LosingState(13).dirty && LosingState(13).lost && LosingState(13).pc == Sleep(false, false)
    ensures !InProgress(LosingState(13))
  {
  }

  /**
    The condition is needed: the list is fetched, putting it to use fails, and the manager goes to sleep until
    somebody else wakes it up, with the change outstanding and nothing in progress.
   */
  lemma FailedUpdateIsLost() returns (states: seq<State>, events: seq<Event>)
    ensures IsRun(states, events)
    ensures var s := states[|states| - 1]; s.dirty && s.lost && !InProgress(s) && s.pc == Sleep(false, false)
  {
    hide LosingState, LosingStep, Enabled, Apply, Init, InProgress;
    states, events := seq(14, (i: nat) => LosingState(i)), seq(13, (i: nat) => Managing(LosingStep(i)));
    LosingEnds();
    forall i | 0 <= i < 13
      ensures Enabled(states[i], events[i]) && states[i + 1] == Apply(states[i], events[i])
    {
      LosingStepIs(i);
    }
  }
}
