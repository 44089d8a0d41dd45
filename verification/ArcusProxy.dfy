/**
  The list shared between an Arcus proxy and its clients: one publisher rewrites a version, a size
  and a string in shared memory; any number of clients without a pool compare versions outside the
  lock and copy the list inside it. Every access to the shared data is a step of its own, so a
  half-written list is part of the model.
 */
module ArcusProxy {

  type ServerList = seq<string>

  datatype Owner = Free | ByPublisher | ByReader(id: nat)

  /** do_arcus_proxy_update_cachelist; Writing(l, k) has stored the first k names of l. */
  datatype Publisher =
    | Idle
    | Wants(list: ServerList)
    | Writing(list: ServerList, done: nat)
    | Sized(list: ServerList)
    | Published
  {
    predicate HasLock() { Writing? || Sized? || Published? }
  }

  /** arcus_server_check_for_update without a pool. */
  datatype Phase = Resting | Wanting | Locked | HasVersion | HasSize | HasApplied | Recorded {
    predicate HasLock() { Locked? || HasVersion? || HasSize? || HasApplied? || Recorded? }
  }

  datatype Reader = Reader(
    phase: Phase,
    version: nat,            // local variable
    size: nat,               // local variable
    current: nat,            // proxy.current_version
    applied: ServerList,     // the server list of the client
    gotMemory: bool,         // did the last refresh get its memory? (true before the first one)
    appliedVersion: nat      // history: the version `applied` was published as
  )

  datatype State = State(
    version: nat,
    size: nat,
    serverlist: ServerList,
    lock: Owner,
    publisher: Publisher,
    readers: map<nat, Reader>,
    published: seq<ServerList>   // history: the list published as each version
  )

  datatype PublisherStep = Start(list: ServerList) | PLock | WriteName | SetSize | BumpVersion | PUnlock
  datatype ReaderStep = CompareVersion | RLock | ReadVersion | ReadSize | Refresh(gotMemory: bool) | Record | RUnlock
  datatype Event = Publish(p: PublisherStep) | Check(id: nat, r: ReaderStep)

  ghost predicate Init(s: State) {
    && s.version == 0 && s.size == 0 && s.serverlist == [] && s.lock == Free
    && s.publisher == Idle && s.published == [[]]
    && forall id :: id in s.readers ==> s.readers[id] == Reader(Resting, 0, 0, 0, [], true, 0)
  }

  predicate PublisherEnabled(s: State, p: PublisherStep) {
    match p
    case Start(_) => s.publisher.Idle?
    case PLock => s.publisher.Wants? && s.lock == Free
    case WriteName => s.publisher.Writing? && s.publisher.done < |s.publisher.list|
    case SetSize => s.publisher.Writing? && s.publisher.done == |s.publisher.list|
    case BumpVersion => s.publisher.Sized?
    case PUnlock => s.publisher.Published?
  }

  function PublisherApply(s: State, p: PublisherStep): State
    requires PublisherEnabled(s, p)
  {
    match p
    case Start(list) => s.(publisher := Wants(list))
    case PLock => s.(lock := ByPublisher, publisher := Writing(s.publisher.list, 0))
    case WriteName =>
      s.(serverlist := s.publisher.list[..s.publisher.done + 1],
         publisher := Writing(s.publisher.list, s.publisher.done + 1))
    case SetSize =>
      // an empty vector still has to empty the string
      s.(serverlist := s.publisher.list, size := |s.publisher.list|, publisher := Sized(s.publisher.list))
    case BumpVersion =>
      s.(version := s.version + 1, publisher := Published, published := s.published + [s.publisher.list])
    case PUnlock => s.(lock := Free, publisher := Idle)
  }

  predicate ReaderEnabled(s: State, id: nat, r: ReaderStep) {
    id in s.readers &&
    match r
    case CompareVersion => s.readers[id].phase.Resting?
    case RLock => s.readers[id].phase.Wanting? && s.lock == Free
    case ReadVersion => s.readers[id].phase.Locked?
    case ReadSize => s.readers[id].phase.HasVersion?
    case Refresh(_) => s.readers[id].phase.HasSize?
    case Record => s.readers[id].phase.HasApplied?
    case RUnlock => s.readers[id].phase.Recorded?
  }

  function ReaderAfter(s: State, me: Reader, r: ReaderStep): Reader {
    match r
    case CompareVersion => me.(phase := if s.version != me.current then Wanting else Resting)
    case RLock => me.(phase := Locked)
    case ReadVersion => me.(phase := HasVersion, version := s.version)
    case ReadSize => me.(phase := HasSize, size := s.size)
    case Refresh(gotMemory) =>
      me.(phase := HasApplied, gotMemory := gotMemory,
          applied := if !gotMemory then me.applied else if me.size > 0 then s.serverlist else [],
          appliedVersion := if gotMemory then me.version else me.appliedVersion)
    case Record => me.(phase := Recorded, current := me.version)
    case RUnlock => me.(phase := Resting)
  }

  function ReaderApply(s: State, id: nat, r: ReaderStep): State
    requires ReaderEnabled(s, id, r)
  {
    s.(readers := s.readers[id := ReaderAfter(s, s.readers[id], r)],
       lock := if r.RLock? then ByReader(id) else if r.RUnlock? then Free else s.lock)
  }

  predicate Enabled(s: State, e: Event) {
    match e
    case Publish(p) => PublisherEnabled(s, p)
    case Check(id, r) => ReaderEnabled(s, id, r)
  }

  function Apply(s: State, e: Event): State
    requires Enabled(s, e)
  {
    match e
    case Publish(p) => PublisherApply(s, p)
    case Check(id, r) => ReaderApply(s, id, r)
  }

  ghost predicate IsRun(states: seq<State>, events: seq<Event>) {
    && |states| == |events| + 1
    && Init(states[0])
    && forall i :: 0 <= i < |events| ==>
         Enabled(states[i], events[i]) && states[i + 1] == Apply(states[i], events[i])
  }

  // ---------------------------------------------------------------------------------------------
  // The invariant
  // ---------------------------------------------------------------------------------------------

  /** The shared data, seen by whoever holds the lock and is not the publisher. */
  ghost predicate SharedValid(s: State) {
    && |s.published| == s.version + 1
    && (s.lock == ByPublisher <==> s.publisher.HasLock())
    && (s.publisher.Writing? ==> s.publisher.done <= |s.publisher.list|)
    && (!s.publisher.Writing? && !s.publisher.Sized? ==>
          s.serverlist == s.published[s.version] && s.size == |s.serverlist|)
    && (s.publisher.Sized? ==> s.serverlist == s.publisher.list && s.size == |s.serverlist|)
  }

  ghost predicate ReaderValid(s: State, id: nat, me: Reader) {
    && (me.phase.HasLock() <==> s.lock == ByReader(id))
    && me.appliedVersion < |s.published| && me.applied == s.published[me.appliedVersion]
    && me.current <= s.version
    && (me.phase.Wanting? || me.phase.Locked? ==> me.current < s.version)
    && (me.phase.HasVersion? || me.phase.HasSize? || me.phase.HasApplied? || me.phase.Recorded? ==>
          me.version == s.version)
    && (me.phase.HasVersion? || me.phase.HasSize? || me.phase.HasApplied? ==> me.current < s.version)
    && (me.phase.HasSize? ==> me.size == s.size)
    && (me.phase.Recorded? ==> me.current == s.version)
    && SnapshotConsistent(me)
  }

  /**
    Unless it has refreshed its list and not yet recorded the version, a client holds exactly the
    list published as its recorded version, if its last refresh got memory, and an older one if not.
   */
  ghost predicate SnapshotConsistent(me: Reader) {
    if me.phase.HasApplied? then me.appliedVersion == me.version <==> me.gotMemory
    else me.appliedVersion <= me.current && (me.appliedVersion == me.current <==> me.gotMemory)
  }

  ghost predicate Inv(s: State) {
    SharedValid(s) && forall id :: id in s.readers ==> ReaderValid(s, id, s.readers[id])
  }

  lemma PublisherKeepsInv(s: State, p: PublisherStep)
    requires Inv(s) && PublisherEnabled(s, p)
    ensures Inv(PublisherApply(s, p))
  {
  }

  lemma ReaderKeepsInv(s: State, id: nat, r: ReaderStep)
    requires Inv(s) && ReaderEnabled(s, id, r)
    ensures Inv(ReaderApply(s, id, r))
  {
  }

  lemma {:induction false} RunInv(states: seq<State>, events: seq<Event>, i: nat)
    requires IsRun(states, events) && i < |states|
    ensures Inv(states[i])
  {
    if i > 0 {
      RunInv(states, events, i - 1);
      match events[i - 1] {
        case Publish(p) => PublisherKeepsInv(states[i - 1], p);
        case Check(id, r) => ReaderKeepsInv(states[i - 1], id, r);
      }
    }
  }

  // ---------------------------------------------------------------------------------------------
  // Theorems over every run
  // ---------------------------------------------------------------------------------------------

  /**
    Between checks a client has exactly the list published as the version it recorded, in every
    interleaving, if and only if its last refresh got memory; otherwise its list is an older one.
   */
  lemma ClientsHoldAPublishedList(states: seq<State>, events: seq<Event>, i: nat, id: nat)
    requires IsRun(states, events) && i < |states|
    requires id in states[i].readers && states[i].readers[id].phase.Resting?
    ensures var s, me := states[i], states[i].readers[id];
            && me.current < |s.published| && me.appliedVersion < |s.published|
            && me.applied == s.published[me.appliedVersion]
            && (me.gotMemory ==> me.applied == s.published[me.current])
            && (me.appliedVersion == me.current <==> me.gotMemory)
            && me.appliedVersion <= me.current
  {
    RunInv(states, events, i);
  }

  /** A check that went through the lock leaves the client at the newest version. */
  lemma RefreshIsCurrent(states: seq<State>, events: seq<Event>, i: nat, id: nat)
    requires IsRun(states, events) && i < |events| && events[i] == Check(id, RUnlock)
    ensures states[i + 1].readers[id].current == states[i + 1].version
  {
    RunInv(states, events, i);
  }

  lemma PublisherMovesForward(s: State, p: PublisherStep)
    requires PublisherEnabled(s, p)
    ensures s.published <= PublisherApply(s, p).published && PublisherApply(s, p).readers == s.readers
  {
  }

  lemma ReaderMovesForward(s: State, id: nat, r: ReaderStep)
    requires Inv(s) && ReaderEnabled(s, id, r)
    ensures ReaderApply(s, id, r).published == s.published && ReaderApply(s, id, r).readers.Keys == s.readers.Keys
    ensures forall k :: k in s.readers ==> s.readers[k].current <= ReaderApply(s, id, r).readers[k].current
  {
    assert ReaderValid(s, id, s.readers[id]);
  }

  /** Recorded versions never go back, and what was published as a version never changes. */
  lemma {:induction false} VersionsNeverGoBack(states: seq<State>, events: seq<Event>, i: nat, j: nat)
    requires IsRun(states, events) && i <= j < |states|
    ensures states[i].published <= states[j].published
    ensures forall id :: id in states[i].readers ==>
              id in states[j].readers && states[i].readers[id].current <= states[j].readers[id].current
    decreases j - i
  {
    if i < j {
      RunInv(states, events, i);
      match events[i] {
        case Publish(p) => PublisherMovesForward(states[i], p);
        case Check(id, r) => ReaderMovesForward(states[i], id, r);
      }
      assert states[i].readers.Keys == states[i + 1].readers.Keys;
      VersionsNeverGoBack(states, events, i + 1, j);
    }
  }

  function Last(states: seq<State>): State
    requires states != []
  {
    states[|states| - 1]
  }

  lemma Extend(states: seq<State>, events: seq<Event>, e: Event) returns (states': seq<State>, events': seq<Event>)
    requires IsRun(states, events) && Enabled(Last(states), e)
    ensures IsRun(states', events') && Last(states') == Apply(Last(states), e)
  {
    states', events' := states + [Apply(Last(states), e)], events + [e];
  }

  /** One publication, start to end. */
  lemma PublishOnce(l: ServerList, readers: map<nat, Reader>) returns (states: seq<State>, events: seq<Event>)
    requires |l| == 1 && Init(State(0, 0, [], Free, Idle, readers, [[]]))
    ensures IsRun(states, events) && Last(states) == State(1, 1, l, Free, Idle, readers, [[], l])
  {
    states, events := [State(0, 0, [], Free, Idle, readers, [[]])], [];
    states, events := Extend(states, events, Publish(Start(l)));
    assert Last(states) == State(0, 0, [], Free, Wants(l), readers, [[]]);
    states, events := Extend(states, events, Publish(PLock));
    assert Last(states) == State(0, 0, [], ByPublisher, Writing(l, 0), readers, [[]]);
    states, events := Extend(states, events, Publish(WriteName));
    assert Last(states) == State(0, 0, l, ByPublisher, Writing(l, 1), readers, [[]]);
    states, events := Extend(states, events, Publish(SetSize));
    assert Last(states) == State(0, 1, l, ByPublisher, Sized(l), readers, [[]]);
    states, events := Extend(states, events, Publish(BumpVersion));
    states, events := Extend(states, events, Publish(PUnlock));
  }

  /** After that publication, with one client in a given condition. */
  function AfterPublish(l: ServerList, me: Reader, lock: Owner): State {
    State(1, 1, l, lock, Idle, map[0 := me], [[], l])
  }

  lemma CheckStep(states: seq<State>, events: seq<Event>, l: ServerList, me: Reader, lock: Owner, r: ReaderStep)
    returns (states': seq<State>, events': seq<Event>)
    requires IsRun(states, events) && Last(states) == AfterPublish(l, me, lock)
    requires ReaderEnabled(AfterPublish(l, me, lock), 0, r)
    ensures IsRun(states', events')
    ensures Last(states') == AfterPublish(l, ReaderAfter(AfterPublish(l, me, lock), me, r),
                                          if r.RLock? then ByReader(0) else if r.RUnlock? then Free else lock)
  {
    states', events' := Extend(states, events, Check(0, r));
    assert map[0 := me][0 := ReaderAfter(AfterPublish(l, me, lock), me, r)]
        == map[0 := ReaderAfter(AfterPublish(l, me, lock), me, r)];
  }

  /** The condition is needed: a refresh without memory records a version whose list it does not have. */
  lemma RefreshWithoutMemoryIsStale(l: ServerList) returns (states: seq<State>, events: seq<Event>)
    requires |l| == 1
    ensures IsRun(states, events)
    ensures var s := Last(states);
            && 0 in s.readers && s.readers[0].phase.Resting?
            && s.readers[0].current == 1 && s.published == [[], l] && s.readers[0].applied == []
  {
    var me := Reader(Resting, 0, 0, 0, [], true, 0);
    states, events := PublishOnce(l, map[0 := me]);
    states, events := CheckStep(states, events, l, me, Free, CompareVersion);
    states, events := CheckStep(states, events, l, Reader(Wanting, 0, 0, 0, [], true, 0), Free, RLock);
    states, events := CheckStep(states, events, l, Reader(Locked, 0, 0, 0, [], true, 0), ByReader(0), ReadVersion);
    states, events := CheckStep(states, events, l, Reader(HasVersion, 1, 0, 0, [], true, 0), ByReader(0), ReadSize);
    states, events := CheckStep(states, events, l, Reader(HasSize, 1, 1, 0, [], true, 0), ByReader(0), Refresh(false));
    states, events := CheckStep(states, events, l, Reader(HasApplied, 1, 1, 0, [], false, 0), ByReader(0), Record);
    states, events := CheckStep(states, events, l, Reader(Recorded, 1, 1, 1, [], false, 0), ByReader(0), RUnlock);
  }
}
