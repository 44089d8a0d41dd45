/**
  What becomes of an event, by its kind: an expired or refused session leads to a new client, and to nothing
  else; a changed list of children to a fetch. Runs are those of the manager protocol, and what has happened
  in a run is read off its events.
 */
module ArcusSessions {
  import opened ArcusManager

  // ---------------------------------------------------------------------------------------------
  // What has happened
  // ---------------------------------------------------------------------------------------------

  predicate IsDelivery(e: Event, kind: Kind) { e.Posting? && e.p == Deliver(kind) }

  /** A session event was delivered since the client in use was created. */
  ghost predicate Expired(events: seq<Event>, n: nat)
    requires n <= |events|
  {
    n > 0 &&
    (IsDelivery(events[n - 1], SessionEvent) || (events[n - 1] != Managing(InitReturned(true)) && Expired(events, n - 1)))
  }

  /** How many of the first n events are deliveries of this kind. */
  ghost function Deliveries(events: seq<Event>, n: nat, kind: Kind): nat
    requires n <= |events|
  {
    if n == 0 then 0 else Deliveries(events, n - 1, kind) + if IsDelivery(events[n - 1], kind) then 1 else 0
  }

  /** A new client is ready, a fetch is over, another fetch is asked for. */
  datatype Landmark = Connected | Fetched | AskedAgain {
    predicate Is(m: ManagerStep) {
      match this
      case Connected => m.Repost?
      case Fetched => m.FetchReturned?
      case AskedAgain => m.RequestAgain?
    }
  }

  /** How many of the first n events are such. */
  ghost function Count(events: seq<Event>, n: nat, what: Landmark): nat
    requires n <= |events|
  {
    if n == 0 then 0
    else Count(events, n - 1, what) + if events[n - 1].Managing? && what.Is(events[n - 1].m) then 1 else 0
  }

  function One(b: bool): nat { if b then 1 else 0 }

  // ---------------------------------------------------------------------------------------------
  // A session event leads to a new client
  // ---------------------------------------------------------------------------------------------

  /** A session callback is on its way to the manager. */
  ghost predicate SomeoneReports(posters: map<nat, Poster>) {
    exists id :: id in posters && posters[id].Unposted() && posters[id].kind == SessionEvent
  }

  /** The old client is being closed or the new one created. */
  predicate Replacing(pc: Pc) { pc.Closing? || pc.ClosingIn? || pc.Connecting? || pc.ConnectingIn? }

  /** The manager has read the reconnect flag and not yet acted on it. */
  predicate HoldsReconnect(s: State) { (s.pc.Check? || s.pc.Decide?) && s.zkreq.reconnect }

  /** The client is going to be replaced, or arcus_close makes it pointless. */
  ghost predicate ReconnectDue(s: State) {
    SomeoneReports(s.posters) || s.request.reconnect || HoldsReconnect(s) || s.reconnectRetry || Replacing(s.pc) || s.reqstop
  }

  lemma StillReporting(s: State, id: nat, p: PosterStep)
    requires HandlePhase(s) && StopPhase(s) && PosterEnabled(s, id, p) && ReconnectDue(s)
    ensures ReconnectDue(PosterApply(s, id, p))
  {
    PosterLeaves(s, id, p);
    PosterChanges(s, id, p);
    var t := PosterApply(s, id, p);
    if SomeoneReports(s.posters) {
      var w :| w in s.posters && s.posters[w].Unposted() && s.posters[w].kind == SessionEvent;
      if w != id {
        assert t.posters[w] == s.posters[w];
      } else if p.RaiseFlag? {
        assert t.request.reconnect;
      } else if w in t.posters {
        assert t.posters[w].Unposted() && t.posters[w].kind == SessionEvent;
      } else {
        assert !s.handle || !s.Running();
      }
    }
  }

  lemma DeliveryReports(s: State, id: nat)
    requires PosterEnabled(s, id, Deliver(SessionEvent))
    ensures ReconnectDue(PosterApply(s, id, Deliver(SessionEvent)))
  {
    assert PosterApply(s, id, Deliver(SessionEvent)).posters[id] == Delivered(SessionEvent);
  }

  lemma StopKeepsDue(s: State, q: StopStep)
    requires StopEnabled(s, q) && ReconnectDue(s)
    ensures ReconnectDue(StopApply(s, q))
  {
    hide SomeoneReports;
  }

  lemma LoopKeepsDue(s: State, m: ManagerStep)
    requires StopPhase(s) && ManagerEnabled(s, m) && !m.OfReconnect() && !m.OfUpdate() && ReconnectDue(s)
    ensures ReconnectDue(LoopApply(s, m))
  {
    hide SomeoneReports;
  }

  /** Only a new client makes it unnecessary. */
  lemma ReconnectKeepsDue(s: State, m: ManagerStep)
    requires ManagerEnabled(s, m) && m.OfReconnect() && m != InitReturned(true) && ReconnectDue(s)
    ensures ReconnectDue(ReconnectApply(s, m))
  {
    hide SomeoneReports;
  }

  lemma UpdateKeepsDue(s: State, m: ManagerStep)
    requires ManagerEnabled(s, m) && m.OfUpdate() && ReconnectDue(s)
    ensures ReconnectDue(UpdateApply(s, m))
  {
    hide SomeoneReports;
  }

  lemma ManagerKeepsDue(s: State, m: ManagerStep)
    requires StopPhase(s) && ManagerEnabled(s, m) && m != InitReturned(true) && ReconnectDue(s)
    ensures ReconnectDue(ManagerApply(s, m))
  {
    hide StopPhase, ManagerEnabled, LoopApply, ReconnectApply, UpdateApply, ReconnectDue;
    if m.OfReconnect() {
      ReconnectKeepsDue(s, m);
    } else if m.OfUpdate() {
      UpdateKeepsDue(s, m);
    } else {
      LoopKeepsDue(s, m);
    }
  }

  /** In every reachable state: once the session of the client in use has ended, its replacement is due. */
  lemma {:induction false} SessionEventLeadsToReconnect(states: seq<State>, events: seq<Event>, i: nat)
    requires IsRun(states, events) && i < |states|
    ensures Expired(events, i) ==> ReconnectDue(states[i])
  {
    hide PosterApply, StopApply, ManagerApply, PosterEnabled, StopEnabled, ManagerEnabled, Init, ReconnectDue;
    hide LockDiscipline, OuterDiscipline, StopPhase, HandlePhase, NoLostUpdate, NoLostWakeup, UnnotifiedIsPolled;
    if Expired(events, i) {
      var s, e := states[i - 1], events[i - 1];
      RunInv(states, events, i - 1);
      SessionEventLeadsToReconnect(states, events, i - 1);
      match e {
        case Posting(id, p) =>
          if p == Deliver(SessionEvent) {
            DeliveryReports(s, id);
          } else {
            StillReporting(s, id, p);
          }
        case Stopping(q) => StopKeepsDue(s, q);
        case Managing(m) => ManagerKeepsDue(s, m);
      }
    }
  }

  /** The manager sleeps on an ended session only while a callback is about to report it. */
  lemma NeverSleepsOnExpiry(states: seq<State>, events: seq<Event>, i: nat)
    requires IsRun(states, events) && i < |states| && Expired(events, i)
    requires !states[i].reqstop && states[i].pc == Sleep(false, false)
    ensures SomeoneReports(states[i].posters) || AboutToWake(states[i])
  {
    RunInv(states, events, i);
    SessionEventLeadsToReconnect(states, events, i);
    hide IsRun, SomeoneReports, SomeoneWillPost, Expired;
  }

  // ---------------------------------------------------------------------------------------------
  // Nothing else does
  // ---------------------------------------------------------------------------------------------

  /** The callbacks of these kinds that are on their way to the manager. */
  ghost function Waiters(posters: map<nat, Poster>, kinds: set<Kind>): set<nat> {
    set id | id in posters && posters[id].Unposted() && posters[id].kind in kinds
  }

  lemma SubsetIsSmaller(a: set<nat>, b: set<nat>)
    requires a <= b
    ensures |a| <= |b|
  {
    if a != {} {
      var x :| x in a;
      SubsetIsSmaller(a - {x}, b - {x});
    }
  }

  /** A callback raises its flag once. */
  lemma WaitersChange(s: State, id: nat, p: PosterStep, kinds: set<Kind>)
    requires PosterEnabled(s, id, p) && OtherUse !in kinds
    ensures |Waiters(PosterApply(s, id, p).posters, kinds)| + One(!p.Deliver? && p.RaiseFlag? && s.posters[id].kind in kinds)
         <= |Waiters(s.posters, kinds)| + One(p.Deliver? && p.kind in kinds)
  {
    var before, after := Waiters(s.posters, kinds), Waiters(PosterApply(s, id, p).posters, kinds);
    if p.Deliver? {
      SubsetIsSmaller(after, if p.kind in kinds then before + {id} else before);
    } else if p.RaiseFlag? && s.posters[id].kind in kinds {
      assert id in before;
      SubsetIsSmaller(after, before - {id});
    } else {
      SubsetIsSmaller(after, before);
    }
  }

  const SESSION: set<Kind> := {SessionEvent}
  const LIST: set<Kind> := {ChildEvent, Starting}

  /** Everything that is or will become an attempt at a new client. */
  ghost function ReconnectsAhead(s: State): nat {
    |Waiters(s.posters, SESSION)| + One(s.request.reconnect) + One(HoldsReconnect(s)) + One(s.reconnectRetry) + One(s.pc.InReconnect())
  }

  /** Everything that is or will become a fetch. */
  ghost function FetchesAhead(s: State): nat {
    |Waiters(s.posters, LIST)| + One(s.request.update) + One((s.pc.Check? || s.pc.Decide?) && s.zkreq.update) + One(s.pc.Fetching?)
  }

  lemma PosterEarns(s: State, id: nat, p: PosterStep)
    requires PosterEnabled(s, id, p)
    ensures var t := PosterApply(s, id, p);
      && ReconnectsAhead(t) <= ReconnectsAhead(s) + One(p == Deliver(SessionEvent))
      && FetchesAhead(t) <= FetchesAhead(s) + One(p == Deliver(ChildEvent))
  {
    PosterLeaves(s, id, p);
    PosterChanges(s, id, p);
    WaitersChange(s, id, p, SESSION);
    WaitersChange(s, id, p, LIST);
    hide Waiters;
  }

  lemma StopEarns(s: State, q: StopStep)
    requires StopEnabled(s, q)
    ensures ReconnectsAhead(StopApply(s, q)) == ReconnectsAhead(s) && FetchesAhead(StopApply(s, q)) == FetchesAhead(s)
  {
    hide Waiters;
  }

  lemma LoopEarns(s: State, m: ManagerStep)
    requires HandlePhase(s) && ManagerEnabled(s, m) && !m.OfReconnect() && !m.OfUpdate()
    ensures ReconnectsAhead(LoopApply(s, m)) <= ReconnectsAhead(s) && FetchesAhead(LoopApply(s, m)) <= FetchesAhead(s)
  {
    hide Waiters, SomeoneWillPost;
  }

  lemma ReconnectEarns(s: State, m: ManagerStep)
    requires HandlePhase(s) && ManagerEnabled(s, m) && m.OfReconnect()
    ensures ReconnectsAhead(ReconnectApply(s, m)) + One(m.Repost?) <= ReconnectsAhead(s)
    ensures FetchesAhead(ReconnectApply(s, m)) <= FetchesAhead(s) + One(m.Repost?)
  {
    hide Waiters, SomeoneWillPost;
  }

  lemma UpdateEarns(s: State, m: ManagerStep)
    requires ManagerEnabled(s, m) && m.OfUpdate()
    ensures ReconnectsAhead(UpdateApply(s, m)) <= ReconnectsAhead(s)
    ensures FetchesAhead(UpdateApply(s, m)) + One(m.FetchReturned?) <= FetchesAhead(s) + One(m.RequestAgain?)
  {
    hide Waiters;
  }

  lemma ManagerEarns(s: State, m: ManagerStep)
    requires HandlePhase(s) && ManagerEnabled(s, m)
    ensures ReconnectsAhead(ManagerApply(s, m)) + One(m.Repost?) <= ReconnectsAhead(s)
    ensures FetchesAhead(ManagerApply(s, m)) + One(m.FetchReturned?) <= FetchesAhead(s) + One(m.Repost?) + One(m.RequestAgain?)
  {
    hide HandlePhase, ManagerEnabled, LoopApply, ReconnectApply, UpdateApply, ReconnectsAhead, FetchesAhead;
    if m.OfReconnect() {
      ReconnectEarns(s, m);
    } else if m.OfUpdate() {
      UpdateEarns(s, m);
    } else {
      LoopEarns(s, m);
    }
  }

  lemma InitEarns(s: State)
    requires Init(s)
    ensures ReconnectsAhead(s) == 0 && FetchesAhead(s) == 1
  {
    if s.posters == map[0 := Wanting(Starting)] {
      assert Waiters(s.posters, LIST) == {0} && Waiters(s.posters, SESSION) == {};
    } else {
      assert Waiters(s.posters, LIST) == {} && Waiters(s.posters, SESSION) == {};
    }
  }

  /**
    Every new client has a session event of its own, and so has every attempt at one that is under way or
    ahead; so without a session event none is asked for.
   */
  lemma {:induction false} ReconnectsAreEarned(states: seq<State>, events: seq<Event>, i: nat)
    requires IsRun(states, events) && i < |states|
    ensures Count(events, i, Connected) + ReconnectsAhead(states[i]) <= Deliveries(events, i, SessionEvent)
  {
    hide PosterApply, StopApply, ManagerApply, PosterEnabled, StopEnabled, ManagerEnabled, Init, ReconnectsAhead, FetchesAhead;
    hide LockDiscipline, OuterDiscipline, StopPhase, HandlePhase, NoLostUpdate, NoLostWakeup, UnnotifiedIsPolled;
    if i == 0 {
      InitEarns(states[0]);
    } else {
      RunInv(states, events, i - 1);
      ReconnectsAreEarned(states, events, i - 1);
      match events[i - 1] {
        case Posting(id, p) => PosterEarns(states[i - 1], id, p);
        case Stopping(q) => StopEarns(states[i - 1], q);
        case Managing(m) => ManagerEarns(states[i - 1], m);
      }
    }
  }

  /** Every fetch has an event of its own: the start, a child event, a new client, or a fetch that failed. */
  lemma {:induction false} FetchesAreEarned(states: seq<State>, events: seq<Event>, i: nat)
    requires IsRun(states, events) && i < |states|
    ensures Count(events, i, Fetched) + FetchesAhead(states[i])
         <= 1 + Deliveries(events, i, ChildEvent) + Count(events, i, Connected) + Count(events, i, AskedAgain)
  {
    hide PosterApply, StopApply, ManagerApply, PosterEnabled, StopEnabled, ManagerEnabled, Init, ReconnectsAhead, FetchesAhead;
    hide LockDiscipline, OuterDiscipline, StopPhase, HandlePhase, NoLostUpdate, NoLostWakeup, UnnotifiedIsPolled;
    if i == 0 {
      InitEarns(states[0]);
    } else {
      RunInv(states, events, i - 1);
      FetchesAreEarned(states, events, i - 1);
      match events[i - 1] {
        case Posting(id, p) => PosterEarns(states[i - 1], id, p);
        case Stopping(q) => StopEarns(states[i - 1], q);
        case Managing(m) => ManagerEarns(states[i - 1], m);
      }
    }
  }
}
