/**
 * The broker's callers running side by side: any number of publishers, and of
 * event streams that subscribe, receive until their client leaves, and unsubscribe.
 * Every lock operation, send, receive and close is a step of its own.
 */
module Subscribers {
  import opened Broker
  import opened Wrappers

  /** An event is named by its publisher and by which of that publisher's calls sends it. */
  datatype Event = Event(from: nat, number: nat)

  /** One send attempt on a channel, with the number of events its buffer held. */
  datatype Attempt = Attempt(event: Event, held: nat)

  datatype Pc =
    | Made        // the channel exists; Subscribe is about to ask for the lock
    | WantAdd     // next writer, waiting for readers to leave
    | Adding      // holds the lock
    | Added       // holds the lock, is on the list
    | Streaming   // Subscribe returned; the receive loop runs
    | Leaving     // the client is gone; Unsubscribe is about to ask for the lock
    | WantDelete
    | Deleting
    | Deleted
    | Closing     // the lock is released, the channel is still open
    | Gone

  /** An event stream and the channel it made. */
  datatype Stream = Stream(pc: Pc, buf: seq<Event>, closed: bool, received: seq<Event>, log: seq<Attempt>)

  /** A publisher's next call, and while it is inside Publish the channels it has still to try. */
  datatype Publisher = Publisher(number: nat, todo: Option<set<nat>>)

  /**
   * announced is the writer that waits for the readers and keeps new ones out,
   * writer the one inside.  audience records who was on the list when a Publish
   * took the read lock.
   */
  datatype State = State(clients: set<nat>, announced: Option<nat>, writer: Option<nat>, readers: set<nat>,
                         streams: map<nat, Stream>, publishers: map<nat, Publisher>,
                         audience: map<Event, set<nat>>, panicked: bool)

  datatype Action =
    | Open(c: nat)
    | Announce(c: nat)
    | Acquire(c: nat)
    | Touch(c: nat)              // the map insert or delete
    | Unlock(c: nat)
    | Leave(c: nat)
    | Receive(c: nat)
    | Close(c: nat)
    | RLock(p: nat)
    | Send(p: nat, c: nat)
    | RUnlock(p: nat)

  predicate At(s: State, c: nat, pcs: set<Pc>) {
    c in s.streams && s.streams[c].pc in pcs
  }

  predicate InPublish(s: State, p: nat) {
    p in s.publishers && s.publishers[p].todo.Some?
  }

  /** Whether a step can be taken now; the lock operations wait, nothing else does. */
  predicate Can(s: State, a: Action) {
    match a
    case Open(c) => c !in s.streams
    case Announce(c) => At(s, c, {Made, Leaving}) && s.announced == None && s.writer == None
    case Acquire(c) => At(s, c, {WantAdd, WantDelete}) && s.announced == Some(c) && s.readers == {}
    case Touch(c) => At(s, c, {Adding, Deleting})
    case Unlock(c) => At(s, c, {Added, Deleted})
    case Leave(c) => At(s, c, {Streaming})
    case Receive(c) => At(s, c, {Streaming}) && s.streams[c].buf != []
    case Close(c) => At(s, c, {Closing})
    case RLock(p) => !InPublish(s, p) && s.announced == None && s.writer == None
    case Send(p, c) => InPublish(s, p) && c in s.publishers[p].todo.value
    case RUnlock(p) => InPublish(s, p) && s.publishers[p].todo.value == {}
  }

  function Move(s: State, c: nat, pc: Pc): State
    requires c in s.streams
  {
    s.(streams := s.streams[c := s.streams[c].(pc := pc)])
  }

  function Tried(t: Stream, event: Event): Stream {
    t.(buf := Offer(t.buf, event), log := t.log + [Attempt(event, |t.buf|)])
  }

  function Do(s: State, a: Action): State
    requires Can(s, a)
  {
    match a
    case Open(c) => s.(streams := s.streams[c := Stream(Made, [], false, [], [])])
    case Announce(c) => Move(s, c, if s.streams[c].pc == Made then WantAdd else WantDelete).(announced := Some(c))
    case Acquire(c) =>
      Move(s, c, if s.streams[c].pc == WantAdd then Adding else Deleting).(announced := None, writer := Some(c))
    case Touch(c) =>
      if s.streams[c].pc == Adding then Move(s, c, Added).(clients := s.clients + {c})
      else Move(s, c, Deleted).(clients := s.clients - {c})
    case Unlock(c) => Move(s, c, if s.streams[c].pc == Added then Streaming else Closing).(writer := None)
    case Leave(c) => Move(s, c, Leaving)
    case Receive(c) =>
      var t := s.streams[c];
      s.(streams := s.streams[c := t.(buf := t.buf[1..], received := t.received + [t.buf[0]])])
    case Close(c) =>
      if s.streams[c].closed then s.(panicked := true)
      else s.(streams := s.streams[c := s.streams[c].(pc := Gone, closed := true)])
    case RLock(p) =>
      var number := if p in s.publishers then s.publishers[p].number else 0;
      s.(readers := s.readers + {p}, publishers := s.publishers[p := Publisher(number, Some(s.clients))],
         audience := s.audience[Event(p, number) := s.clients])
    case Send(p, c) =>
      if c !in s.streams || s.streams[c].closed then s.(panicked := true)
      else
        var pub := s.publishers[p];
        s.(streams := s.streams[c := Tried(s.streams[c], Event(p, pub.number))],
           publishers := s.publishers[p := pub.(todo := Some(pub.todo.value - {c}))])
    case RUnlock(p) =>
      s.(readers := s.readers - {p}, publishers := s.publishers[p := Publisher(s.publishers[p].number + 1, None)])
  }

  const START := State({}, None, None, {}, map[], map[], map[], false)

  /** Where a run of actions leads; None if some action could not happen when its turn came. */
  function Run(actions: seq<Action>): Option<State> {
    if actions == [] then Some(START)
    else
      var before := Run(actions[..|actions| - 1]);
      if before.Some? && Can(before.value, actions[|actions| - 1])
      then Some(Do(before.value, actions[|actions| - 1])) else None
  }

  // ---- The lock, the list and the channels ----

  predicate HoldsLock(pc: Pc) {
    pc == Adding || pc == Added || pc == Deleting || pc == Deleted
  }

  predicate Waits(pc: Pc) {
    pc == WantAdd || pc == WantDelete
  }

  predicate OnList(pc: Pc) {
    pc == Added || pc == Streaming || pc == Leaving || pc == WantDelete || pc == Deleting
  }

  /** A stream's pc says whether it holds the lock, waits for it, is on the list, and has closed its channel. */
  ghost predicate InStep(s: State, c: nat) {
    c in s.streams &&
    var t := s.streams[c];
    && (s.writer == Some(c) <==> HoldsLock(t.pc)) && (s.announced == Some(c) <==> Waits(t.pc))
    && (c in s.clients <==> OnList(t.pc)) && (t.closed <==> t.pc == Gone)
  }

  ghost predicate Locked(s: State) {
    && (s.writer.Some? ==> s.writer.value in s.streams && s.readers == {} && s.announced == None)
    && (s.announced.Some? ==> s.announced.value in s.streams)
    && s.clients <= s.streams.Keys
    && (forall p :: p in s.readers <==> InPublish(s, p))
    && (forall p :: InPublish(s, p) ==> s.publishers[p].todo.value <= s.clients)
  }

  ghost predicate Inv(s: State) {
    Locked(s) && !s.panicked && forall c :: c in s.streams ==> InStep(s, c)
  }

  lemma AcquireKeepsInv(s: State, a: Action)
    requires Inv(s) && Can(s, a) && (a.Announce? || a.Acquire?)
    ensures Inv(Do(s, a))
  {
  }

  /** Under the lock no publisher is under way, so the list may change. */
  lemma TouchKeepsInv(s: State, c: nat)
    requires Inv(s) && Can(s, Touch(c))
    ensures Inv(Do(s, Touch(c)))
  {
  }

  lemma UnlockKeepsInv(s: State, c: nat)
    requires Inv(s) && Can(s, Unlock(c))
    ensures Inv(Do(s, Unlock(c)))
  {
  }

  lemma LoopKeepsInv(s: State, a: Action)
    requires Inv(s) && Can(s, a) && (a.Leave? || a.Receive?)
    ensures Inv(Do(s, a))
  {
  }

  lemma OpenKeepsInv(s: State, c: nat)
    requires Inv(s) && Can(s, Open(c))
    ensures Inv(Do(s, Open(c)))
  {
  }

  lemma CloseKeepsInv(s: State, c: nat)
    requires Inv(s) && Can(s, Close(c))
    ensures Inv(Do(s, Close(c)))
  {
  }

  lemma PublisherKeepsInv(s: State, a: Action)
    requires Inv(s) && Can(s, a) && (a.RLock? || a.Send? || a.RUnlock?)
    ensures Inv(Do(s, a))
  {
  }

  lemma StepKeepsInv(s: State, a: Action)
    requires Inv(s) && Can(s, a)
    ensures Inv(Do(s, a))
  {
    hide Can, Do, Inv;
    match a {
      case Announce(_) | Acquire(_) => AcquireKeepsInv(s, a);
      case Touch(c) => TouchKeepsInv(s, c);
      case Unlock(c) => UnlockKeepsInv(s, c);
      case Leave(_) | Receive(_) => LoopKeepsInv(s, a);
      case Open(c) => OpenKeepsInv(s, c);
      case Close(c) => CloseKeepsInv(s, c);
      case _ => PublisherKeepsInv(s, a);
    }
  }

  lemma {:induction false} RunKeepsInv(actions: seq<Action>)
    requires Run(actions).Some?
    ensures Inv(Run(actions).value)
  {
    hide Can, Do, Inv;
    if actions == [] {
      StartIsFine();
    } else {
      RunKeepsInv(actions[..|actions| - 1]);
      StepKeepsInv(Run(actions[..|actions| - 1]).value, actions[|actions| - 1]);
    }
  }

  lemma StartIsFine()
    ensures Inv(START)
  {
  }

  /** No run ever sends on a closed channel or closes one twice, and a stream still receiving has its channel open. */
  lemma NeverPanics(actions: seq<Action>, c: nat)
    requires Run(actions).Some?
    ensures var s := Run(actions).value;
            && !s.panicked
            && (At(s, c, {Streaming}) ==> !s.streams[c].closed && c in s.clients)
  {
    RunKeepsInv(actions);
  }

  /** A publisher inside Publish never waits: whatever is left of its loop, its next send or its unlock can run now. */
  lemma PublishNeverBlocks(actions: seq<Action>, p: nat)
    requires Run(actions).Some? && InPublish(Run(actions).value, p)
    ensures var s := Run(actions).value;
            var todo := s.publishers[p].todo.value;
            if todo == {} then Can(s, RUnlock(p))
            else
              && (forall c :: c in todo ==> Can(s, Send(p, c)) && c in s.streams && !s.streams[c].closed)
              && (forall c :: c in todo ==>
                    InPublish(Do(s, Send(p, c)), p) && Do(s, Send(p, c)).publishers[p].todo.value == todo - {c})
  {
    RunKeepsInv(actions);
    var s := Run(actions).value;
    assert forall c :: c in s.publishers[p].todo.value ==> c in s.clients && InStep(s, c);
  }

  /** Whoever holds or has asked for the lock, some holder's next step can run, so nobody waits for it in a circle. */
  lemma LockMoves(actions: seq<Action>)
    requires Run(actions).Some?
    ensures var s := Run(actions).value;
            || (s.announced == None && s.writer == None)   // RLock is free to anyone outside Publish
            || (s.writer.Some? && (Can(s, Touch(s.writer.value)) || Can(s, Unlock(s.writer.value))))
            || (s.announced.Some? && Can(s, Acquire(s.announced.value)))
            || (s.readers != {} && forall p :: p in s.readers ==> Can(s, RUnlock(p)) || exists c :: Can(s, Send(p, c)))
  {
    RunKeepsInv(actions);
    var s := Run(actions).value;
    forall p | p in s.readers ensures Can(s, RUnlock(p)) || exists c :: Can(s, Send(p, c)) {
      assert InPublish(s, p);
      if c :| c in s.publishers[p].todo.value {
        assert Can(s, Send(p, c));
      }
    }
  }

  // ---- What each channel is sent ----

  /** The attempts that found room. */
  function Accepted(log: seq<Attempt>): seq<Event> {
    if log == [] then []
    else
      var last := log[|log| - 1];
      Accepted(log[..|log| - 1]) + if last.held < CAPACITY then [last.event] else []
  }

  ghost predicate Offered(log: seq<Attempt>, e: Event) {
    exists i :: 0 <= i < |log| && log[i].event == e
  }

  /** Publish of e holds the read lock. */
  predicate Sending(s: State, e: Event) {
    InPublish(s, e.from) && s.publishers[e.from].number == e.number
  }

  /** Publish of e has taken the read lock. */
  predicate Sent(s: State, e: Event) {
    e.from in s.publishers && (e.number < s.publishers[e.from].number || Sending(s, e))
  }

  ghost predicate Kept(t: Stream) {
    && |t.buf| <= CAPACITY && t.received + t.buf == Accepted(t.log)
    && forall i, j :: 0 <= i < j < |t.log| && t.log[i].event.from == t.log[j].event.from
                      ==> t.log[i].event.number < t.log[j].event.number
  }

  /** Whom the list held when an event was sent is whom it has been, or is still to be, offered to. */
  ghost predicate Addressed(s: State, c: nat) {
    && (forall e :: e in s.audience <==> Sent(s, e))
    && (forall e :: e in s.audience ==>
          (c in s.audience[e] <==>
             || (c in s.streams && Offered(s.streams[c].log, e))
             || (Sending(s, e) && c in s.publishers[e.from].todo.value)))
    && (c in s.streams ==> forall e :: Offered(s.streams[c].log, e) ==>
          Sent(s, e) && !(Sending(s, e) && c in s.publishers[e.from].todo.value))
  }

  ghost predicate Records(s: State, c: nat) {
    Addressed(s, c) && (c in s.streams ==> Kept(s.streams[c]))
  }

  /** A step of a stream leaves publishers, audiences and logs alone. */
  lemma Unheard(s: State, s': State, c: nat)
    requires Addressed(s, c) && s'.publishers == s.publishers && s'.audience == s.audience
    requires c in s.streams ==> c in s'.streams && s'.streams[c].log == s.streams[c].log
    requires c in s'.streams && c !in s.streams ==> s'.streams[c].log == []
    ensures Addressed(s', c)
  {
  }

  lemma StreamKeepsRecords(s: State, a: Action, c: nat)
    requires Inv(s) && Can(s, a) && Records(s, c) && !a.RLock? && !a.Send? && !a.RUnlock?
    ensures Records(Do(s, a), c)
  {
    hide Inv, Addressed, Kept;
    Unheard(s, Do(s, a), c);
    if c in s.streams {
      StreamKeeps(s, a, c);
    } else if a.Open? && a.c == c {
      assert Do(s, a).streams[c] == Stream(Made, [], false, [], []);
      EmptyIsKept(Made);
    }
  }

  lemma StreamKeeps(s: State, a: Action, c: nat)
    requires Can(s, a) && c in s.streams && Kept(s.streams[c]) && !a.RLock? && !a.Send? && !a.RUnlock?
    ensures c in Do(s, a).streams && Kept(Do(s, a).streams[c])
  {
    hide Accepted;
    var t, t' := s.streams[c], Do(s, a).streams[c];
    assert t'.received + t'.buf == t.received + t.buf;
  }

  lemma EmptyIsKept(pc: Pc)
    ensures Kept(Stream(pc, [], false, [], []))
  {
  }

  lemma RLockKeepsRecords(s: State, p: nat, c: nat)
    requires Inv(s) && Can(s, RLock(p)) && Records(s, c)
    ensures Records(Do(s, RLock(p)), c)
  {
  }

  lemma RUnlockKeepsRecords(s: State, p: nat, c: nat)
    requires Inv(s) && Can(s, RUnlock(p)) && Records(s, c)
    ensures Records(Do(s, RUnlock(p)), c)
  {
  }

  lemma TriedKeeps(t: Stream, e: Event)
    requires Kept(t)
    requires forall i :: 0 <= i < |t.log| && t.log[i].event.from == e.from ==> t.log[i].event.number < e.number
    ensures Kept(Tried(t, e))
  {
  }

  lemma OfferedGrows(log: seq<Attempt>, a: Attempt, e: Event)
    ensures Offered(log + [a], e) <==> Offered(log, e) || e == a.event
  {
    if Offered(log, e) {
      var i :| 0 <= i < |log| && log[i].event == e;
      assert (log + [a])[i].event == e;
    } else if e == a.event {
      assert (log + [a])[|log|].event == e;
    }
  }

  /** A send left to do is to an open channel. */
  lemma SendsToOpen(s: State, p: nat, to: nat)
    requires Inv(s) && Can(s, Send(p, to))
    ensures to in s.streams && !s.streams[to].closed
  {
    assert InStep(s, to);
  }

  lemma SendElsewhere(s: State, p: nat, to: nat, c: nat)
    requires Inv(s) && Can(s, Send(p, to)) && Records(s, c) && to != c
    ensures Records(Do(s, Send(p, to)), c)
  {
    hide Inv, Kept;
    SendsToOpen(s, p, to);
    var s' := Do(s, Send(p, to));
    assert forall e :: Sending(s', e) <==> Sending(s, e);
    assert forall e :: Sent(s', e) <==> Sent(s, e);
  }

  /** What a channel has been sent of this publisher comes before what it is sent now. */
  lemma SentBefore(s: State, p: nat, c: nat, i: nat)
    requires Can(s, Send(p, c)) && Addressed(s, c) && c in s.streams && i < |s.streams[c].log|
    requires s.streams[c].log[i].event.from == p
    ensures s.streams[c].log[i].event.number < s.publishers[p].number
  {
    assert Offered(s.streams[c].log, s.streams[c].log[i].event);
  }

  lemma SendAddressed(s: State, p: nat, c: nat)
    requires Can(s, Send(p, c)) && Addressed(s, c) && c in s.streams && !s.streams[c].closed
    ensures Addressed(Do(s, Send(p, c)), c)
  {
    var s' := Do(s, Send(p, c));
    var now := Event(p, s.publishers[p].number);
    var log := s.streams[c].log;
    forall e ensures Offered(s'.streams[c].log, e) <==> Offered(log, e) || e == now {
      OfferedGrows(log, Attempt(now, |s.streams[c].buf|), e);
    }
    hide Offered;
    assert forall e :: Sending(s', e) <==> Sending(s, e);
    assert forall e :: Sent(s', e) <==> Sent(s, e);
  }

  lemma SendHere(s: State, p: nat, c: nat)
    requires Inv(s) && Can(s, Send(p, c)) && Records(s, c)
    ensures Records(Do(s, Send(p, c)), c)
  {
    hide Inv, Kept, Addressed;
    SendsToOpen(s, p, c);
    var t := s.streams[c];
    forall i | 0 <= i < |t.log| && t.log[i].event.from == p ensures t.log[i].event.number < s.publishers[p].number {
      SentBefore(s, p, c, i);
    }
    TriedKeeps(t, Event(p, s.publishers[p].number));
    SendAddressed(s, p, c);
  }

  lemma {:induction false} RunKeepsRecords(actions: seq<Action>, c: nat)
    requires Run(actions).Some?
    ensures Records(Run(actions).value, c)
  {
    hide Inv, Records, Can, Do;
    if actions == [] {
      StartHasNoRecords(c);
    } else {
      var before := actions[..|actions| - 1];
      var s := Run(before).value;
      RunKeepsInv(before);
      RunKeepsRecords(before, c);
      match actions[|actions| - 1] {
        case RLock(p) => RLockKeepsRecords(s, p, c);
        case RUnlock(p) => RUnlockKeepsRecords(s, p, c);
        case Send(p, to) =>
          if to == c {
            SendHere(s, p, c);
          } else {
            SendElsewhere(s, p, to, c);
          }
        case a => StreamKeepsRecords(s, a, c);
      }
    }
  }

  lemma StartHasNoRecords(c: nat)
    ensures Records(START, c)
  {
  }

  // ---- What a subscriber sees ----

  /**
   * Over any run: a buffer never exceeds ten, and what a stream has received, then
   * holds, is what found room, in order.
   */
  lemma ReceivedInOrder(actions: seq<Action>, c: nat)
    requires Run(actions).Some? && c in Run(actions).value.streams
    ensures var t := Run(actions).value.streams[c];
            && |t.buf| <= 10 && t.received + t.buf == Accepted(t.log)
            && forall i, j :: 0 <= i < j < |t.received + t.buf| ==>
                 && (t.received + t.buf)[i] != (t.received + t.buf)[j]
                 && ((t.received + t.buf)[i].from == (t.received + t.buf)[j].from
                     ==> (t.received + t.buf)[i].number < (t.received + t.buf)[j].number)
  {
    RunKeepsRecords(actions, c);
    var t := Run(actions).value.streams[c];
    var seen := t.received + t.buf;
    assert seen == Accepted(t.log);
    AcceptedInOrder(t.log);
    assert forall i, j :: 0 <= i < j < |seen| && seen[i].from == seen[j].from ==> seen[i].number < seen[j].number;
  }

  lemma {:induction false} FoundRoom(log: seq<Attempt>, e: Event)
    requires e in Accepted(log)
    ensures exists k :: 0 <= k < |log| && log[k].event == e && log[k].held < CAPACITY
  {
    var init := log[..|log| - 1];
    if e in Accepted(init) {
      FoundRoom(init, e);
      var k :| 0 <= k < |init| && init[k].event == e && init[k].held < CAPACITY;
      assert log[k] == init[k];
    } else {
      assert log[|log| - 1].event == e;
    }
  }

  lemma {:induction false} AcceptedInOrder(log: seq<Attempt>)
    requires forall i, j :: 0 <= i < j < |log| && log[i].event.from == log[j].event.from
                            ==> log[i].event.number < log[j].event.number
    ensures forall i, j :: 0 <= i < j < |Accepted(log)| && Accepted(log)[i].from == Accepted(log)[j].from
                           ==> Accepted(log)[i].number < Accepted(log)[j].number
  {
    if log != [] {
      var init, last := log[..|log| - 1], log[|log| - 1].event;
      AcceptedInOrder(init);
      forall e | e in Accepted(init) && e.from == last.from ensures e.number < last.number {
        FoundRoom(init, e);
        var k :| 0 <= k < |init| && init[k].event == e && init[k].held < CAPACITY;
        assert log[k] == init[k];
      }
    }
  }

  lemma {:induction false} RoomMeansAccepted(log: seq<Attempt>, k: nat)
    requires k < |log| && log[k].held < CAPACITY
    ensures log[k].event in Accepted(log)
  {
    if k < |log| - 1 {
      RoomMeansAccepted(log[..|log| - 1], k);
    }
  }

  /**
   * Once Publish of e is over, every stream that was on the list when it took the
   * lock either has e, received or buffered, or was full at the one attempt to
   * send it; a stream that was not on the list does not have it.
   */
  lemma PublishReachesItsAudience(actions: seq<Action>, e: Event, c: nat)
    requires Run(actions).Some?
    requires Sent(Run(actions).value, e) && !Sending(Run(actions).value, e)
    ensures var s := Run(actions).value;
            && e in s.audience
            && (c in s.audience[e] ==>
                  c in s.streams && var t := s.streams[c];
                  exists k :: 0 <= k < |t.log| && t.log[k].event == e
                              && (forall j :: 0 <= j < |t.log| && t.log[j].event == e ==> j == k)
                              && (e in t.received + t.buf <==> t.log[k].held < 10))
            && (c !in s.audience[e] ==> c !in s.streams || e !in s.streams[c].received + s.streams[c].buf)
  {
    var s := Run(actions).value;
    RunKeepsRecords(actions, c);
    if c in s.streams {
      var t := s.streams[c];
      if Offered(t.log, e) {
        SoleAttempt(t, e);
      } else if e in t.received + t.buf {
        FoundRoom(t.log, e);
      }
    }
  }

  lemma SoleAttempt(t: Stream, e: Event)
    requires Kept(t) && Offered(t.log, e)
    ensures exists k :: 0 <= k < |t.log| && t.log[k].event == e
                        && (forall j :: 0 <= j < |t.log| && t.log[j].event == e ==> j == k)
                        && (e in t.received + t.buf <==> t.log[k].held < CAPACITY)
  {
    var k: nat :| k < |t.log| && t.log[k].event == e;
    assert forall j :: 0 <= j < |t.log| && t.log[j].event == e ==> !(j < k) && !(k < j);
    if t.log[k].held < CAPACITY {
      RoomMeansAccepted(t.log, k);
    }
    if e in Accepted(t.log) {
      FoundRoom(t.log, e);
    }
  }

  /**
   * A send puts the event behind what the buffer holds if that is fewer than ten, and
   * drops it otherwise; it is recorded with how many the buffer held, and no other
   * stream and no other send of the loop is affected.
   */
  lemma SendMeans(actions: seq<Action>, p: nat, c: nat)
    requires Run(actions).Some? && Can(Run(actions).value, Send(p, c))
    ensures var s := Run(actions).value;
            var s' := Do(s, Send(p, c));
            && c in s.streams && s'.streams.Keys == s.streams.Keys
            && (forall d :: d in s.streams && d != c ==> s'.streams[d] == s.streams[d])
            && var t, t', e := s.streams[c], s'.streams[c], Event(p, s.publishers[p].number);
               && t'.buf == (if |t.buf| < 10 then t.buf + [e] else t.buf)
               && t'.log == t.log + [Attempt(e, |t.buf|)]
               && t'.received == t.received && t'.pc == t.pc && t'.closed == t.closed
               && s'.publishers[p].todo == Some(s.publishers[p].todo.value - {c}) && s'.clients == s.clients
  {
    RunKeepsInv(actions);
    SendsToOpen(Run(actions).value, p, c);
  }

  predicate LockFree(s: State) {
    s.announced == None && s.writer == None && s.readers == {}
  }

  lemma RunOne(actions: seq<Action>, a: Action)
    requires Run(actions).Some? && Can(Run(actions).value, a)
    ensures Run(actions + [a]) == Some(Do(Run(actions).value, a))
  {
  }

  /** While the lock is free, a stream asks for it, gets it, changes the list and gives it back, on its own. */
  lemma TakesTheLock(actions: seq<Action>, c: nat) returns (more: seq<Action>)
    requires Run(actions).Some? && LockFree(Run(actions).value) && At(Run(actions).value, c, {Made, Leaving})
    ensures Run(more).Some? && LockFree(Run(more).value)
    ensures At(Run(actions).value, c, {Made}) ==>
              At(Run(more).value, c, {Streaming}) && Run(more).value.clients == Run(actions).value.clients + {c}
    ensures At(Run(actions).value, c, {Leaving}) ==>
              At(Run(more).value, c, {Closing}) && Run(more).value.clients == Run(actions).value.clients - {c}
  {
    hide Run;
    RunOne(actions, Announce(c));
    var a1 := actions + [Announce(c)];
    RunOne(a1, Acquire(c));
    var a2 := a1 + [Acquire(c)];
    RunOne(a2, Touch(c));
    var a3 := a2 + [Touch(c)];
    RunOne(a3, Unlock(c));
    more := a3 + [Unlock(c)];
  }

  /** What a buffer holds can be received, oldest first. */
  lemma ReceiveMeans(s: State, c: nat)
    requires At(s, c, {Streaming}) && s.streams[c].buf != []
    ensures Can(s, Receive(c))
    ensures var t, t' := s.streams[c], Do(s, Receive(c)).streams[c];
            t'.received == t.received + [t.buf[0]] && [t.buf[0]] + t'.buf == t.buf && t'.log == t.log
  {
  }

  /**
   * While no writer is in or announced, a publisher outside Publish can go through it
   * by its own steps alone; each stream then on the list has been tried.
   */
  lemma PublishCompletes(actions: seq<Action>, p: nat) returns (more: seq<Action>)
    requires Run(actions).Some? && !InPublish(Run(actions).value, p)
    requires Run(actions).value.announced == None && Run(actions).value.writer == None
    ensures Run(more).Some? && !InPublish(Run(more).value, p)
    ensures var s, s' := Run(actions).value, Run(more).value;
            var e := Event(p, if p in s.publishers then s.publishers[p].number else 0);
            e in s'.audience && s'.audience[e] == s.clients && s'.clients == s.clients
  {
    hide Run;
    RunOne(actions, RLock(p));
    var locked := actions + [RLock(p)];
    var sent := SendsFinish(locked, p);
    RunOne(sent, RUnlock(p));
    more := sent + [RUnlock(p)];
  }

  lemma {:induction false} SendsFinish(actions: seq<Action>, p: nat) returns (more: seq<Action>)
    requires Run(actions).Some? && InPublish(Run(actions).value, p)
    ensures Run(more).Some? && InPublish(Run(more).value, p) && Run(more).value.publishers[p].todo == Some({})
    ensures Run(more).value.audience == Run(actions).value.audience
            && Run(more).value.clients == Run(actions).value.clients
    decreases Run(actions).value.publishers[p].todo.value
  {
    hide Inv, Run;
    var s := Run(actions).value;
    if c :| c in s.publishers[p].todo.value {
      SendMeans(actions, p, c);
      RunOne(actions, Send(p, c));
      more := SendsFinish(actions + [Send(p, c)], p);
    } else {
      assert s.publishers[p].todo.value == {};
      more := actions;
    }
  }

  /** So a new stream can come and be on the list, and its Subscribe return. */
  lemma StreamsCome(actions: seq<Action>, c: nat) returns (more: seq<Action>)
    requires Run(actions).Some? && LockFree(Run(actions).value) && c !in Run(actions).value.streams
    ensures Run(more).Some? && LockFree(Run(more).value) && At(Run(more).value, c, {Streaming})
    ensures Run(more).value.clients == Run(actions).value.clients + {c}
  {
    hide Run;
    RunOne(actions, Open(c));
    more := TakesTheLock(actions + [Open(c)], c);
  }

  /** And a stream can leave: off the list, and its channel closed. */
  lemma StreamsGo(actions: seq<Action>, c: nat) returns (more: seq<Action>)
    requires Run(actions).Some? && LockFree(Run(actions).value) && At(Run(actions).value, c, {Streaming})
    ensures Run(more).Some? && LockFree(Run(more).value) && At(Run(more).value, c, {Gone})
    ensures Run(more).value.clients == Run(actions).value.clients - {c} && Run(more).value.streams[c].closed
  {
    hide Run;
    RunOne(actions, Leave(c));
    more := TakesTheLock(actions + [Leave(c)], c);
    RunKeepsInv(more);
    assert InStep(Run(more).value, c);
    RunOne(more, Close(c));
    more := more + [Close(c)];
  }

  /**
   * An audience is exactly the streams whose Subscribe has returned and whose
   * Unsubscribe has not yet got the lock.
   */
  lemma AudienceIsTheSubscribed(actions: seq<Action>, p: nat, c: nat)
    requires Run(actions).Some? && Can(Run(actions).value, RLock(p))
    ensures var s := Run(actions).value;
            var s' := Do(s, RLock(p));
            && Event(p, s'.publishers[p].number) in s'.audience
            && (c in s'.audience[Event(p, s'.publishers[p].number)] <==> At(s, c, {Streaming, Leaving}))
  {
    var s := Run(actions).value;
    RunKeepsInv(actions);
    assert c in s.streams ==> InStep(s, c);
  }
}
