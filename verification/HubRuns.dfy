/**
 Any sequence of locked hub operations and receives: first as a function of values, with what it
 keeps, and then run on the hub itself.
 */
module HubRuns {
  import opened Tables
  import opened Notifications

  /** What a channel has gone through; `closes` counts how often it was closed. */
  datatype Stream = Stream(closes: nat, buffer: seq<string>, accepted: seq<string>, received: seq<string>)

  /** Every stream ever registered, in order, and the position of each connected user's current one. */
  datatype HubState = HubState(clients: map<string, nat>, streams: seq<Stream>)

  datatype Call = Register(user: string) | Unregister(user: string) | Send(user: string, message: string)
                | Receive(stream: nat)

  const FRESH := Stream(0, [], [], [])

  /** The position of the user's current stream, if any. */
  function Position(h: HubState, user: string): (at: Option<nat>)
    ensures at.Some? ==> at.value < |h.streams|
  {
    if user in h.clients && h.clients[user] < |h.streams| then Some(h.clients[user]) else None
  }

  function ClosedAt(streams: seq<Stream>, at: Option<nat>): seq<Stream>
    requires at.Some? ==> at.value < |streams|
  {
    if at.Some? then streams[at.value := streams[at.value].(closes := streams[at.value].closes + 1)] else streams
  }

  function Sent(s: Stream, message: string): Stream {
    if |s.buffer| < BUFFER then s.(buffer := s.buffer + [message], accepted := s.accepted + [message]) else s
  }

  function Taken(s: Stream): Stream {
    if s.buffer == [] then s else s.(buffer := s.buffer[1..], received := s.received + [s.buffer[0]])
  }

  function Called(h: HubState, call: Call): HubState {
    match call
    case Register(user) => HubState(h.clients[user := |h.streams|], ClosedAt(h.streams, Position(h, user)) + [FRESH])
    case Unregister(user) => HubState(h.clients - {user}, ClosedAt(h.streams, Position(h, user)))
    case Send(user, message) =>
      var at := Position(h, user);
      if at.Some? then h.(streams := h.streams[at.value := Sent(h.streams[at.value], message)]) else h
    case Receive(i) => if i < |h.streams| then h.(streams := h.streams[i := Taken(h.streams[i])]) else h
  }

  function AfterCalls(h: HubState, calls: seq<Call>): HubState {
    if calls == [] then h else Called(AfterCalls(h, calls[..|calls| - 1]), calls[|calls| - 1])
  }

  /** Stream i is some user's current one. */
  ghost predicate IsCurrent(h: HubState, i: nat) {
    exists user :: user in h.clients && h.clients[user] == i
  }

  /** A stream is closed at most once, and exactly when it is nobody's current one; its reader has got the
      accepted messages in order, up to the at most ten still buffered. */
  ghost predicate StreamOk(h: HubState, i: nat)
    requires i < |h.streams|
  {
    var s := h.streams[i];
    && s.closes == (if IsCurrent(h, i) then 0 else 1)
    && s.received + s.buffer == s.accepted && |s.buffer| <= BUFFER
  }

  ghost predicate Safe(h: HubState) {
    && (forall user | user in h.clients :: h.clients[user] < |h.streams|)
    && (forall u, v | u in h.clients && v in h.clients && u != v :: h.clients[u] != h.clients[v])
    && (forall i: nat | i < |h.streams| :: StreamOk(h, i))
  }

  /** A stream only goes on: it stays closed, and a closed one accepts nothing more. */
  predicate GoesOn(s: Stream, t: Stream) {
    && s.closes <= t.closes && s.accepted <= t.accepted && s.received <= t.received
    && (s.closes > 0 ==> t.accepted == s.accepted)
  }

  lemma TakenKeepsOrder(s: Stream)
    requires s.received + s.buffer == s.accepted
    ensures Taken(s).received + Taken(s).buffer == Taken(s).accepted && |Taken(s).buffer| <= |s.buffer|
  {
  }

  /** Who is current after a call. */
  lemma CurrentAfter(h: HubState, call: Call, i: nat)
    requires Safe(h) && i < |h.streams|
    ensures IsCurrent(Called(h, call), i)
      <==> IsCurrent(h, i)
           && !((call.Register? || call.Unregister?) && call.user in h.clients && h.clients[call.user] == i)
  {
    var h' := Called(h, call);
    if user :| user in h'.clients && h'.clients[user] == i {
      assert user in h.clients && h.clients[user] == i;
    }
    if user :| user in h.clients && h.clients[user] == i {
      assert user in h'.clients || call.Unregister?;
      if !((call.Register? || call.Unregister?) && call.user == user) {
        assert user in h'.clients && h'.clients[user] == i;
      }
    }
  }

  lemma CallKeepsStream(h: HubState, call: Call, i: nat)
    requires Safe(h) && i < |h.streams|
    ensures i < |Called(h, call).streams| && StreamOk(Called(h, call), i)
    ensures GoesOn(h.streams[i], Called(h, call).streams[i])
  {
    assert StreamOk(h, i);
    CurrentAfter(h, call, i);
    TakenKeepsOrder(h.streams[i]);
    if call.Send? && Position(h, call.user) == Some(i) {
      assert IsCurrent(h, i);
    }
  }

  lemma CallKeepsSafe(h: HubState, call: Call)
    requires Safe(h)
    ensures Safe(Called(h, call))
  {
    var h' := Called(h, call);
    forall i: nat | i < |h'.streams| ensures StreamOk(h', i) {
      if i < |h.streams| {
        CallKeepsStream(h, call, i);
      } else {
        assert h'.clients[call.user] == i;
      }
    }
  }

  lemma GoesOnTransitively(s: Stream, t: Stream, u: Stream)
    requires GoesOn(s, t) && GoesOn(t, u)
    ensures GoesOn(s, u)
  {
  }

  ghost predicate AllGoOn(s: seq<Stream>, t: seq<Stream>) {
    |s| <= |t| && forall i | 0 <= i < |s| :: GoesOn(s[i], t[i])
  }

  lemma CallGoesOn(h: HubState, before: HubState, call: Call)
    requires Safe(before) && AllGoOn(h.streams, before.streams)
    ensures AllGoOn(h.streams, Called(before, call).streams)
  {
    forall i: nat | i < |h.streams| ensures GoesOn(h.streams[i], Called(before, call).streams[i]) {
      CallKeepsStream(before, call, i);
      GoesOnTransitively(h.streams[i], before.streams[i], Called(before, call).streams[i]);
    }
  }

  /** Over any sequence of calls: no channel is closed twice or given a message after its close, a channel is
      open exactly while it is its user's current entry, and each reader gets the accepted messages in order. */
  lemma {:induction false} RunKeepsSafe(h: HubState, calls: seq<Call>)
    requires Safe(h)
    ensures Safe(AfterCalls(h, calls)) && AllGoOn(h.streams, AfterCalls(h, calls).streams)
  {
    if calls != [] {
      var before, call := AfterCalls(h, calls[..|calls| - 1]), calls[|calls| - 1];
      RunKeepsSafe(h, calls[..|calls| - 1]);
      CallKeepsSafe(before, call);
      CallGoesOn(h, before, call);
    }
  }

  function Sends(user: string, message: string, n: nat): seq<Call> {
    if n == 0 then [] else Sends(user, message, n - 1) + [Call.Send(user, message)]
  }

  /** A fresh stream that nobody reads takes the first ten messages and no more. */
  lemma {:induction false} TenFit(h: HubState, user: string, message: string, n: nat)
    requires Safe(h)
    ensures var after := AfterCalls(Called(h, Call.Register(user)), Sends(user, message, n));
      && |after.streams| == |h.streams| + 1 && Position(after, user) == Some(|h.streams|)
      && |after.streams[|h.streams|].accepted| == (if n < 10 then n else 10)
      && after.streams[|h.streams|].buffer == after.streams[|h.streams|].accepted
  {
    var start := Called(h, Call.Register(user));
    if n > 0 {
      TenFit(h, user, message, n - 1);
      var calls := Sends(user, message, n);
      assert calls[..|calls| - 1] == Sends(user, message, n - 1) && calls[|calls| - 1] == Call.Send(user, message);
    }
  }

  /** The channels are as these values say. */
  ghost predicate AreShown(channels: seq<Channel>, streams: seq<Stream>)
    reads channels
  {
    && |streams| == |channels|
    && forall i | 0 <= i < |channels| ::
         && channels[i].isOpen == (streams[i].closes == 0) && channels[i].buffer == streams[i].buffer
         && channels[i].accepted == streams[i].accepted && channels[i].received == streams[i].received
  }

  lemma ShownTogether(channels: seq<Channel>, streams: seq<Stream>, channel: Channel, stream: Stream)
    requires AreShown(channels, streams) && AreShown([channel], [stream])
    ensures AreShown(channels + [channel], streams + [stream])
  {
    assert [channel][0] == channel && [stream][0] == stream;
  }

  /** The streams are the channels made, each once, and the positions say where the current ones are. */
  ghost predicate Wired(streams: seq<Channel>, created: set<Channel>, clients: map<string, Channel>,
                        positions: map<string, nat>)
  {
    && (forall c | c in created :: c in streams) && (forall c | c in streams :: c in created)
    && (forall i, j | 0 <= i < j < |streams| :: streams[i] != streams[j])
    && positions.Keys == clients.Keys
    && (forall user | user in positions ::
          positions[user] < |streams| && clients[user] == streams[positions[user]])
  }

  lemma WiredAfterRegister(streams: seq<Channel>, created: set<Channel>, clients: map<string, Channel>,
                           positions: map<string, nat>, user: string, channel: Channel)
    requires Wired(streams, created, clients, positions) && channel !in created
    ensures Wired(streams + [channel], created + {channel}, clients[user := channel], positions[user := |streams|])
  {
  }

  lemma WiredAfterUnregister(streams: seq<Channel>, created: set<Channel>, clients: map<string, Channel>,
                             positions: map<string, nat>, user: string)
    requires Wired(streams, created, clients, positions)
    ensures Wired(streams, created, clients - {user}, positions - {user})
  {
  }

  /** The hub together with the channels its streams' readers hold. */
  class Handlers {
    const hub: Hub
    var streams: seq<Channel>
    ghost var positions: map<string, nat>

    constructor ()
      ensures Valid() && Shows(HubState(map[], [])) && fresh(hub)
    {
      hub := new Hub();
      streams := [];
      positions := map[];
    }

    ghost predicate Valid()
      reads this, hub, hub.created
    {
      hub.Valid() && Wired(streams, hub.created, hub.clients, positions)
    }

    /** The heap shows this state. */
    ghost predicate Shows(h: HubState)
      reads this, streams
    {
      h.clients == positions && AreShown(streams, h.streams)
    }

    /** The position of the user's current stream; every other stream is another channel. */
    ghost predicate IsAt(user: string, at: Option<nat>)
      reads this, hub
    {
      && (at.Some? <==> user in hub.clients)
      && (at.Some? ==> at.value < |streams| && streams[at.value] == hub.clients[user]
                       && forall i | 0 <= i < |streams| && i != at.value :: streams[i] != hub.clients[user])
    }

    /** The hub's part of a registration: the old channel is closed, and a new one is there. */
    method Open(user: string, ghost shown: seq<Stream>, ghost at: Option<nat>) returns (channel: Channel)
      requires hub.Valid() && (forall c | c in streams :: c in hub.created)
      requires AreShown(streams, shown) && IsAt(user, at)
      modifies hub, hub.created
      ensures hub.Valid() && fresh(channel)
      ensures hub.clients == old(hub.clients)[user := channel] && hub.created == old(hub.created) + {channel}
      ensures AreShown(streams, ClosedAt(shown, at)) && AreShown([channel], [FRESH])
    {
      channel := hub.Register(user);
    }

    /** The hub's part of the end of a stream. */
    method Close(user: string, ghost shown: seq<Stream>, ghost at: Option<nat>)
      requires hub.Valid() && (forall c | c in streams :: c in hub.created)
      requires AreShown(streams, shown) && IsAt(user, at)
      modifies hub, hub.created
      ensures hub.Valid() && hub.clients == old(hub.clients) - {user} && hub.created == old(hub.created)
      ensures AreShown(streams, ClosedAt(shown, at))
    {
      hub.Unregister(user);
    }

    /** The hub's part of a send. */
    method Deliver(user: string, message: string, ghost shown: seq<Stream>, ghost at: Option<nat>)
      requires hub.Valid() && (forall c | c in streams :: c in hub.created)
      requires AreShown(streams, shown) && IsAt(user, at)
      modifies hub, hub.created
      ensures hub.Valid() && hub.clients == old(hub.clients) && hub.created == old(hub.created)
      ensures AreShown(streams, if at.Some? then shown[at.value := Sent(shown[at.value], message)] else shown)
    {
      assert user in hub.clients ==> hub.clients[user] in hub.clients.Values;
      var _ := hub.SendToUser(user, message);
    }

    method Register(user: string, ghost h: HubState)
      requires Valid() && Shows(h) && Safe(h)
      modifies this, hub, hub.created
      ensures Valid() && Shows(Called(h, Call.Register(user))) && fresh(hub.created - old(hub.created))
    {
      var channel := Open(user, h.streams, Position(h, user));
      ShownTogether(streams, ClosedAt(h.streams, Position(h, user)), channel, FRESH);
      WiredAfterRegister(streams, old(hub.created), old(hub.clients), positions, user, channel);
      Record(user, channel, ClosedAt(h.streams, Position(h, user)) + [FRESH]);
    }

    /** The reader's handle is kept. */
    method Record(user: string, channel: Channel, ghost shown: seq<Stream>)
      requires hub.Valid() && AreShown(streams + [channel], shown)
      requires Wired(streams + [channel], hub.created, hub.clients, positions[user := |streams|])
      modifies this
      ensures Valid() && AreShown(streams, shown)
      ensures positions == old(positions)[user := |old(streams)|] && hub.created == old(hub.created)
    {
      positions := positions[user := |streams|];
      streams := streams + [channel];
    }

    method Unregister(user: string, ghost h: HubState)
      requires Valid() && Shows(h) && Safe(h)
      modifies this, hub, hub.created
      ensures Valid() && Shows(Called(h, Call.Unregister(user))) && fresh(hub.created - old(hub.created))
    {
      Close(user, h.streams, Position(h, user));
      WiredAfterUnregister(streams, hub.created, old(hub.clients), positions, user);
      positions := positions - {user};
    }

    method Send(user: string, message: string, ghost h: HubState)
      requires Valid() && Shows(h) && Safe(h)
      modifies this, hub, hub.created
      ensures Valid() && Shows(Called(h, Call.Send(user, message))) && fresh(hub.created - old(hub.created))
    {
      Deliver(user, message, h.streams, Position(h, user));
    }

    method Receive(i: nat, ghost h: HubState)
      requires Valid() && Shows(h) && Safe(h)
      modifies this, hub, hub.created
      ensures Valid() && Shows(Called(h, Call.Receive(i))) && fresh(hub.created - old(hub.created))
    {
      if i < |streams| {
        var _ := hub.Receive(streams[i]);
      }
    }

    /** Runs the calls on the hub: it always shows the state that the values say, which is safe. */
    method RunAll(calls: seq<Call>, ghost h: HubState)
      requires Valid() && Shows(h) && Safe(h)
      modifies this, hub, hub.created
      ensures Valid() && Shows(AfterCalls(h, calls)) && Safe(AfterCalls(h, calls))
    {
      for i := 0 to |calls|
        invariant Valid() && Shows(AfterCalls(h, calls[..i])) && Safe(AfterCalls(h, calls[..i]))
        invariant fresh(hub.created - old(hub.created))
      {
        ghost var now := AfterCalls(h, calls[..i]);
        assert calls[..i + 1][..i] == calls[..i];
        CallKeepsSafe(now, calls[i]);
        match calls[i]
        case Register(user) => Register(user, now);
        case Unregister(user) => Unregister(user, now);
        case Send(user, message) => Send(user, message, now);
        case Receive(j) => Receive(j, now);
      }
      assert calls[..|calls|] == calls;
    }
  }
}
