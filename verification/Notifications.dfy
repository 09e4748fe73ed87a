/** The notification hub: one buffered channel per connected user, under the hub's mutex. */
module Notifications {
  import opened Tables

  const BUFFER := 10

  /** A buffered Go channel.  Closing it twice, or sending after the close, panics. */
  class Channel {
    var isOpen: bool
    var buffer: seq<string>
    ghost var accepted: seq<string>
    ghost var received: seq<string>

    constructor ()
      ensures isOpen && buffer == [] && accepted == [] && received == []
    {
      isOpen, buffer, accepted, received := true, [], [], [];
    }

    /** The reader has received the accepted messages in order, up to those still buffered. */
    ghost predicate Faithful()
      reads this
    {
      received + buffer == accepted && |buffer| <= BUFFER
    }

    method Close()
      requires isOpen
      modifies this`isOpen
      ensures !isOpen
    {
      isOpen := false;
    }

    /** A send with a default case: it fails when the buffer is full. */
    method TrySend(message: string) returns (sent: bool)
      requires isOpen && Faithful()
      modifies this
      ensures Faithful() && isOpen && received == old(received)
      ensures sent <==> |old(buffer)| < BUFFER
      ensures accepted == if sent then old(accepted) + [message] else old(accepted)
      ensures buffer == if sent then old(buffer) + [message] else old(buffer)
    {
      sent := |buffer| < BUFFER;
      if sent {
        buffer := buffer + [message];
        accepted := accepted + [message];
      }
    }

    /** A receive that does not wait: a buffered message first, even after the close. */
    method TryReceive() returns (message: Option<string>)
      requires Faithful()
      modifies this`buffer, this`received
      ensures Faithful()
      ensures message.Some? <==> old(buffer) != []
      ensures message.Some? ==> old(buffer) == [message.value] + buffer && received == old(received) + [message.value]
      ensures message.None? ==> buffer == old(buffer) && received == old(received)
    {
      if buffer == [] {
        return None;
      }
      message := Some(buffer[0]);
      received := received + [buffer[0]];
      buffer := buffer[1..];
    }
  }

  class Hub {
    var clients: map<string, Channel>
    /** Every channel the hub has ever made. */
    ghost var created: set<Channel>

    /** A channel is open exactly when it is the current entry of its one user; every channel is faithful. */
    ghost predicate Valid()
      reads this, created
    {
      && clients.Values <= created
      && (forall c | c in created :: c.isOpen <==> c in clients.Values)
      && (forall u, v | u in clients && v in clients && u != v :: clients[u] != clients[v])
      && (forall c | c in created :: c.Faithful())
    }

    constructor ()
      ensures Valid() && clients == map[] && created == {}
    {
      clients := map[];
      created := {};
    }

    /** A new stream: the user's previous channel, if any, is closed and replaced. */
    method Register(user: string) returns (channel: Channel)
      requires Valid()
      modifies this, clients.Values`isOpen
      ensures Valid() && fresh(channel)
      ensures channel.isOpen && channel.buffer == [] && channel.accepted == [] && channel.received == []
      ensures clients == old(clients)[user := channel] && created == old(created) + {channel}
      ensures user in old(clients) ==> !old(clients)[user].isOpen
      ensures forall c | c in old(created) && !(user in old(clients) && c == old(clients)[user]) ::
        c.isOpen == old(c.isOpen)
    {
      assert user in clients ==> clients[user] in clients.Values;
      if user in clients {
        clients[user].Close();
      }
      channel := new Channel();
      ghost var before := clients;
      clients := clients[user := channel];
      created := created + {channel};
      ValuesAfterUpdate(before, user, channel);
    }

    /** The end of a stream: the user's current channel is closed and forgotten. */
    method Unregister(user: string)
      requires Valid()
      modifies this`clients, clients.Values`isOpen
      ensures Valid() && clients == old(clients) - {user}
      ensures user in old(clients) ==> !old(clients)[user].isOpen
      ensures forall c | c in created && !(user in old(clients) && c == old(clients)[user]) ::
        c.isOpen == old(c.isOpen)
    {
      assert user in clients ==> clients[user] in clients.Values;
      ghost var before := clients;
      if user in clients {
        clients[user].Close();
        clients := clients - {user};
        ValuesAfterRemoval(before, user);
      } else {
        assert clients - {user} == clients;
      }
    }

    /** True exactly when the user is connected and the buffer has room; then that channel, and no other,
        has the message at its end. */
    method SendToUser(user: string, message: string) returns (sent: bool)
      requires Valid()
      modifies clients.Values
      ensures Valid() && clients == old(clients)
      ensures sent <==> user in clients && |old(clients[user].buffer)| < BUFFER
      ensures sent ==> clients[user].accepted == old(clients[user].accepted) + [message]
      ensures forall c | c in created && !(sent && c == clients[user]) :: c.accepted == old(c.accepted)
      ensures forall c | c in created :: c.received == old(c.received) && c.isOpen == old(c.isOpen)
      ensures forall c | c in created ::
        c.buffer == if sent && c == clients[user] then old(c.buffer) + [message] else old(c.buffer)
    {
      if user !in clients {
        return false;
      }
      assert clients[user] in clients.Values;
      sent := clients[user].TrySend(message);
    }

    /** A stream's reader takes from its own channel, closed or not, and the hub stays valid. */
    method Receive(channel: Channel) returns (message: Option<string>)
      requires Valid() && channel in created
      modifies channel`buffer, channel`received
      ensures Valid()
      ensures message.Some? <==> old(channel.buffer) != []
      ensures message.Some? ==>
        old(channel.buffer) == [message.value] + channel.buffer
        && channel.received == old(channel.received) + [message.value]
      ensures message.None? ==> channel.buffer == old(channel.buffer) && channel.received == old(channel.received)
    {
      message := channel.TryReceive();
    }
  }

  /** Replacing one user's channel in a one-to-one map replaces it in the values. */
  lemma ValuesAfterUpdate(clients: map<string, Channel>, user: string, channel: Channel)
    requires channel !in clients.Values
    requires forall u, v | u in clients && v in clients && u != v :: clients[u] != clients[v]
    ensures clients[user := channel].Values ==
      clients.Values - (if user in clients then {clients[user]} else {}) + {channel}
  {
    var after := clients[user := channel];
    forall c | c in clients.Values && !(user in clients && c == clients[user]) ensures c in after.Values {
      var u :| u in clients && clients[u] == c;
      assert after[u] == c;
    }
    assert after[user] == channel;
  }

  lemma ValuesAfterRemoval(clients: map<string, Channel>, user: string)
    requires user in clients
    requires forall u, v | u in clients && v in clients && u != v :: clients[u] != clients[v]
    ensures (clients - {user}).Values == clients.Values - {clients[user]}
  {
    var after := clients - {user};
    forall c | c in clients.Values && c != clients[user] ensures c in after.Values {
      var u :| u in clients && clients[u] == c;
      assert after[u] == c;
    }
  }
}
