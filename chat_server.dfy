/**
  The barrier broadcast of server.py: a list of accepted `(conn, addr)` pairs,
  a map from address to the client's pending message (None while the client
  has not answered), and a broadcast that fires only once every listed client
  has answered. Sockets are identities; each `conn.send` is recorded in an
  outbox together with whether it went through, and each `conn.close` in
  `closed`.
 */
module ChatServer {
  import opened Wrappers

  /** A connected socket, by identity. */
  type Conn = nat

  /** A client address `(host, port)`. */
  datatype Addr = Addr(host: string, port: int)

  /**
    A value that can be in, or be passed to `remove` on, the client list: an
    accepted `(conn, addr)` pair, or a bare socket.
   */
  datatype Entry = Client(conn: Conn, addr: Addr) | Socket(sock: Conn)

  /** One `conn.send(msg.encode())`, and whether it went through. */
  datatype Send = Send(conn: Conn, payload: string, delivered: bool)

  /** What the "all clients have returned" loop of `broadcast` finds. */
  datatype Gate =
    | Ready        // every listed client has a pending message
    | Waiting      // some listed client's slot is None: `return`
    | MissingSlot  // some listed client has no slot yet: KeyError

  /** Every element of the list is an accepted pair. */
  ghost predicate AllClients(clients: seq<Entry>)
  {
    forall i :: 0 <= i < |clients| ==> clients[i].Client?
  }

  /** `list.remove(x)`: drop the first element equal to `x`; a list without `x` is returned as is. */
  function RemoveFirst(xs: seq<Entry>, x: Entry): (r: seq<Entry>)
    ensures |xs| - 1 <= |r| <= |xs|
  {
    if xs == [] then []
    else if xs[0] == x then xs[1..]
    else [xs[0]] + RemoveFirst(xs[1..], x)
  }

  /** Removing drops exactly one copy of `x` when it is there, and nothing otherwise. */
  lemma {:induction false} RemoveFirstFacts(xs: seq<Entry>, x: Entry)
    ensures x !in xs ==> RemoveFirst(xs, x) == xs
    ensures x in xs ==> |RemoveFirst(xs, x)| == |xs| - 1
    ensures multiset(RemoveFirst(xs, x)) == if x in xs then multiset(xs) - multiset{x} else multiset(xs)
  {
    if xs != [] {
      assert xs == [xs[0]] + xs[1..];
      assert multiset(xs) == multiset{xs[0]} + multiset(xs[1..]);
      if xs[0] == x {
        assert RemoveFirst(xs, x) == xs[1..];
      } else {
        RemoveFirstFacts(xs[1..], x);
        assert RemoveFirst(xs, x) == [xs[0]] + RemoveFirst(xs[1..], x);
        assert x in xs <==> x in xs[1..];
      }
    }
  }

  /** The elements before the first `x` are kept, in order, and so is everything after it. */
  lemma {:induction false} RemoveFirstSplit(xs: seq<Entry>, x: Entry, i: nat)
    requires i < |xs| && xs[i] == x
    requires forall j :: 0 <= j < i ==> xs[j] != x
    ensures RemoveFirst(xs, x) == xs[..i] + xs[i + 1..]
  {
    if i > 0 {
      RemoveFirstSplit(xs[1..], x, i - 1);
      assert xs[1..][..i - 1] == xs[1..i];
      assert xs[..i] == [xs[0]] + xs[1..i];
      assert xs[1..][i..] == xs[i + 1..];
    }
  }

  /** Removing keeps a list of pairs a list of pairs. */
  lemma {:induction false} RemoveKeepsClients(xs: seq<Entry>, x: Entry)
    requires AllClients(xs)
    ensures AllClients(RemoveFirst(xs, x))
  {
    if xs != [] && xs[0] != x {
      RemoveKeepsClients(xs[1..], x);
    }
  }

  /** A bare socket is never an element of a list of pairs, so removing it changes nothing. */
  lemma RemoveSocketIsNoOp(clients: seq<Entry>, c: Conn)
    requires AllClients(clients)
    ensures RemoveFirst(clients, Socket(c)) == clients
  {
    assert Socket(c) !in clients;
    RemoveFirstFacts(clients, Socket(c));
  }

  /** The first loop of `broadcast`, scanning the list in order. */
  function GateOf(clients: seq<Entry>, messages: map<Addr, Option<string>>): Gate
    requires AllClients(clients)
  {
    if clients == [] then Ready
    else if clients[0].addr !in messages then MissingSlot
    else if messages[clients[0].addr].None? then Waiting
    else GateOf(clients[1..], messages)
  }

  /** Every listed client has a slot holding a message. */
  ghost predicate AllAnswered(clients: seq<Entry>, messages: map<Addr, Option<string>>)
    requires AllClients(clients)
  {
    forall i :: 0 <= i < |clients| ==> clients[i].addr in messages && messages[clients[i].addr].Some?
  }

  /** The position at which the scan stops: every earlier client has answered. */
  ghost predicate StopsAt(clients: seq<Entry>, messages: map<Addr, Option<string>>, k: nat)
    requires AllClients(clients)
  {
    k < |clients| &&
    forall i :: 0 <= i < k ==> clients[i].addr in messages && messages[clients[i].addr].Some?
  }

  /**
    The scan is Ready exactly when every listed client has answered; otherwise
    it stops at the first client without a slot (MissingSlot) or with an empty
    one (Waiting).
   */
  lemma {:induction false} GateOfMeaning(clients: seq<Entry>, messages: map<Addr, Option<string>>)
    requires AllClients(clients)
    ensures GateOf(clients, messages) == Ready <==> AllAnswered(clients, messages)
    ensures GateOf(clients, messages) == MissingSlot ==>
      exists k: nat :: StopsAt(clients, messages, k) && clients[k].addr !in messages
    ensures GateOf(clients, messages) == Waiting ==>
      exists k: nat :: StopsAt(clients, messages, k) && clients[k].addr in messages && messages[clients[k].addr].None?
  {
    if clients != [] {
      var rest := clients[1..];
      assert AllClients(rest);
      GateOfMeaning(rest, messages);
      assert forall i :: 0 < i < |clients| ==> clients[i] == rest[i - 1];
      if GateOf(clients, messages) == MissingSlot {
        if clients[0].addr !in messages {
          assert StopsAt(clients, messages, 0);
        } else {
          var k: nat :| StopsAt(rest, messages, k) && rest[k].addr !in messages;
          assert StopsAt(clients, messages, k + 1);
        }
      }
      if GateOf(clients, messages) == Waiting {
        if clients[0].addr in messages && messages[clients[0].addr].None? {
          assert StopsAt(clients, messages, 0);
        } else {
          var k: nat :| StopsAt(rest, messages, k) && rest[k].addr in messages && messages[rest[k].addr].None?;
          assert StopsAt(clients, messages, k + 1);
        }
      }
    }
  }

  /** The addresses of the listed clients. */
  function Listed(clients: seq<Entry>): set<Addr>
    requires AllClients(clients)
  {
    set i | 0 <= i < |clients| :: clients[i].addr
  }

  /** The slots after a broadcast fired: None for every listed client, the rest untouched. */
  function Cleared(messages: map<Addr, Option<string>>, clients: seq<Entry>): (r: map<Addr, Option<string>>)
    requires AllClients(clients)
    ensures r.Keys == messages.Keys
  {
    map a | a in messages :: if a in Listed(clients) then None else messages[a]
  }

  /** Clearing one more client's slot: the slot of `clients[i]` becomes None on top of the earlier ones. */
  lemma ClearedStep(messages: map<Addr, Option<string>>, clients: seq<Entry>, i: nat)
    requires AllClients(clients) && i < |clients|
    requires clients[i].addr in messages
    ensures AllClients(clients[..i]) && AllClients(clients[..i + 1])
    ensures Cleared(messages, clients[..i + 1]) == Cleared(messages, clients[..i])[clients[i].addr := None]
  {
    assert clients[..i + 1] == clients[..i] + [clients[i]];
    assert Listed(clients[..i + 1]) == Listed(clients[..i]) + {clients[i].addr};
  }

  /** The sockets of the sends that did not go through, in send order. */
  function Undelivered(sends: seq<Send>): seq<Conn>
  {
    if sends == [] then []
    else Undelivered(sends[..|sends| - 1]) + (if sends[|sends| - 1].delivered then [] else [sends[|sends| - 1].conn])
  }

  /** The sends of one broadcast: one per listed client, in list order, all carrying `msg`. */
  ghost predicate SendsToEach(sends: seq<Send>, clients: seq<Entry>, msg: string)
    requires AllClients(clients)
  {
    |sends| == |clients| &&
    forall k :: 0 <= k < |sends| ==> sends[k].conn == clients[k].conn && sends[k].payload == msg
  }

  /** One more send, to the next client in the list. */
  lemma SendsStep(sends: seq<Send>, clients: seq<Entry>, msg: string, i: nat, delivered: bool)
    requires AllClients(clients) && i < |clients|
    requires AllClients(clients[..i]) && SendsToEach(sends, clients[..i], msg)
    ensures AllClients(clients[..i + 1])
    ensures SendsToEach(sends + [Send(clients[i].conn, msg, delivered)], clients[..i + 1], msg)
    ensures Undelivered(sends + [Send(clients[i].conn, msg, delivered)])
            == Undelivered(sends) + (if delivered then [] else [clients[i].conn])
  {
    assert (sends + [Send(clients[i].conn, msg, delivered)])[..i] == sends;
  }

  /** The module-level state of server.py: `list_of_clients` and `client_messages`, plus its sockets' history. */
  class Server {
    var clients: seq<Entry>
    var messages: map<Addr, Option<string>>
    var outbox: seq<Send>
    var closed: seq<Conn>

    /** Only accepted pairs are ever appended to the list. */
    ghost predicate Valid()
      reads this
    {
      AllClients(clients)
    }

    constructor ()
      ensures Valid()
      ensures clients == [] && messages == map[] && outbox == [] && closed == []
    {
      clients := [];
      messages := map[];
      outbox := [];
      closed := [];
    }

    /** The accept loop: `list_of_clients.append((conn, add))`. */
    method Accept(conn: Conn, addr: Addr)
      requires Valid()
      modifies this
      ensures Valid()
      ensures clients == old(clients) + [Client(conn, addr)]
      ensures messages == old(messages) && outbox == old(outbox) && closed == old(closed)
    {
      clients := clients + [Client(conn, addr)];
    }

    /** The start of `clientthread`: the new client's slot starts out empty. */
    method Register(addr: Addr)
      requires Valid()
      modifies this
      ensures Valid()
      ensures messages == old(messages)[addr := None]
      ensures clients == old(clients) && outbox == old(outbox) && closed == old(closed)
    {
      messages := messages[addr := None];
    }

    /** `remove`: drop `x` from the list when it is an element of it. */
    method Remove(x: Entry)
      requires Valid()
      modifies this
      ensures Valid()
      ensures clients == RemoveFirst(old(clients), x)
      ensures messages == old(messages) && outbox == old(outbox) && closed == old(closed)
    {
      RemoveFirstFacts(clients, x);
      RemoveKeepsClients(clients, x);
      if x in clients {
        clients := RemoveFirst(clients, x);
      }
    }

    /** The first loop of `broadcast`: look at each listed client's slot, in list order. */
    method Scan() returns (gate: Gate)
      requires Valid()
      ensures gate == GateOf(clients, messages)
    {
      var k := 0;
      while k < |clients|
        invariant k <= |clients|
        invariant GateOf(clients, messages) == GateOf(clients[k..], messages)
      {
        var add := clients[k].addr;
        assert clients[k..][1..] == clients[k + 1..];
        if add !in messages {
          return MissingSlot;
        }
        if messages[add].None? {
          return Waiting;
        }
        k := k + 1;
      }
      return Ready;
    }

    /**
      `broadcast`: when every listed client has answered, clear each listed
      client's slot and send `msg` to it, in list order; a failed send closes
      the socket and calls `remove(conn)`, which finds nothing to remove.
      Otherwise nothing changes; `gate` says why (Waiting: `return`;
      MissingSlot: the KeyError raised by `client_messages[add]`).
     */
    method Broadcast(msg: string) returns (gate: Gate)
      requires Valid()
      modifies this
      ensures Valid()
      ensures gate == GateOf(old(clients), old(messages))
      ensures clients == old(clients)
      ensures gate != Ready ==> messages == old(messages) && outbox == old(outbox) && closed == old(closed)
      ensures gate == Ready ==>
        && messages == Cleared(old(messages), old(clients))
        && |outbox| == |old(outbox)| + |clients|
        && outbox[..|old(outbox)|] == old(outbox)
        && SendsToEach(outbox[|old(outbox)|..], clients, msg)
        && closed == old(closed) + Undelivered(outbox[|old(outbox)|..])
    {
      gate := Scan();
      if gate != Ready {
        return;
      }
      assert AllAnswered(clients, messages) by {
        GateOfMeaning(clients, messages);
      }
      var list, slots := clients, messages;
      assert slots == Cleared(messages, list[..0]);
      var sends: seq<Send>, shut: seq<Conn> := [], [];
      for i := 0 to |list|
        invariant Valid() && clients == list
        invariant messages == old(messages) && outbox == old(outbox) && closed == old(closed)
        invariant slots == Cleared(messages, list[..i])
        invariant SendsToEach(sends, list[..i], msg)
        invariant shut == Undelivered(sends)
      {
        var Client(conn, add) := list[i];
        ClearedStep(messages, list, i);
        slots := slots[add := None];
        var delivered: bool := *;
        var attempt := Send(conn, msg, delivered);
        SendsStep(sends, list, msg, i, delivered);
        sends := sends + [attempt];
        if !delivered {
          shut := shut + [conn];
          RemoveSocketIsNoOp(clients, conn);
          Remove(Socket(conn));
        }
      }
      assert list[..|list|] == list;
      messages, outbox, closed := slots, outbox + sends, closed + shut;
      assert outbox[|old(outbox)|..] == sends;
    }

    /**
      One pass of `clientthread`'s receive loop after `recv` returned
      `message`: a non-empty message becomes the client's pending message
      `"<host> message"` and is broadcast; an empty one calls `remove(conn)`,
      which finds nothing to remove.
     */
    method Receive(conn: Conn, addr: Addr, message: string) returns (gate: Option<Gate>)
      requires Valid()
      modifies this
      ensures Valid()
      ensures clients == old(clients)
      ensures message == "" ==> gate == None && messages == old(messages) && outbox == old(outbox) && closed == old(closed)
      ensures message != "" ==>
        var text := "<" + addr.host + "> " + message;
        var posted := old(messages)[addr := Some(text)];
        && gate == Some(GateOf(old(clients), posted))
        && (gate != Some(Ready) ==> messages == posted && outbox == old(outbox) && closed == old(closed))
        && (gate == Some(Ready) ==>
              && messages == Cleared(posted, old(clients))
              && |outbox| == |old(outbox)| + |old(clients)|
              && outbox[..|old(outbox)|] == old(outbox)
              && SendsToEach(outbox[|old(outbox)|..], old(clients), text)
              && closed == old(closed) + Undelivered(outbox[|old(outbox)|..]))
    {
      if message != "" {
        var messageToSend := "<" + addr.host + "> " + message;
        messages := messages[addr := Some(messageToSend)];
        var g := Broadcast(messageToSend);
        gate := Some(g);
      } else {
        RemoveSocketIsNoOp(clients, conn);
        Remove(Socket(conn));
        gate := None;
      }
    }
  }

  /**
    The barrier: once every other listed client has answered, the answer of
    `addr` releases it, provided all listed clients have a slot.
   */
  lemma LastArrivalReleases(clients: seq<Entry>, messages: map<Addr, Option<string>>, addr: Addr, text: string)
    requires AllClients(clients)
    requires forall i :: 0 <= i < |clients| ==>
      clients[i].addr in messages && (clients[i].addr == addr || messages[clients[i].addr].Some?)
    ensures GateOf(clients, messages[addr := Some(text)]) == Ready
  {
    GateOfMeaning(clients, messages[addr := Some(text)]);
  }

  /** While another listed client has not answered, an answer does not release the barrier. */
  lemma OthersPendingHolds(clients: seq<Entry>, messages: map<Addr, Option<string>>, addr: Addr, text: string, k: nat)
    requires AllClients(clients)
    requires k < |clients| && clients[k].addr != addr
    requires clients[k].addr in messages && messages[clients[k].addr].None?
    ensures GateOf(clients, messages[addr := Some(text)]) != Ready
  {
    GateOfMeaning(clients, messages[addr := Some(text)]);
  }

  /** After a broadcast fired, the barrier is closed again: with any client listed, the next scan waits. */
  lemma ClearedWaits(clients: seq<Entry>, messages: map<Addr, Option<string>>)
    requires AllClients(clients) && |clients| > 0
    requires AllAnswered(clients, messages)
    ensures GateOf(clients, Cleared(messages, clients)) == Waiting
  {
    assert clients[0].addr in Listed(clients);
  }
}
