/** The websocket side of the server: one `Connection` object per open
    socket, carrying the bound identity and the heartbeat fields, and the
    `Server` that owns the client list, the message store and the ordered
    trace of what it persists and sends. */
module Realtime {
  import opened Wrappers
  import opened Users
  import Json
  import Cookie
  import Heartbeat
  import History

  /** The identity a connection binds: the cookie token, verified. Token
      verification is a parameter: `verify` maps a token to the identity it
      carries, or to nothing when it does not verify. An identity is bound
      only from a header whose first `token=` piece carries a non-empty
      value, and then it is what verification returns for that value. */
  function Authenticate(header: Option<string>, verify: string -> Option<Identity>): (r: Option<Identity>)
    ensures header.None? ==> r.None?
    ensures r.Some? ==>
      && header.Some?
      && exists i, t :: (Cookie.FirstTokenSegment(Cookie.Split(header.value, ';'), i)
                         && Cookie.ValueAfterName(Cookie.Split(header.value, ';')[i], t)
                         && t != "" && verify(t) == r)
    ensures header.Some? ==>
      forall i, t :: (Cookie.FirstTokenSegment(Cookie.Split(header.value, ';'), i)
                      && Cookie.ValueAfterName(Cookie.Split(header.value, ';')[i], t)
                      && t != "") ==> r == verify(t)
  {
    Cookie.ExtractTokenExact(header);
    match Cookie.ExtractToken(header)
    case None => None
    case Some(t) => verify(t)
  }

  /** One entry of a presence list: `{userId: c.userId, username: c.username}`. */
  datatype Entry = Entry(userId: Option<UserId>, username: Option<string>)

  /** What the server sends on a socket. */
  datatype Payload =
    | Online(online: seq<Entry>)
    | Chat(text: Json.Value, sender: Option<UserId>, recipient: Json.Value, id: nat)

  /** One effect on the outside world, in the order the server performs them. */
  datatype Effect =
    | Created(record: History.Message)
    | Sent(to: Connection, payload: Payload)

  /** An inbound chat message after `JSON.parse` and destructuring. */
  datatype Inbound = Inbound(recipient: Json.Value, text: Json.Value)

  /** `if (recipient, text)`: the comma operator evaluates `recipient` and
      yields `text`, so only the truthiness of `text` decides. */
  predicate RelayGuard(m: Inbound)
  {
    Json.Truthy(m.text)
  }

  /** `c.userId === recipient`. Strict equality on strings compares
      contents, and `undefined === undefined`, so an unbound connection
      matches a message that names no recipient. */
  predicate Addressed(userId: Option<UserId>, recipient: Json.Value)
  {
    match userId
    case None => recipient == Json.Undefined
    case Some(u) => recipient == Json.String(u)
  }

  class Connection {
    var userId: Option<UserId>
    var username: Option<string>
    // The heartbeat fields, and the timer runtime's bookkeeping for this socket
    var isAlive: bool
    var timer: bool
    var deathTimer: Option<Heartbeat.TimerId>
    var pendingDeaths: set<Heartbeat.TimerId>
    var nextTimer: Heartbeat.TimerId
    var pings: nat
    var terminated: bool

    /** The heartbeat state these fields represent. */
    function Beat(): Heartbeat.State
      reads this
    {
      Heartbeat.State(isAlive, timer, deathTimer, pendingDeaths, nextTimer, pings, terminated)
    }

    /** The start of the `connection` handler: `isAlive = true` and the
        interval armed; the identity is not bound yet. */
    constructor ()
      ensures Beat() == Heartbeat.Start
      ensures userId == None && username == None
    {
      userId, username := None, None;
      isAlive, timer := true, true;
      deathTimer, pendingDeaths, nextTimer := None, {}, 0;
      pings, terminated := 0, false;
    }

    /** `connection.userId = userId; connection.username = username` once
        the cookie token verifies; nothing otherwise. */
    method Bind(header: Option<string>, verify: string -> Option<Identity>)
      modifies this
      ensures Beat() == old(Beat())
      ensures match Authenticate(header, verify)
              case None => userId == old(userId) && username == old(username)
              case Some(id) => userId == Some(id.userId) && username == Some(id.username)
    {
      var identity := Authenticate(header, verify);
      if identity.Some? {
        userId := Some(identity.value.userId);
        username := Some(identity.value.username);
      }
    }

    /** The interval fires: ping, then `deathTimer = setTimeout(...)`. */
    method Tick()
      modifies this
      ensures Beat() == Heartbeat.Tick(old(Beat()))
      ensures userId == old(userId) && username == old(username)
    {
      pings := pings + 1;
      deathTimer := Some(nextTimer);
      pendingDeaths := pendingDeaths + {nextTimer};
      nextTimer := nextTimer + 1;
    }

    /** `clearTimeout(connection.deathTimer)` on a pong. */
    method Pong()
      modifies this
      ensures Beat() == Heartbeat.Pong(old(Beat()))
      ensures userId == old(userId) && username == old(username)
    {
      if deathTimer.Some? {
        pendingDeaths := pendingDeaths - {deathTimer.value};
      }
    }

    /** The connection's part of a death timer firing: `isAlive = false` and
        `terminate()`. */
    method Expire(t: Heartbeat.TimerId)
      requires t in pendingDeaths
      modifies this
      ensures Beat() == Heartbeat.Expire(old(Beat()), t)
      ensures userId == old(userId) && username == old(username)
    {
      pendingDeaths := pendingDeaths - {t};
      isAlive := false;
      terminated := true;
    }
  }

  /** The presence list: one entry per client, in client order, unbound
      clients included. */
  function Presence(cs: seq<Connection>): (r: seq<Entry>)
    reads cs
    ensures |r| == |cs|
    ensures forall i :: 0 <= i < |cs| ==> r[i] == Entry(cs[i].userId, cs[i].username)
  {
    if cs == [] then [] else [Entry(cs[0].userId, cs[0].username)] + Presence(cs[1..])
  }

  /** The clients a message for `recipient` goes to, in client order. */
  function Recipients(cs: seq<Connection>, recipient: Json.Value): seq<Connection>
    reads cs
  {
    if cs == [] then []
    else
      var rest := Recipients(cs[1..], recipient);
      if Addressed(cs[0].userId, recipient) then [cs[0]] + rest else rest
  }

  /** One send of `p` to each target, in order. */
  function SendAll(targets: seq<Connection>, p: Payload): (r: seq<Effect>)
    ensures |r| == |targets|
    ensures forall i :: 0 <= i < |targets| ==> r[i] == Sent(targets[i], p)
  {
    if targets == [] then [] else [Sent(targets[0], p)] + SendAll(targets[1..], p)
  }

  /** The clients except `c`: the ws library's removal from `wss.clients`. */
  function Without(cs: seq<Connection>, c: Connection): (r: seq<Connection>)
    ensures c !in r
    ensures forall i :: 0 <= i < |r| ==> r[i] in cs
    ensures forall i :: 0 <= i < |cs| && cs[i] != c ==> cs[i] in r
  {
    if cs == [] then []
    else
      var rest := Without(cs[1..], c);
      assert forall i :: 1 <= i < |cs| ==> cs[i] == cs[1..][i - 1];
      if cs[0] == c then rest else [cs[0]] + rest
  }

  ghost predicate Distinct(cs: seq<Connection>)
  {
    forall i, j :: 0 <= i < j < |cs| ==> cs[i] != cs[j]
  }

  // ---------------------------------------------------------------------
  // Lemmas about the fan-out

  /** The recipients are exactly the clients addressed, and no more of them. */
  lemma {:induction false} RecipientsExact(cs: seq<Connection>, recipient: Json.Value)
    ensures |Recipients(cs, recipient)| <= |cs|
    ensures forall c :: c in Recipients(cs, recipient) <==> c in cs && Addressed(c.userId, recipient)
  {
    if cs != [] {
      RecipientsExact(cs[1..], recipient);
      assert forall c :: c in cs <==> c == cs[0] || c in cs[1..];
    }
  }

  /** Filtering distributes over concatenation, so recipients keep client order. */
  lemma {:induction false} RecipientsAppend(a: seq<Connection>, b: seq<Connection>, recipient: Json.Value)
    ensures Recipients(a + b, recipient) == Recipients(a, recipient) + Recipients(b, recipient)
  {
    if a == [] {
      assert a + b == b;
    } else {
      assert (a + b)[0] == a[0] && (a + b)[1..] == a[1..] + b;
      RecipientsAppend(a[1..], b, recipient);
    }
  }

  /** The loop step of a fan-out: one more send at the end. */
  lemma SendAllPrefix(ts: seq<Connection>, i: nat, p: Payload)
    requires i < |ts|
    ensures SendAll(ts[..i + 1], p) == SendAll(ts[..i], p) + [Sent(ts[i], p)]
  {
  }

  /** A presence broadcast to distinct clients (as `wss.clients` is) reaches
      every client exactly once, in client order, and every client gets the
      same list. */
  lemma BroadcastReachesAll(cs: seq<Connection>)
    requires Distinct(cs)
    ensures var sends := SendAll(cs, Online(Presence(cs)));
      && |sends| == |cs|
      && (forall i :: 0 <= i < |cs| ==> sends[i].to == cs[i])
      && (forall c :: c in cs ==> exists i :: 0 <= i < |sends| && sends[i].to == c)
      && (forall i, j :: 0 <= i < j < |sends| ==> sends[i].to != sends[j].to)
      && (forall i, j :: 0 <= i < |cs| && 0 <= j < |cs| ==> sends[i].payload == sends[j].payload)
      && (forall i :: 0 <= i < |cs| ==> |sends[i].payload.online| == |cs|)
  {
  }

  /** A chat message is sent to exactly the clients it is addressed to, each
      getting the same payload. */
  lemma DeliveryExact(cs: seq<Connection>, recipient: Json.Value, p: Payload)
    ensures forall c :: (exists i :: 0 <= i < |SendAll(Recipients(cs, recipient), p)|
                                     && SendAll(Recipients(cs, recipient), p)[i].to == c)
                        <==> c in cs && Addressed(c.userId, recipient)
    ensures forall e :: e in SendAll(Recipients(cs, recipient), p) ==> e.payload == p
  {
    var ts := Recipients(cs, recipient);
    var sends := SendAll(ts, p);
    RecipientsExact(cs, recipient);
    forall c ensures (exists i :: 0 <= i < |sends| && sends[i].to == c) <==> c in cs && Addressed(c.userId, recipient) {
      if c in ts {
        var i :| 0 <= i < |ts| && ts[i] == c;
        assert sends[i].to == c;
      }
      if exists i :: 0 <= i < |sends| && sends[i].to == c {
        var i :| 0 <= i < |sends| && sends[i].to == c;
        assert ts[i] == c;
      }
    }
  }

  /** A message naming no recipient goes to every unbound client and to
      no bound one. */
  lemma RecipientlessReachesUnbound(cs: seq<Connection>)
    ensures forall c :: c in Recipients(cs, Json.Undefined) <==> c in cs && c.userId.None?
  {
    RecipientsExact(cs, Json.Undefined);
  }

  class Server {
    var clients: seq<Connection>
    var store: seq<History.Message>
    var trace: seq<Effect>

    /** `wss.clients` is a set: no client appears twice. */
    ghost predicate Valid()
      reads this
    {
      Distinct(clients)
    }

    constructor ()
      ensures Valid()
      ensures clients == [] && store == [] && trace == []
    {
      clients, store, trace := [], [], [];
    }

    /** `targets.forEach(c => c.send(p))`. */
    method SendEach(targets: seq<Connection>, p: Payload)
      modifies this
      ensures clients == old(clients) && store == old(store)
      ensures trace == old(trace) + SendAll(targets, p)
    {
      var i := 0;
      while i < |targets|
        invariant 0 <= i <= |targets|
        invariant clients == old(clients) && store == old(store)
        invariant trace == old(trace) + SendAll(targets[..i], p)
      {
        SendAllPrefix(targets, i, p);
        trace := trace + [Sent(targets[i], p)];
        i := i + 1;
      }
      assert targets[..i] == targets;
    }

    /** `notifyAboutOnlinePeople`: send every client the same list of every
        client's `{userId, username}`. */
    method NotifyAboutOnlinePeople()
      modifies this
      ensures clients == old(clients) && store == old(store)
      ensures trace == old(trace) + SendAll(clients, Online(Presence(clients)))
    {
      SendEach(clients, Online(Presence(clients)));
    }

    /** A socket opens: the ws library adds it to the clients, then the
        handler starts the heartbeat, binds the cookie's identity and
        broadcasts presence. */
    method Connect(header: Option<string>, verify: string -> Option<Identity>) returns (c: Connection)
      requires Valid()
      modifies this
      ensures Valid() && fresh(c)
      ensures clients == old(clients) + [c] && store == old(store)
      ensures c.Beat() == Heartbeat.Start
      ensures match Authenticate(header, verify)
              case None => c.userId == None && c.username == None
              case Some(id) => c.userId == Some(id.userId) && c.username == Some(id.username)
      ensures trace == old(trace) + SendAll(clients, Online(Presence(clients)))
    {
      c := new Connection();
      clients := clients + [c];
      c.Bind(header, verify);
      NotifyAboutOnlinePeople();
    }

    /** Death timer `t` of `c` fires: `isAlive = false`, terminate, and
        broadcast presence. Termination does not remove `c` from the
        clients; the ws library does that later, on `close`. */
    method DeathFire(c: Connection, t: Heartbeat.TimerId)
      requires t in c.pendingDeaths
      modifies this, c
      ensures c.Beat() == Heartbeat.Expire(old(c.Beat()), t)
      ensures c.userId == old(c.userId) && c.username == old(c.username)
      ensures clients == old(clients) && store == old(store)
      ensures trace == old(trace) + SendAll(clients, Online(Presence(clients)))
    {
      c.Expire(t);
      NotifyAboutOnlinePeople();
    }

    /** The socket closes: the ws library drops it from the clients. No
        handler is registered for `close`, so nothing is broadcast. */
    method Close(c: Connection)
      requires Valid()
      modifies this
      ensures Valid()
      ensures clients == Without(old(clients), c)
      ensures store == old(store) && trace == old(trace)
    {
      WithoutDistinct(clients, c);
      clients := Without(clients, c);
    }

    /** The `message` handler for a message received on `c` at instant
        `now`: when the guard passes, persist one record with `sender =
        c.userId`, then send it, with its id, to every client whose `userId`
        is the recipient. */
    method Relay(c: Connection, m: Inbound, now: int) returns (accepted: bool)
      modifies this
      ensures accepted == RelayGuard(m)
      ensures clients == old(clients)
      ensures !accepted ==> store == old(store) && trace == old(trace)
      ensures accepted ==>
        var doc := History.Message(|old(store)|, c.userId, m.recipient, m.text, now);
        && store == old(store) + [doc]
        && trace == old(trace) + [Created(doc)]
                    + SendAll(Recipients(clients, m.recipient), Chat(m.text, c.userId, m.recipient, doc.id))
    {
      accepted := RelayGuard(m);
      if accepted {
        var doc := History.Message(|store|, c.userId, m.recipient, m.text, now);
        store := store + [doc];
        trace := trace + [Created(doc)];
        SendEach(Recipients(clients, m.recipient), Chat(m.text, c.userId, m.recipient, doc.id));
      }
    }
  }

  lemma {:induction false} WithoutDistinct(cs: seq<Connection>, c: Connection)
    requires Distinct(cs)
    ensures Distinct(Without(cs, c))
  {
    if cs != [] {
      WithoutDistinct(cs[1..], c);
      var rest := Without(cs[1..], c);
      if cs[0] != c {
        assert cs[0] !in rest;
        assert Without(cs, c) == [cs[0]] + rest;
      }
    }
  }
}
