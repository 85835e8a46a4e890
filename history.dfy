/** The persisted message record and the query behind `GET /messages/:userId`:
    every stored message whose sender and recipient both lie in
    `{userId, ourUserId}`, sorted by `createdAt` ascending. */
module History {
  import opened Wrappers
  import opened Users
  import Json

  /** A stored message. `sender` is the sending connection's `userId`
      (absent when that connection is unbound); `recipient` and `text` are
      stored as the client sent them; `id` and `createdAt` come from the store. */
  datatype Message = Message(
    id: nat,
    sender: Option<UserId>,
    recipient: Json.Value,
    text: Json.Value,
    createdAt: int)

  /** `{sender: {$in: [userId, ourUserId]}, recipient: {$in: [userId, ourUserId]}}`. */
  predicate Between(m: Message, userId: UserId, ourUserId: UserId)
  {
    && m.sender.Some?
    && (m.sender.value == userId || m.sender.value == ourUserId)
    && (m.recipient == Json.String(userId) || m.recipient == Json.String(ourUserId))
  }

  /** The stored messages that match, in store order. */
  function Conversation(store: seq<Message>, userId: UserId, ourUserId: UserId): (r: seq<Message>)
    ensures forall m :: m in r <==> m in store && Between(m, userId, ourUserId)
    ensures forall m :: Between(m, userId, ourUserId) ==> multiset(r)[m] == multiset(store)[m]
  {
    if store == [] then []
    else
      var rest := Conversation(store[1..], userId, ourUserId);
      assert store == [store[0]] + store[1..];
      if Between(store[0], userId, ourUserId) then [store[0]] + rest else rest
  }

  ghost predicate SortedByCreatedAt(ms: seq<Message>)
  {
    forall i, j :: 0 <= i < j < |ms| ==> ms[i].createdAt <= ms[j].createdAt
  }

  /** The messages of `ms` stamped at instant `k`, in their order in `ms`. */
  function StampedAt(ms: seq<Message>, k: int): seq<Message>
  {
    if ms == [] then []
    else (if ms[0].createdAt == k then [ms[0]] else []) + StampedAt(ms[1..], k)
  }

  /** Inserts `m` before the first message stamped no earlier than it. */
  function Insert(m: Message, ms: seq<Message>): seq<Message>
  {
    if ms == [] || m.createdAt <= ms[0].createdAt then [m] + ms
    else [ms[0]] + Insert(m, ms[1..])
  }

  /** `.sort({createdAt: 1})`, as a stable insertion sort. The store leaves
      the order of equal `createdAt` values open; the model fixes it to
      store order. */
  function SortByCreatedAt(ms: seq<Message>): seq<Message>
  {
    if ms == [] then [] else Insert(ms[0], SortByCreatedAt(ms[1..]))
  }

  /** The result of the history route. */
  function Query(store: seq<Message>, userId: UserId, ourUserId: UserId): seq<Message>
  {
    SortByCreatedAt(Conversation(store, userId, ourUserId))
  }

  // ---------------------------------------------------------------------
  // Insertion sort

  lemma {:induction false} InsertPermutes(m: Message, ms: seq<Message>)
    ensures multiset(Insert(m, ms)) == multiset(ms) + multiset{m}
  {
    if ms != [] && m.createdAt > ms[0].createdAt {
      InsertPermutes(m, ms[1..]);
      assert ms == [ms[0]] + ms[1..];
    }
  }

  lemma {:induction false} InsertSorted(m: Message, ms: seq<Message>)
    requires SortedByCreatedAt(ms)
    ensures SortedByCreatedAt(Insert(m, ms))
  {
    if ms != [] && m.createdAt > ms[0].createdAt {
      var tail := ms[1..];
      InsertSorted(m, tail);
      InsertPermutes(m, tail);
      var r := Insert(m, tail);
      forall x | x in r ensures ms[0].createdAt <= x.createdAt {
        assert x in multiset(r);
        if x != m {
          assert x in multiset(tail);
        }
      }
      assert forall j :: 0 <= j < |r| ==> r[j] in r;
    }
  }

  /** Stability: inserting `m` adds it in front of the messages stamped at
      its own instant and leaves the others' order alone. */
  lemma {:induction false} InsertStable(m: Message, ms: seq<Message>, k: int)
    ensures StampedAt(Insert(m, ms), k)
            == if m.createdAt == k then [m] + StampedAt(ms, k) else StampedAt(ms, k)
  {
    if ms == [] || m.createdAt <= ms[0].createdAt {
      assert ([m] + ms)[1..] == ms;
    } else {
      InsertStable(m, ms[1..], k);
      assert ([ms[0]] + Insert(m, ms[1..]))[1..] == Insert(m, ms[1..]);
    }
  }

  lemma {:induction false} SortPermutes(ms: seq<Message>)
    ensures multiset(SortByCreatedAt(ms)) == multiset(ms)
  {
    if ms != [] {
      SortPermutes(ms[1..]);
      InsertPermutes(ms[0], SortByCreatedAt(ms[1..]));
      assert ms == [ms[0]] + ms[1..];
    }
  }

  lemma {:induction false} SortSorted(ms: seq<Message>)
    ensures SortedByCreatedAt(SortByCreatedAt(ms))
  {
    if ms != [] {
      SortSorted(ms[1..]);
      InsertSorted(ms[0], SortByCreatedAt(ms[1..]));
    }
  }

  /** Messages stamped at the same instant keep their store order. */
  lemma {:induction false} SortStable(ms: seq<Message>, k: int)
    ensures StampedAt(SortByCreatedAt(ms), k) == StampedAt(ms, k)
  {
    if ms != [] {
      SortStable(ms[1..], k);
      InsertStable(ms[0], SortByCreatedAt(ms[1..]), k);
    }
  }

  // ---------------------------------------------------------------------
  // The history route

  /** The history holds every matching stored message, as many times as it
      is stored, and nothing else: in particular every message between the
      two users in either direction, and the self-messages when both ids agree. */
  lemma QueryExact(store: seq<Message>, userId: UserId, ourUserId: UserId)
    ensures forall m :: m in Query(store, userId, ourUserId) <==> m in store && Between(m, userId, ourUserId)
    ensures forall m :: Between(m, userId, ourUserId)
              ==> multiset(Query(store, userId, ourUserId))[m] == multiset(store)[m]
  {
    var c := Conversation(store, userId, ourUserId);
    SortPermutes(c);
    forall m ensures m in Query(store, userId, ourUserId) <==> m in c {
      assert m in Query(store, userId, ourUserId) <==> m in multiset(Query(store, userId, ourUserId));
    }
  }

  /** The history is ordered by non-decreasing `createdAt`, and, by the
      model's choice of tie order, messages with the same `createdAt` appear
      in store order. */
  lemma QueryOrdered(store: seq<Message>, userId: UserId, ourUserId: UserId, k: int)
    ensures SortedByCreatedAt(Query(store, userId, ourUserId))
    ensures StampedAt(Query(store, userId, ourUserId), k) == StampedAt(Conversation(store, userId, ourUserId), k)
  {
    SortSorted(Conversation(store, userId, ourUserId));
    SortStable(Conversation(store, userId, ourUserId), k);
  }

  /** The query does not depend on which of the two ids is the caller's. */
  lemma QuerySymmetric(store: seq<Message>, userId: UserId, ourUserId: UserId)
    ensures Query(store, userId, ourUserId) == Query(store, ourUserId, userId)
  {
    assert Conversation(store, userId, ourUserId) == Conversation(store, ourUserId, userId) by {
      ConversationSymmetric(store, userId, ourUserId);
    }
  }

  /** The filter keeps store order: filtering a concatenation is
      concatenating the filtered parts, so a message stored later appears
      later in the conversation. */
  lemma {:induction false} ConversationAppend(a: seq<Message>, b: seq<Message>, userId: UserId, ourUserId: UserId)
    ensures Conversation(a + b, userId, ourUserId)
            == Conversation(a, userId, ourUserId) + Conversation(b, userId, ourUserId)
  {
    if a == [] {
      assert a + b == b;
    } else {
      assert (a + b)[0] == a[0] && (a + b)[1..] == a[1..] + b;
      ConversationAppend(a[1..], b, userId, ourUserId);
    }
  }

  lemma {:induction false} ConversationSymmetric(store: seq<Message>, a: UserId, b: UserId)
    ensures Conversation(store, a, b) == Conversation(store, b, a)
  {
    if store != [] {
      ConversationSymmetric(store[1..], a, b);
    }
  }
}
