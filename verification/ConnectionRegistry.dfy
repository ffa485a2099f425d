// The registry of workspace connections: who is subscribed to what, and which
// chats have a broadcast pending, a worker running and a last broadcast time.
module WorkspaceRegistry {

  type Topic = string
  datatype Connection = Connection(handle: nat)
  type SubscriptionId = string
  type ChatId = string
  type Status = string
  type Time = nat  // milliseconds

  const MIN_INTERVAL: Time := 150

  type Subscribers = map<Topic, map<Connection, set<SubscriptionId>>>
  type Triple = (Topic, Connection, SubscriptionId)

  // What the nested maps stand for.
  ghost function Triples(s: Subscribers): set<Triple> {
    set t, c, i | t in s && c in s[t] && i in s[t][c] :: (t, c, i)
  }

  ghost function Ids(s: Subscribers, t: Topic, c: Connection): set<SubscriptionId> {
    if t in s && c in s[t] then s[t][c] else {}
  }

  lemma {:induction false} TriplesOfIds(s: Subscribers)
    ensures forall t, c, i :: (t, c, i) in Triples(s) <==> i in Ids(s, t, c)
  {
  }

  // No empty inner map or set.
  ghost predicate Tidy(s: Subscribers) {
    && (forall t :: t in s ==> s[t] != map[])
    && (forall t, c :: t in s && c in s[t] ==> s[t][c] != {})
  }

  // ----- the broadcast part of the state, one lock section at a time -----

  datatype Broadcasts = Broadcasts(
    statuses: map<ChatId, Status>,
    pending: set<ChatId>,
    running: set<ChatId>,
    last: map<ChatId, Time>
  )

  datatype Decision = Exit | Wait(until: Time) | Broadcast

  // scheduleBroadcast
  function Schedule(b: Broadcasts, chat: ChatId, status: Status): Broadcasts {
    b.(statuses := b.statuses[chat := status], pending := b.pending + {chat}, running := b.running + {chat})
  }

  // Whether that call has the sidebar refreshed.
  predicate AsksRefresh(b: Broadcasts, chat: ChatId, status: Status) {
    chat !in b.statuses || b.statuses[chat] != status
  }

  // One turn of the worker of a chat, entering the lock at `now` and, if it
  // broadcasts, reading the clock again at `stamp`.
  function Decide(b: Broadcasts, chat: ChatId, now: Time): Decision {
    if chat !in b.pending then Exit
    else if chat in b.last && b.last[chat] + MIN_INTERVAL > now then Wait(b.last[chat] + MIN_INTERVAL)
    else Broadcast
  }

  function Turn(b: Broadcasts, chat: ChatId, now: Time, stamp: Time): Broadcasts {
    match Decide(b, chat, now)
    case Exit => b.(running := b.running - {chat})
    case Wait(_) => b
    case Broadcast => b.(pending := b.pending - {chat}, last := b.last[chat := stamp])
  }

  class ConnectionRegistry {
    var connections: set<Connection>
    var subscribers: Subscribers
    var broadcastPending: set<ChatId>
    var broadcastRunning: set<ChatId>
    var lastChatBroadcast: map<ChatId, Time>
    var chatStatuses: map<ChatId, Status>

    ghost predicate Valid()
      reads this
    {
      Tidy(subscribers)
    }

    function State(): Broadcasts
      reads this
    {
      Broadcasts(chatStatuses, broadcastPending, broadcastRunning, lastChatBroadcast)
    }

    constructor ()
      ensures Valid() && connections == {} && Triples(subscribers) == {}
      ensures State() == Broadcasts(map[], {}, {}, map[])
    {
      connections := {};
      subscribers := map[];
      broadcastPending, broadcastRunning := {}, {};
      lastChatBroadcast, chatStatuses := map[], map[];
    }

    // The lock section of scheduleBroadcast: whether to start a worker, and
    // whether the sidebar has to be refreshed.
    method ScheduleBroadcast(chat: ChatId, status: Status) returns (start: bool, sidebarChanged: bool)
      modifies this`broadcastPending, this`broadcastRunning, this`chatStatuses
      ensures State() == Schedule(old(State()), chat, status)
      ensures chatStatuses == old(chatStatuses)[chat := status]
      ensures broadcastPending == old(broadcastPending) + {chat}
      ensures broadcastRunning == old(broadcastRunning) + {chat}
      ensures start <==> chat !in old(broadcastRunning)
      ensures sidebarChanged <==> chat !in old(chatStatuses) || old(chatStatuses)[chat] != status
      ensures sidebarChanged <==> AsksRefresh(old(State()), chat, status)
    {
      sidebarChanged := chat !in chatStatuses || chatStatuses[chat] != status;
      chatStatuses := chatStatuses[chat := status];
      broadcastPending := broadcastPending + {chat};
      if chat in broadcastRunning {
        assert broadcastRunning == broadcastRunning + {chat};
        return false, sidebarChanged;
      }
      broadcastRunning := broadcastRunning + {chat};
      return true, sidebarChanged;
    }

    // The lock section of a worker's turn.
    method WorkerTurn(chat: ChatId, now: Time, stamp: Time) returns (decision: Decision)
      requires now <= stamp
      modifies this`broadcastPending, this`broadcastRunning, this`lastChatBroadcast
      ensures decision == Decide(old(State()), chat, now)
      ensures State() == Turn(old(State()), chat, now, stamp)
      ensures chat !in old(broadcastPending) ==>
                && decision == Exit && broadcastRunning == old(broadcastRunning) - {chat}
                && broadcastPending == old(broadcastPending) && lastChatBroadcast == old(lastChatBroadcast)
      ensures chat in old(broadcastPending) && chat in old(lastChatBroadcast) && now < old(lastChatBroadcast)[chat] + 150 ==>
                && decision == Wait(old(lastChatBroadcast)[chat] + 150) && broadcastRunning == old(broadcastRunning)
                && broadcastPending == old(broadcastPending) && lastChatBroadcast == old(lastChatBroadcast)
      ensures chat in old(broadcastPending)
              && (chat !in old(lastChatBroadcast) || old(lastChatBroadcast)[chat] + 150 <= now) ==>
                && decision == Broadcast && broadcastRunning == old(broadcastRunning)
                && broadcastPending == old(broadcastPending) - {chat}
                && lastChatBroadcast == old(lastChatBroadcast)[chat := stamp]
    {
      if chat !in broadcastPending {
        broadcastRunning := broadcastRunning - {chat};
        return Exit;
      }
      if chat in lastChatBroadcast {
        var until := lastChatBroadcast[chat] + MIN_INTERVAL;
        if until > now {
          return Wait(until);
        }
      }
      broadcastPending := broadcastPending - {chat};
      lastChatBroadcast := lastChatBroadcast[chat := stamp];
      return Broadcast;
    }

    method Add(conn: Connection)
      modifies this`connections
      ensures connections == old(connections) + {conn}
    {
      connections := connections + {conn};
    }

    method Subscribe(topic: Topic, id: SubscriptionId, conn: Connection)
      requires Valid()
      modifies this`subscribers
      ensures Valid()
      ensures Triples(subscribers) == old(Triples(subscribers)) + {(topic, conn, id)}
    {
      hide Triples, Tidy;
      ghost var before := subscribers;
      if topic !in subscribers {
        subscribers := subscribers[topic := map[]];
      }
      var topicSubscribers := subscribers[topic];
      if conn !in topicSubscribers {
        topicSubscribers := topicSubscribers[conn := {}];
      }
      var ids := topicSubscribers[conn] + {id};
      topicSubscribers := topicSubscribers[conn := ids];
      subscribers := subscribers[topic := topicSubscribers];
      SubscribedNesting(before, topic, conn, ids, topicSubscribers, subscribers);
      InnerChanged(before, subscribers, topic, topicSubscribers, conn, ids);
      TriplesAdded(before, subscribers, topic, conn, id, ids);
    }

    method Unsubscribe(topic: Topic, id: SubscriptionId, conn: Connection)
      requires Valid()
      modifies this`subscribers
      ensures Valid()
      ensures Triples(subscribers) == old(Triples(subscribers)) - {(topic, conn, id)}
    {
      ghost var before := subscribers;
      if topic !in subscribers {
        return;
      }
      var topicSubscribers := subscribers[topic];
      if conn !in topicSubscribers {
        return;
      }
      var ids := topicSubscribers[conn] - {id};
      topicSubscribers := topicSubscribers[conn := ids];
      if ids == {} {
        topicSubscribers := topicSubscribers - {conn};
      }
      subscribers := subscribers[topic := topicSubscribers];
      if topicSubscribers == map[] {
        subscribers := subscribers - {topic};
      }
      InnerChanged(before, subscribers, topic, topicSubscribers, conn, ids);
    }

    method Remove(conn: Connection)
      requires Valid()
      modifies this`connections, this`subscribers
      ensures Valid()
      ensures connections == old(connections) - {conn}
      ensures Triples(subscribers) == set x | x in old(Triples(subscribers)) && x.1 != conn
    {
      connections := connections - {conn};
      var topics := subscribers.Keys;
      while topics != {}
        invariant connections == old(connections) - {conn}
        invariant topics <= subscribers.Keys <= old(subscribers).Keys
        invariant Tidy(subscribers)
        invariant forall t :: t in topics ==> subscribers[t] == old(subscribers)[t]
        invariant forall t :: t in old(subscribers) && t !in topics ==>
                                if t in subscribers then subscribers[t] == old(subscribers)[t] - {conn}
                                else old(subscribers)[t] - {conn} == map[]
        decreases topics
      {
        var topic :| topic in topics;
        topics := topics - {topic};
        var rest := subscribers[topic] - {conn};
        subscribers := subscribers[topic := rest];
        if rest == map[] {
          subscribers := subscribers - {topic};
        }
      }
      RemovedTriples(old(subscribers), subscribers, conn);
    }

    method TopicSubscribers(topic: Topic) returns (out: map<Connection, seq<SubscriptionId>>)
      requires Valid()
      ensures forall c, i :: (topic, c, i) in Triples(subscribers) <==> c in out && i in out[c]
      ensures forall c :: c in out ==> out[c] != [] && NoDuplicates(out[c])
    {
      out := map[];
      if topic !in subscribers {
        return;
      }
      var topicSubscribers := subscribers[topic];
      var conns := topicSubscribers.Keys;
      while conns != {}
        invariant conns <= topicSubscribers.Keys
        invariant out.Keys == topicSubscribers.Keys - conns
        invariant forall c :: c in out ==> Lists(out[c], topicSubscribers[c])
        decreases conns
      {
        var conn :| conn in conns;
        conns := conns - {conn};
        var ids := topicSubscribers[conn];
        var listed: seq<SubscriptionId> := [];
        while ids != {}
          invariant ids <= topicSubscribers[conn]
          invariant Lists(listed, topicSubscribers[conn] - ids)
          decreases ids
        {
          var id :| id in ids;
          ids := ids - {id};
          listed := listed + [id];
        }
        assert topicSubscribers[conn] - {} == topicSubscribers[conn];
        out := out[conn := listed];
      }
      forall c | c in out ensures out[c] != [] {
        var i :| i in topicSubscribers[c];
        assert i in out[c];
      }
    }
  }

  ghost predicate NoDuplicates<T>(s: seq<T>) {
    forall i, j :: 0 <= i < j < |s| ==> s[i] != s[j]
  }

  ghost predicate Lists<T(!new)>(s: seq<T>, of: set<T>) {
    NoDuplicates(s) && forall x :: x in s <==> x in of
  }

  function Inner(s: Subscribers, topic: Topic): map<Connection, set<SubscriptionId>> {
    if topic in s then s[topic] else map[]
  }

  lemma {:induction false} SubscribedNesting(before: Subscribers, topic: Topic, conn: Connection, ids: set<SubscriptionId>,
                          inner: map<Connection, set<SubscriptionId>>, after: Subscribers)
    requires ids != {}
    requires var old' := Inner(before, topic);
             inner == (if conn in old' then old' else old'[conn := {}])[conn := ids]
    requires after == (if topic in before then before else before[topic := map[]])[topic := inner]
    ensures inner == Inner(before, topic)[conn := ids] && inner != map[]
    ensures after == before[topic := inner]
  {
    assert conn in inner;
  }

  // Replacing the ids of one connection in one topic, with or without the
  // entries that this leaves empty.
  lemma {:induction false} InnerChanged(before: Subscribers, after: Subscribers, topic: Topic,
                     inner: map<Connection, set<SubscriptionId>>, conn: Connection, ids: set<SubscriptionId>)
    requires Tidy(before)
    requires inner == if ids == {} then Inner(before, topic) - {conn} else Inner(before, topic)[conn := ids]
    requires after == if inner == map[] then before - {topic} else before[topic := inner]
    ensures Tidy(after)
    ensures forall x :: x in Triples(after) <==> if x.0 == topic && x.1 == conn then x.2 in ids else x in Triples(before)
  {
    forall t, c ensures Ids(after, t, c) == if t == topic && c == conn then ids else Ids(before, t, c) {
      if t == topic {
        assert Ids(after, t, c) == if c in inner then inner[c] else {};
      }
    }
    TriplesChanged(before, after, topic, conn, ids);
  }

  lemma {:induction false} TriplesAdded(before: Subscribers, after: Subscribers, topic: Topic, conn: Connection,
                     id: SubscriptionId, ids: set<SubscriptionId>)
    requires ids == Ids(before, topic, conn) + {id}
    requires forall x :: x in Triples(after) <==> if x.0 == topic && x.1 == conn then x.2 in ids else x in Triples(before)
    ensures Triples(after) == Triples(before) + {(topic, conn, id)}
  {
    forall x: Triple ensures x in Triples(after) <==> x in Triples(before) + {(topic, conn, id)} {
      assert x == (x.0, x.1, x.2);
    }
  }

  lemma {:induction false} TriplesChanged(before: Subscribers, after: Subscribers, topic: Topic, conn: Connection, ids: set<SubscriptionId>)
    requires forall t, c :: Ids(after, t, c) == if t == topic && c == conn then ids else Ids(before, t, c)
    ensures forall x :: x in Triples(after) <==> if x.0 == topic && x.1 == conn then x.2 in ids else x in Triples(before)
  {
    TriplesOfIds(before);
    TriplesOfIds(after);
    forall x: Triple
      ensures x in Triples(after) <==> if x.0 == topic && x.1 == conn then x.2 in ids else x in Triples(before)
    {
      assert x == (x.0, x.1, x.2);
    }
  }

  lemma {:induction false} RemovedTriples(before: Subscribers, after: Subscribers, conn: Connection)
    requires after.Keys <= before.Keys
    requires forall t :: t in before ==>
                           if t in after then after[t] == before[t] - {conn} else before[t] - {conn} == map[]
    ensures Triples(after) == set x | x in Triples(before) && x.1 != conn
  {
    forall x | x in Triples(before) && x.1 != conn ensures x in Triples(after) {
      assert x.1 in before[x.0] - {conn};
    }
  }

  // Tidy nestings are canonical: the triples determine the whole state.
  lemma {:induction false} TriplesDetermine(a: Subscribers, b: Subscribers)
    requires Tidy(a) && Tidy(b) && Triples(a) == Triples(b)
    ensures a == b
  {
    forall t | t in a ensures t in b && a[t] == b[t] {
      TopicDetermined(a, b, t);
    }
    forall t | t in b ensures t in a {
      TopicDetermined(b, a, t);
    }
  }

  lemma {:induction false} TopicDetermined(a: Subscribers, b: Subscribers, t: Topic)
    requires Tidy(a) && Tidy(b) && Triples(a) == Triples(b) && t in a
    ensures t in b && a[t] == b[t]
  {
    var c0 :| c0 in a[t];
    var i0 :| i0 in a[t][c0];
    assert (t, c0, i0) in Triples(b);
    forall c | c in a[t] ensures c in b[t] && a[t][c] == b[t][c] {
      var i :| i in a[t][c];
      assert (t, c, i) in Triples(b);
      forall j ensures j in a[t][c] <==> j in b[t][c] {
        assert (t, c, j) in Triples(a) <==> (t, c, j) in Triples(b);
      }
    }
    forall c | c in b[t] ensures c in a[t] {
      var i :| i in b[t][c];
      assert (t, c, i) in Triples(a);
    }
  }
}
