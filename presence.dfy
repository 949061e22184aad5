/** The real-time relay set up by `initializeSocket`: a presence map from
    socket id to the user id the socket announced with `join`, and the
    `sendMessage` handler that forwards a message to the first socket
    mapped to the receiver. */
module Presence {
  import opened Outcomes
  import opened JsValues

  /** A socket's id. socket.io's ids are non-empty strings, so a found id
      is always truthy; the model keeps them as opaque handles. */
  type SessionId = nat

  /** An entry of `onlineUsers`: socket id and the value `join` stored,
      which may be `undefined` when `join` came without an argument. */
  type Entry = (SessionId, Option<Json>)

  /** One `io.to(session).emit(event, payload)` call. */
  datatype Emit = Emit(to: SessionId, event: string, payload: map<string, Json>)

  function KeysOf(entries: seq<Entry>): set<SessionId>
  {
    set i | 0 <= i < |entries| :: entries[i].0
  }

  ghost predicate UniqueKeys(entries: seq<Entry>)
  {
    forall i, j | 0 <= i < j < |entries| :: entries[i].0 != entries[j].0
  }

  /** The position of `session` in insertion order. */
  function IndexOfKey(entries: seq<Entry>, session: SessionId): (r: Option<nat>)
    ensures r.Some? ==> r.value < |entries| && entries[r.value].0 == session
    ensures r.Some? ==> forall j | 0 <= j < r.value :: entries[j].0 != session
    ensures r.None? <==> session !in KeysOf(entries)
  {
    if entries == [] then None
    else if entries[0].0 == session then Some(0)
    else
      var rest := IndexOfKey(entries[1..], session);
      assert KeysOf(entries) == {entries[0].0} + KeysOf(entries[1..]) by {
        forall k ensures k in KeysOf(entries) <==> k == entries[0].0 || k in KeysOf(entries[1..]) {
          if k in KeysOf(entries) {
            var i :| 0 <= i < |entries| && entries[i].0 == k;
            if i > 0 { assert entries[1..][i - 1].0 == k; }
          }
          if k in KeysOf(entries[1..]) {
            var i :| 0 <= i < |entries[1..]| && entries[1..][i].0 == k;
            assert entries[i + 1].0 == k;
          }
        }
      }
      match rest
      case Some(k) => Some(k + 1)
      case None => None
  }

  /** `onlineUsers.get(session)`: `undefined` when the socket never joined. */
  function Lookup(entries: seq<Entry>, session: SessionId): Option<Json>
  {
    match IndexOfKey(entries, session)
    case Some(i) => entries[i].1
    case None => None
  }

  /** `onlineUsers.set(session, userId)`: an existing key keeps its place
      and takes the new value; a new key goes last. */
  function SetEntry(entries: seq<Entry>, session: SessionId, userId: Option<Json>): (r: seq<Entry>)
    ensures KeysOf(r) == KeysOf(entries) + {session}
    ensures Lookup(r, session) == userId
    ensures forall other | other != session :: Lookup(r, other) == Lookup(entries, other)
    ensures UniqueKeys(entries) && session in KeysOf(entries) ==>
              |r| == |entries| &&
              forall i | 0 <= i < |r| :: r[i] == if entries[i].0 == session then (session, userId) else entries[i]
    ensures session !in KeysOf(entries) ==> r == entries + [(session, userId)]
    ensures UniqueKeys(entries) ==> UniqueKeys(r)
  {
    match IndexOfKey(entries, session)
    case Some(i) =>
      var r := entries[i := (session, userId)];
      assert KeysOf(r) == KeysOf(entries) + {session} by {
        forall k ensures k in KeysOf(r) <==> k in KeysOf(entries) + {session} {
          if k in KeysOf(entries) {
            var j :| 0 <= j < |entries| && entries[j].0 == k;
            assert r[j].0 == k;
          }
          if k in KeysOf(r) {
            var j :| 0 <= j < |r| && r[j].0 == k;
            assert entries[j].0 == k;
          }
        }
      }
      assert IndexOfKey(r, session) == Some(i) by {
        IndexOfKeyAgrees(entries, r, session);
      }
      assert forall other | other != session :: Lookup(r, other) == Lookup(entries, other) by {
        forall other | other != session ensures Lookup(r, other) == Lookup(entries, other) {
          IndexOfKeyAgrees(entries, r, other);
        }
      }
      r
    case None =>
      var r := entries + [(session, userId)];
      assert KeysOf(r) == KeysOf(entries) + {session} by {
        forall k ensures k in KeysOf(r) <==> k in KeysOf(entries) + {session} {
          if k in KeysOf(entries) {
            var j :| 0 <= j < |entries| && entries[j].0 == k;
            assert r[j].0 == k;
          }
          assert r[|entries|].0 == session;
        }
      }
      assert IndexOfKey(r, session) == Some(|entries|) by {
        IndexOfKeyAgrees(entries, r, session);
      }
      assert forall other | other != session :: Lookup(r, other) == Lookup(entries, other) by {
        forall other | other != session ensures Lookup(r, other) == Lookup(entries, other) {
          IndexOfKeyAgrees(entries, r, other);
        }
      }
      r
  }

  /** Two entry lists with the same keys at the same places, up to the end
      of the shorter, find a key at the same place. */
  lemma {:induction false} IndexOfKeyAgrees(a: seq<Entry>, b: seq<Entry>, session: SessionId)
    requires |a| <= |b|
    requires forall i | 0 <= i < |a| :: a[i].0 == b[i].0
    ensures IndexOfKey(a, session).Some? ==> IndexOfKey(b, session) == IndexOfKey(a, session)
    ensures IndexOfKey(a, session).None? && |a| < |b| && b[|a|].0 == session ==>
              IndexOfKey(b, session) == Some(|a|)
    ensures IndexOfKey(a, session).None? && |b| == |a| + 1 && b[|a|].0 != session ==>
              IndexOfKey(b, session).None?
  {
    if a != [] && a[0].0 != session {
      IndexOfKeyAgrees(a[1..], b[1..], session);
    }
  }

  /** The first entry, in insertion order, whose user id is `===` to
      `receiverId`: what `Array.from(onlineUsers.entries()).find(..)` finds. */
  function FirstMatch(entries: seq<Entry>, receiverId: Option<Json>): (r: Option<nat>)
    ensures r.Some? ==> r.value < |entries| && StrictEquals(entries[r.value].1, receiverId)
    ensures r.Some? ==> forall j | 0 <= j < r.value :: !StrictEquals(entries[j].1, receiverId)
    ensures r.None? <==> forall j | 0 <= j < |entries| :: !StrictEquals(entries[j].1, receiverId)
  {
    if entries == [] then None
    else if StrictEquals(entries[0].1, receiverId) then Some(0)
    else
      match FirstMatch(entries[1..], receiverId)
      case Some(k) => Some(k + 1)
      case None =>
        assert forall j | 1 <= j < |entries| :: entries[j] == entries[1..][j - 1];
        None
  }

  /** The socket the message goes to, if any. */
  function ReceiverSession(entries: seq<Entry>, receiverId: Option<Json>): Option<SessionId>
  {
    match FirstMatch(entries, receiverId)
    case Some(i) => Some(entries[i].0)
    case None => None
  }

  /** `{ senderId: sender, ...data }` as it goes over the wire: the fields
      of `data` come last and win, and an `undefined` sender id is dropped
      when the object is serialised. */
  function MessagePayload(senderId: Option<Json>, data: map<string, Json>): (p: map<string, Json>)
    ensures forall k | k in data :: k in p && p[k] == data[k]
    ensures p.Keys == data.Keys + (if senderId.Some? then {"senderId"} else {})
    ensures "senderId" !in data && senderId.Some? ==> p["senderId"] == senderId.value
  {
    (if senderId.Some? then map["senderId" := senderId.value] else map[]) + data
  }

  /** What one `sendMessage` event emits: at most one `newMessage`, to the
      first socket mapped to `data.receiverId`, and nothing when there is
      none. */
  function Delivery(online: seq<Entry>, session: SessionId, data: map<string, Json>): (out: seq<Emit>)
    ensures |out| <= 1
    ensures out == [] <==> forall j | 0 <= j < |online| :: !StrictEquals(online[j].1, Prop(data, "receiverId"))
    ensures out != [] ==>
              var i := FirstMatch(online, Prop(data, "receiverId")).value;
              out[0] == Emit(online[i].0, "newMessage", MessagePayload(Lookup(online, session), data))
  {
    match ReceiverSession(online, Prop(data, "receiverId"))
    case Some(to) => [Emit(to, "newMessage", MessagePayload(Lookup(online, session), data))]
    case None => []
  }

  /** A session that joins with an id no other session holds receives the
      messages addressed to that id, whoever sends them; an id that is
      never `===` to itself (NaN, an array, an object) reaches nobody. */
  lemma JoinedSessionReceives(online: seq<Entry>, session: SessionId, userId: Option<Json>,
                              sender: SessionId, data: map<string, Json>)
    requires UniqueKeys(online)
    requires Prop(data, "receiverId") == userId
    requires forall j | 0 <= j < |online| && online[j].0 != session :: !StrictEquals(online[j].1, userId)
    ensures var out := Delivery(SetEntry(online, session, userId), sender, data);
            StrictEquals(userId, userId) ==> |out| == 1 && out[0].to == session && out[0].event == "newMessage"
    ensures !StrictEquals(userId, userId) ==> Delivery(SetEntry(online, session, userId), sender, data) == []
  {
    var after := SetEntry(online, session, userId);
    forall j | 0 <= j < |after| && after[j].0 != session
      ensures !StrictEquals(after[j].1, userId)
    {
      if session in KeysOf(online) {
        assert after[j] == online[j];
      } else {
        assert j < |online| && after[j] == online[j];
      }
    }
    if StrictEquals(userId, userId) {
      var k := IndexOfKey(after, session).value;
      assert after[k].1 == userId;
      var i := FirstMatch(after, userId).value;
      assert after[i].0 == session;
    } else {
      forall j | 0 <= j < |after| ensures !StrictEquals(after[j].1, userId) {
        if after[j].0 == session {
          var k := IndexOfKey(after, session).value;
          assert IndexOfKey(after, session).Some?;
          if k != j {
            assert after[j].0 == after[k].0;
          }
        }
      }
    }
  }

  datatype RelayState = RelayState(online: seq<Entry>, emitted: seq<Emit>)

  datatype Event =
    | Join(session: SessionId, userId: Option<Json>)
    | SendMessage(session: SessionId, data: map<string, Json>)

  /** One handler call, run to completion. */
  function Step(s: RelayState, e: Event): (t: RelayState)
    ensures e.SendMessage? ==> t.online == s.online
    ensures e.Join? ==> t.emitted == s.emitted
  {
    match e
    case Join(session, userId) => RelayState(SetEntry(s.online, session, userId), s.emitted)
    case SendMessage(session, data) => RelayState(s.online, s.emitted + Delivery(s.online, session, data))
  }

  function Run(s: RelayState, events: seq<Event>): RelayState
    decreases |events|
  {
    if events == [] then s else Run(Step(s, events[0]), events[1..])
  }

  /** No handler removes an entry: over any run the set of socket ids only
      grows, ids stay unique, and earlier emits are never taken back. */
  lemma {:induction false} RunOnlyGrows(s: RelayState, events: seq<Event>)
    requires UniqueKeys(s.online)
    ensures KeysOf(s.online) <= KeysOf(Run(s, events).online)
    ensures UniqueKeys(Run(s, events).online)
    ensures s.emitted <= Run(s, events).emitted
    decreases |events|
  {
    if events != [] {
      RunOnlyGrows(Step(s, events[0]), events[1..]);
    }
  }

  /** The presence map and the emits of one server. */
  class Relay {
    var online: seq<Entry>
    var emitted: seq<Emit>

    ghost predicate Valid()
      reads this
    {
      UniqueKeys(online)
    }

    constructor ()
      ensures Valid() && online == [] && emitted == []
    {
      online := [];
      emitted := [];
    }

    /** The `join` handler of socket `session`. */
    method Join(session: SessionId, userId: Option<Json>)
      modifies this
      ensures RelayState(online, emitted) == Step(old(RelayState(online, emitted)), Event.Join(session, userId))
      ensures old(Valid()) ==> Valid()
    {
      online := SetEntry(online, session, userId);
    }

    /** The scan of `onlineUsers` in insertion order. */
    method FindReceiver(receiverId: Option<Json>) returns (r: Option<SessionId>)
      ensures r == ReceiverSession(online, receiverId)
    {
      var i := 0;
      while i < |online|
        invariant 0 <= i <= |online|
        invariant forall j | 0 <= j < i :: !StrictEquals(online[j].1, receiverId)
      {
        if StrictEquals(online[i].1, receiverId) {
          return Some(online[i].0);
        }
        i := i + 1;
      }
      return None;
    }

    /** The `sendMessage` handler of socket `session`. */
    method SendMessage(session: SessionId, data: map<string, Json>)
      modifies this
      ensures RelayState(online, emitted) == Step(old(RelayState(online, emitted)), Event.SendMessage(session, data))
    {
      var receiver := FindReceiver(Prop(data, "receiverId"));
      if receiver.Some? {
        emitted := emitted + [Emit(receiver.value, "newMessage", MessagePayload(Lookup(online, session), data))];
      }
    }
  }
}
