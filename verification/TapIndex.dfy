/** The index of VoiceIQ taps by room, which must agree with the table of active taps. */
module TapIndex {
  import opened Types

  /** The two maps: the room of each active tap, and the set of tap ids of each room. */
  datatype Taps = Taps(active: map<string, string>, byRoom: map<string, set<string>>)

  const NO_TAPS := Taps(map[], map[])

  function IdsOf(byRoom: map<string, set<string>>, roomId: string): set<string> {
    if roomId in byRoom then byRoom[roomId] else {}
  }

  /** A tap id is in a room's set exactly when the active tap has that room, and no set is empty. */
  ghost predicate Agrees(t: Taps) {
    && (forall roomId, tapId :: tapId in IdsOf(t.byRoom, roomId) <==> tapId in t.active && t.active[tapId] == roomId)
    && (forall roomId :: roomId in t.byRoom ==> t.byRoom[roomId] != {})
  }

  /** The taps without some of them. */
  function Without(t: Taps, ids: set<string>): Taps {
    Taps(t.active - ids,
         map roomId | roomId in t.byRoom && t.byRoom[roomId] - ids != {} :: t.byRoom[roomId] - ids)
  }

  function With(t: Taps, roomId: string, tapId: string): Taps {
    Taps(t.active[tapId := roomId], t.byRoom[roomId := IdsOf(t.byRoom, roomId) + {tapId}])
  }

  // ---------- removing taps ----------

  lemma WithoutKeepsAgreement(t: Taps, ids: set<string>)
    requires Agrees(t)
    ensures Agrees(Without(t, ids))
  {
    var t' := Without(t, ids);
    forall roomId, tapId
      ensures tapId in IdsOf(t'.byRoom, roomId) <==> tapId in t'.active && t'.active[tapId] == roomId
    {
      assert IdsOf(t'.byRoom, roomId) == IdsOf(t.byRoom, roomId) - ids;
      assert tapId in IdsOf(t.byRoom, roomId) <==> tapId in t.active && t.active[tapId] == roomId;
    }
  }

  lemma WithoutAbsent(t: Taps, ids: set<string>)
    requires Agrees(t) && ids !! t.active.Keys
    ensures Without(t, ids) == t
  {
    forall roomId | roomId in t.byRoom
      ensures t.byRoom[roomId] - ids == t.byRoom[roomId]
    {
      forall tapId | tapId in t.byRoom[roomId]
        ensures tapId !in ids
      {
        assert tapId in IdsOf(t.byRoom, roomId);
      }
    }
    assert Without(t, ids).active == t.active;
    assert Without(t, ids).byRoom == t.byRoom;
  }

  lemma WithoutTwice(t: Taps, a: set<string>, b: set<string>)
    ensures Without(Without(t, a), b) == Without(t, a + b)
  {
    forall ids: set<string>
      ensures ids - a - b == ids - (a + b)
    {
    }
    assert t.active - a - b == t.active - (a + b);
    assert Without(Without(t, a), b).byRoom == Without(t, a + b).byRoom;
  }

  /** Taking one id out of its room's set is all that its removal asks of the index. */
  lemma UnindexedIsWithout(t: Taps, t': Taps, roomId: string, tapId: string)
    requires Agrees(t) && (tapId in t.active ==> t.active[tapId] == roomId)
    requires t'.active == t.active - {tapId}
    requires IdsOf(t'.byRoom, roomId) == IdsOf(t.byRoom, roomId) - {tapId}
    requires roomId in t'.byRoom ==> t'.byRoom[roomId] != {}
    requires t'.byRoom - {roomId} == t.byRoom - {roomId}
    ensures t' == Without(t, {tapId})
  {
    var w := Without(t, {tapId});
    forall other
      ensures other in w.byRoom <==> other in t'.byRoom
      ensures other in w.byRoom ==> w.byRoom[other] == t'.byRoom[other]
    {
      if other != roomId {
        assert other in t'.byRoom <==> other in t'.byRoom - {roomId};
        assert other in t.byRoom <==> other in t.byRoom - {roomId};
        assert tapId !in IdsOf(t.byRoom, other);
        assert other in t.byRoom ==> t.byRoom[other] - {tapId} == t.byRoom[other];
      }
    }
    assert w.byRoom == t'.byRoom;
  }

  class VoiceIqTapService {
    var activeTaps: map<string, string>
    var tapIdsByRoom: map<string, set<string>>

    function View(): Taps
      reads this
    {
      Taps(activeTaps, tapIdsByRoom)
    }

    constructor ()
      ensures View() == NO_TAPS
    {
      activeTaps, tapIdsByRoom := map[], map[];
    }

    method IndexTap(roomId: string, tapId: string)
      modifies this`tapIdsByRoom
      ensures tapIdsByRoom == old(tapIdsByRoom)[roomId := IdsOf(old(tapIdsByRoom), roomId) + {tapId}]
    {
      if roomId !in tapIdsByRoom {
        tapIdsByRoom := tapIdsByRoom[roomId := {}];
      }
      tapIdsByRoom := tapIdsByRoom[roomId := tapIdsByRoom[roomId] + {tapId}];
    }

    method UnindexTap(roomId: string, tapId: string)
      modifies this`tapIdsByRoom
      ensures IdsOf(tapIdsByRoom, roomId) == IdsOf(old(tapIdsByRoom), roomId) - {tapId}
      ensures roomId in tapIdsByRoom ==> tapIdsByRoom[roomId] != {}
      ensures tapIdsByRoom - {roomId} == old(tapIdsByRoom) - {roomId}
    {
      if roomId in tapIdsByRoom {
        tapIdsByRoom := tapIdsByRoom[roomId := tapIdsByRoom[roomId] - {tapId}];
        if tapIdsByRoom[roomId] == {} {
          tapIdsByRoom := tapIdsByRoom - {roomId};
        }
      }
    }

    /** The last steps of tap creation; `tapId` is a fresh random UUID. */
    method CreateTap(roomId: string, tapId: string)
      modifies this
      ensures View() == With(old(View()), roomId, tapId)
    {
      activeTaps := activeTaps[tapId := roomId];
      IndexTap(roomId, tapId);
    }

    /** The handler of `@close`; it may run at any time, also for a tap that is gone. */
    method TransportClosed(roomId: string, tapId: string)
      requires Agrees(View()) && (tapId in activeTaps ==> activeTaps[tapId] == roomId)
      modifies this
      ensures View() == Without(old(View()), {tapId})
    {
      activeTaps := activeTaps - {tapId};
      UnindexTap(roomId, tapId);
      UnindexedIsWithout(old(View()), View(), roomId, tapId);
    }

    /** Closing the transport runs the handler inside the release, unless closing fails. */
    method ReleaseTap(tapId: string, closes: bool) returns (ok: bool)
      requires Agrees(View())
      modifies this
      ensures ok == (tapId in old(activeTaps))
      ensures View() == Without(old(View()), {tapId})
    {
      if tapId !in activeTaps {
        WithoutAbsent(View(), {tapId});
        return false;
      }
      var roomId := activeTaps[tapId];
      if closes {
        TransportClosed(roomId, tapId);
        WithoutKeepsAgreement(old(View()), {tapId});
        WithoutTwice(old(View()), {tapId}, {tapId});
      }
      ghost var before := View();
      activeTaps := activeTaps - {tapId};
      UnindexTap(roomId, tapId);
      UnindexedIsWithout(before, View(), roomId, tapId);
      assert {tapId} + {tapId} == {tapId};
      return true;
    }

    /** Releases every tap of a room, going over a copy of its set while the set itself shrinks. */
    method ReleaseAllTapsForRoom(roomId: string, closes: string -> bool)
      requires Agrees(View())
      modifies this
      ensures View() == Without(old(View()), IdsOf(old(tapIdsByRoom), roomId))
    {
      WithoutAbsent(View(), {});
      if roomId !in tapIdsByRoom {
        return;
      }
      var ids := tapIdsByRoom[roomId];
      ghost var done: set<string> := {};
      while ids != {}
        invariant ids + done == IdsOf(old(tapIdsByRoom), roomId)
        invariant View() == Without(old(View()), done)
        decreases ids
      {
        var tapId :| tapId in ids;
        WithoutKeepsAgreement(old(View()), done);
        var _ := ReleaseTap(tapId, closes(tapId));
        WithoutTwice(old(View()), done, {tapId});
        ids, done := ids - {tapId}, done + {tapId};
      }
    }
  }

  // ---------- what the operations keep ----------

  lemma WithKeepsAgreement(t: Taps, roomId: string, tapId: string)
    requires Agrees(t) && tapId !in t.active
    ensures Agrees(With(t, roomId, tapId))
  {
    var t' := With(t, roomId, tapId);
    forall other, id
      ensures id in IdsOf(t'.byRoom, other) <==> id in t'.active && t'.active[id] == other
    {
      assert id in IdsOf(t.byRoom, other) <==> id in t.active && t.active[id] == other;
    }
  }

  /** Releasing a room removes all its taps and no other. */
  lemma RoomReleaseIsExact(t: Taps, roomId: string)
    requires Agrees(t)
    ensures var t' := Without(t, IdsOf(t.byRoom, roomId));
      && Agrees(t')
      && roomId !in t'.byRoom
      && (forall tapId :: tapId in t'.active <==> tapId in t.active && t.active[tapId] != roomId)
      && (forall tapId :: tapId in t'.active ==> t'.active[tapId] == t.active[tapId])
      && (forall other :: other != roomId ==> IdsOf(t'.byRoom, other) == IdsOf(t.byRoom, other))
  {
    var ids := IdsOf(t.byRoom, roomId);
    WithoutKeepsAgreement(t, ids);
    forall other | other != roomId
      ensures IdsOf(Without(t, ids).byRoom, other) == IdsOf(t.byRoom, other)
    {
      forall tapId | tapId in IdsOf(t.byRoom, other)
        ensures tapId !in ids
      {
        assert t.active[tapId] == other;
      }
      assert IdsOf(t.byRoom, other) - ids == IdsOf(t.byRoom, other);
    }
  }

  // ---------- runs ----------

  datatype Event =
    | Created(roomId: string, tapId: string)
    | Closed(tapId: string)
    | Released(tapId: string)
    | RoomReleased(roomId: string)

  function Step(t: Taps, e: Event): Taps {
    match e
    case Created(roomId, tapId) => With(t, roomId, tapId)
    case Closed(tapId) => Without(t, {tapId})
    case Released(tapId) => Without(t, {tapId})
    case RoomReleased(roomId) => Without(t, IdsOf(t.byRoom, roomId))
  }

  function Run(events: seq<Event>): Taps {
    if events == [] then NO_TAPS else Step(Run(events[..|events| - 1]), events[|events| - 1])
  }

  /** Every tap id is drawn once. */
  predicate FreshIds(events: seq<Event>) {
    forall i, j :: 0 <= i < j < |events| && events[i].Created? && events[j].Created? ==>
        events[i].tapId != events[j].tapId
  }

  predicate Ends(e: Event, roomId: string, tapId: string) {
    e == Closed(tapId) || e == Released(tapId) || e == RoomReleased(roomId)
  }

  /** Event `i` creates the tap in the room, and nothing ends it later. */
  predicate LiveSince(events: seq<Event>, roomId: string, tapId: string, i: nat) {
    && i < |events| && events[i] == Created(roomId, tapId)
    && forall j :: i < j < |events| ==> !Ends(events[j], roomId, tapId)
  }

  predicate Live(events: seq<Event>, roomId: string, tapId: string) {
    exists i :: 0 <= i < |events| && LiveSince(events, roomId, tapId, i)
  }

  lemma LiveStep(events: seq<Event>, roomId: string, tapId: string)
    requires events != []
    ensures var e := events[|events| - 1];
      Live(events, roomId, tapId)
      <==> e == Created(roomId, tapId) || (Live(events[..|events| - 1], roomId, tapId) && !Ends(e, roomId, tapId))
  {
    var n := |events| - 1;
    if i :| 0 <= i < n && LiveSince(events[..n], roomId, tapId, i) {
      assert !Ends(events[n], roomId, tapId) ==> LiveSince(events, roomId, tapId, i);
    }
    if i :| 0 <= i < |events| && LiveSince(events, roomId, tapId, i) {
      assert i < n ==> LiveSince(events[..n], roomId, tapId, i);
    }
    assert events[n] == Created(roomId, tapId) ==> LiveSince(events, roomId, tapId, n);
  }

  lemma ActiveWasCreated(t: Taps, events: seq<Event>, tapId: string)
    requires Agrees(t) && tapId in t.active
    requires forall roomId, id :: id in IdsOf(t.byRoom, roomId) <==> Live(events, roomId, id)
    ensures exists i :: 0 <= i < |events| && events[i].Created? && events[i].tapId == tapId
  {
    assert tapId in IdsOf(t.byRoom, t.active[tapId]);
  }

  /** The table and the index both hold exactly the live taps, after any run. */
  lemma {:induction false} HoldsLiveTaps(events: seq<Event>)
    requires FreshIds(events)
    ensures Agrees(Run(events))
    ensures forall roomId, tapId :: tapId in IdsOf(Run(events).byRoom, roomId) <==> Live(events, roomId, tapId)
  {
    if events != [] {
      var n := |events| - 1;
      var t, e := Run(events[..n]), events[n];
      HoldsLiveTaps(events[..n]);
      match e {
        case Created(roomId, tapId) =>
          if tapId in t.active {
            ActiveWasCreated(t, events[..n], tapId);
            assert false;
          }
          WithKeepsAgreement(t, roomId, tapId);
        case Closed(tapId) => WithoutKeepsAgreement(t, {tapId});
        case Released(tapId) => WithoutKeepsAgreement(t, {tapId});
        case RoomReleased(roomId) => WithoutKeepsAgreement(t, IdsOf(t.byRoom, roomId));
      }
      forall roomId, tapId
        ensures tapId in IdsOf(Run(events).byRoom, roomId) <==> Live(events, roomId, tapId)
      {
        LiveStep(events, roomId, tapId);
        assert tapId in IdsOf(t.byRoom, roomId) <==> tapId in t.active && t.active[tapId] == roomId;
      }
    }
  }
}
