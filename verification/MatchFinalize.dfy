/**
 * The finalize key, which the call that completes a proposal sets before it asks for a room. No step but
 * a repeated Connect looks at it, every step gives back the finalize keys that it takes, and so any run
 * keeps, up to the finalize key, what it would keep without one until the answer of the room service arrives.
 */
module MatchFinalize {
  import opened RedisKeys
  import opened Ranking
  import opened MatchModel
  import opened Types
  import opened MatchInvariants
  import opened MatchExclusivity

  /** The store, and the system, as they would be without the finalize key. */
  function Unset(s: Store): Store {
    s.(finalize := {})
  }

  function Settled(m: System): System {
    m.(store := Unset(m.store))
  }

  /** A room may still be created for a proposal of `k`, whatever has become of that proposal. */
  ghost predicate InFlight(m: System, k: Pair) {
    Exclusive(Settled(m)) && m.store.finalize <= {k}
  }

  /** A repeated Connect while the room is being created. */
  predicate ConnectsAgain(m: System, e: Event, k: Pair) {
    e.RespondTo? && e.decision == Connect && MayRespond(m.store, e.user, e.attempt, k)
  }

  // ---------- no other step looks at the finalize key ----------

  lemma NoMatchSettles(s: Store, a: Id, u: Id, reason: string)
    ensures MarkNoMatch(Unset(s), a, u, reason) == Unset(MarkNoMatch(s, a, u, reason))
  {
  }

  lemma CommitSettles(s: Store, job: Job)
    ensures CommitSearching(Unset(s), job) == Unset(CommitSearching(s, job))
  {
  }

  lemma StartSettles(s: Store, job: Job, hasSnapshot: bool)
    ensures StartFindMatch(Unset(s), job, hasSnapshot).0 == Unset(StartFindMatch(s, job, hasSnapshot).0)
  {
    NoMatchSettles(s, job.requestId, job.userId, "snapshot_not_found");
    NoMatchSettles(s, job.requestId, job.userId, "user_unavailable");
    CommitSettles(s, job);
    assert Coalesce(Unset(s), job.userId) == Coalesce(s, job.userId);
    assert InState(Unset(s), job.userId, Locked) == InState(s, job.userId, Locked);
    assert InState(Unset(s), job.userId, InRoom) == InState(s, job.userId, InRoom);
  }

  lemma FinishSettles(s: Store, job: Job, reason: string)
    ensures FinishJob(Unset(s), job, reason) == Unset(FinishJob(s, job, reason))
  {
  }

  lemma JobSettles(s: Store, job: Job, hasSnapshot: bool)
    ensures BeginJob(Unset(s), job, hasSnapshot)
        == (Unset(BeginJob(s, job, hasSnapshot).0), BeginJob(s, job, hasSnapshot).1)
  {
    FinishSettles(s, job, "snapshot_not_found");
    FinishSettles(s, job, "user_unavailable");
  }

  lemma BeginSettles(m: System, hasSnapshot: bool)
    ensures Step(Settled(m), Begin(hasSnapshot)) == Settled(Step(m, Begin(hasSnapshot)))
  {
    if m.working.None? && m.store.queue != [] {
      JobSettles(m.store.(queue := m.store.queue[1..]), m.store.queue[0], hasSnapshot);
    }
  }

  lemma {:induction false} PairableSettles(s: Store, job: Job, cands: seq<Candidate>)
    ensures FirstPairable(Unset(s), job, cands) == FirstPairable(s, job, cands)
  {
    if cands != [] {
      assert Pairable(Unset(s), job, cands[0].userId) <==> Pairable(s, job, cands[0].userId);
      PairableSettles(s, job, cands[1..]);
    }
  }

  lemma EvictSettles(s: Store, job: Job, tried: seq<Candidate>)
    ensures EvictStale(Unset(s), job, tried) == Unset(EvictStale(s, job, tried))
  {
    assert forall c <- tried :: Stale(Unset(s), job, c.userId) <==> Stale(s, job, c.userId);
  }

  lemma ProposeSettles(s: Store, job: Job, c: Candidate, isFallback: bool)
    requires Pairable(s, job, c.userId)
    ensures Propose(Unset(s), job, c, isFallback) == Unset(Propose(s, job, c, isFallback))
  {
  }

  lemma ScanSettles(s: Store, job: Job, cands: seq<Candidate>, isFallback: bool)
    ensures var (s', c) := Scan(s, job, cands, isFallback);
      Scan(Unset(s), job, cands, isFallback) == (Unset(s'), c)
  {
    var i := FirstPairable(s, job, cands);
    PairableSettles(s, job, cands);
    EvictSettles(s, job, cands[..i]);
    if i < |cands| {
      ProposeSettles(EvictStale(s, job, cands[..i]), job, cands[i], isFallback);
    }
  }

  lemma EndSettles(s: Store, p: Pending, reasonLow: string, reasonHigh: string)
    ensures Unset(EndBoth(Unset(s), p, reasonLow, reasonHigh)) == Unset(EndBoth(s, p, reasonLow, reasonHigh))
    ensures EndBoth(Unset(s), p, reasonLow, reasonHigh).finalize == {}
  {
  }

  lemma EnterSettles(s: Store, p: Pending, room: Id)
    ensures Unset(EnterRoom(Unset(s), p, room)) == Unset(EnterRoom(s, p, room))
  {
  }

  lemma CancelSettles(s: Store, u: Id)
    ensures Unset(CancelMatch(Unset(s), u)) == Unset(CancelMatch(s, u)) && CancelMatch(Unset(s), u).finalize == {}
  {
    var s1 := RemoveFromPool(s, u);
    assert RemoveFromPool(Unset(s), u) == Unset(s1);
    if u in s.last {
      var r := s.last[u];
      if r in s.attempts && s.attempts[r].status == Proposed && s.attempts[r].peer.Some?
        && PairOf(u, s.attempts[r].peer.value) in s.pending {
        var p := s.pending[PairOf(u, s.attempts[r].peer.value)];
        EndSettles(s1, p, if u == p.userLow then "cancelled_by_user" else "proposal_peer_cancelled",
                          if u == p.userHigh then "cancelled_by_user" else "proposal_peer_cancelled");
      } else {
        NoMatchSettles(s1, r, u, "cancelled_by_user");
      }
    }
  }

  lemma LeaveSettles(s: Store, u: Id)
    ensures LeaveRoom(Unset(s), u) == Unset(LeaveRoom(s, u))
  {
    if u in s.last && s.last[u] in s.attempts && s.attempts[s.last[u]].status == Matched {
      NoMatchSettles(s, s.last[u], u, "left_room");
    }
  }

  lemma LandSettles(s: Store, t: Store, p: Pending, room: Option<Id>)
    requires Unset(s) == Unset(t)
    ensures Unset(Land(s, p, room)) == Unset(Land(t, p, room))
  {
    match room
    case None =>
      EndSettles(s, p, "room_create_failed", "room_create_failed");
      EndSettles(t, p, "room_create_failed", "room_create_failed");
    case Some(id) =>
      EnterSettles(s, p, id);
      EnterSettles(t, p, id);
  }

  lemma AnswerSettles(s: Store, k: Pair, u: Id, a: Id, decision: Decision, room: Option<Id>, h: Pair)
    requires s.finalize <= {k} && Finds(s, u, a, h) && (decision == Connect ==> h != k)
    ensures Unset(Respond(Unset(s), u, a, decision, room).0) == Unset(Respond(s, u, a, decision, room).0)
  {
    var p := s.pending[h];
    if decision == Skip {
      SkipIs(s, h, u, a, room);
      SkipIs(Unset(s), h, u, a, room);
      EndSettles(s, p, if u == p.userLow then "you_skipped" else "peer_skipped",
                       if u == p.userHigh then "you_skipped" else "peer_skipped");
    } else {
      ConnectIs(s, h, u, a, room);
      ConnectIs(Unset(s), h, u, a, room);
      assert RecordConnect(s, h, u).1 == RecordConnect(Unset(s), h, u).1;
      LandSettles(Elect(s, h, u), Elect(Unset(s), h, u), p, room);
    }
  }

  lemma PassSettles(m: System, cands: seq<Candidate>, isFallback: bool)
    ensures Settled(Step(m, Pass(cands, isFallback))) == Settled(Step(Settled(m), Pass(cands, isFallback)))
  {
    if m.working.Some? {
      ScanSettles(m.store, m.working.value, cands, isFallback);
    }
  }

  lemma RespondSettles(m: System, e: Event, k: Pair)
    requires InFlight(m, k) && !ConnectsAgain(m, e, k) && e.RespondTo?
    ensures Settled(Step(m, e)) == Settled(Step(Settled(m), e))
  {
    var s, u, a := m.store, e.user, e.attempt;
    assert k in s.pending ==> Sound(Settled(m).store.attempts, k, s.pending[k]);
    if Belongs(s.attempts, a, u) && s.attempts[a].status == Proposed && s.attempts[a].peer.Some?
      && PairOf(u, s.attempts[a].peer.value) in s.pending {
      AnswerSettles(s, k, u, a, e.decision, e.room, PairOf(u, s.attempts[a].peer.value));
    }
  }

  lemma RoomStateSettles(m: System, u: Id)
    ensures Settled(Step(m, RoomStateExpires(u))) == Settled(Step(Settled(m), RoomStateExpires(u)))
  {
    var s, t := m.store, Unset(m.store);
    if InState(s, u, InRoom) {
      assert Step(m, RoomStateExpires(u)) == m.(store := s.(userState := s.userState - {u}));
      assert Step(Settled(m), RoomStateExpires(u)) == m.(store := t.(userState := s.userState - {u}));
    }
  }

  lemma LocksSettle(m: System, k: Pair)
    ensures Settled(Step(m, LocksExpire(k))) == Settled(Step(Settled(m), LocksExpire(k)))
  {
    var s, t := m.store, Unset(m.store);
    if k in s.pairLock {
      var pairs, users := s.pairLock - {k}, s.userLock - {k.low, k.high};
      assert Step(m, LocksExpire(k)) == m.(store := s.(pairLock := pairs, userLock := users));
      assert Step(Settled(m), LocksExpire(k)) == m.(store := t.(pairLock := pairs, userLock := users));
    }
  }

  lemma RecordSettles(m: System, k: Pair)
    ensures Settled(Step(m, PendingExpires(k))) == Settled(Step(Settled(m), PendingExpires(k)))
  {
    var s, t := m.store, Unset(m.store);
    assert Step(m, PendingExpires(k)) == m.(store := s.(pending := s.pending - {k}));
    assert Step(Settled(m), PendingExpires(k)) == m.(store := t.(pending := s.pending - {k}));
  }

  lemma StepSettles(m: System, e: Event, k: Pair)
    requires InFlight(m, k) && !ConnectsAgain(m, e, k)
    ensures Settled(Step(m, e)) == Settled(Step(Settled(m), e))
  {
    var s := m.store;
    match e
    case Start(job, hasSnapshot) => StartSettles(s, job, hasSnapshot);
    case Begin(hasSnapshot) => BeginSettles(m, hasSnapshot);
    case Pass(cands, isFallback) => PassSettles(m, cands, isFallback);
    case Finish(reason) =>
      if m.working.Some? {
        FinishSettles(s, m.working.value, reason);
      }
    case RespondTo(_, _, _, _) => RespondSettles(m, e, k);
    case Cancel(u) => CancelSettles(s, u);
    case Leave(u) => LeaveSettles(s, u);
    case RoomStateExpires(u) => RoomStateSettles(m, u);
    case LocksExpire(h) => LocksSettle(m, h);
    case PendingExpires(h) => RecordSettles(m, h);
  }

  // ---------- proposals and finalize keys ----------

  predicate Quiet(e: Event) {
    e.Start? || e.Begin? || e.Finish? || e.Leave? || e.RoomStateExpires? || e.LocksExpire?
  }

  lemma StartKeepsProposals(s: Store, job: Job, hasSnapshot: bool)
    ensures var s' := StartFindMatch(s, job, hasSnapshot).0;
      s'.pending == s.pending && s'.finalize == s.finalize
  {
    StartIsOneOf(s, job, hasSnapshot);
  }

  lemma BeginKeepsProposals(s: Store, job: Job, hasSnapshot: bool)
    ensures var s' := BeginJob(s, job, hasSnapshot).0;
      s'.pending == s.pending && s'.finalize == s.finalize
  {
  }

  lemma QuietKeepsProposals(m: System, e: Event)
    requires Quiet(e)
    ensures Step(m, e).store.pending == m.store.pending && Step(m, e).store.finalize == m.store.finalize
  {
    var s := m.store;
    match e
    case Start(job, hasSnapshot) => StartKeepsProposals(s, job, hasSnapshot);
    case Begin(hasSnapshot) =>
      if s.queue != [] {
        BeginKeepsProposals(s.(queue := s.queue[1..]), s.queue[0], hasSnapshot);
      }
    case _ =>
  }

  // ---------- any run while the answer is in flight ----------

  lemma RespondShrinksFinalize(m: System, u: Id, a: Id, decision: Decision, room: Option<Id>)
    requires RecordsSound(m.store.attempts, m.store.pending)
    ensures Respond(m.store, u, a, decision, room).0.finalize <= m.store.finalize
  {
    var s := m.store;
    if Belongs(s.attempts, a, u) && s.attempts[a].status == Proposed && s.attempts[a].peer.Some? {
      var h := PairOf(u, s.attempts[a].peer.value);
      if h in s.pending {
        assert Sound(s.attempts, h, s.pending[h]);
        if decision == Skip {
          SkipCloses(s, h, u, a, room);
        } else if RecordConnect(s, h, u).1 == 2 {
          ConnectCloses(s, h, u, a, room);
        }
      }
    }
  }

  lemma CancelShrinksFinalize(s: Store, u: Id)
    ensures CancelMatch(s, u).finalize <= s.finalize
  {
    if u in s.last && s.last[u] in s.attempts && s.attempts[s.last[u]].peer.Some?
      && PairOf(u, s.attempts[s.last[u]].peer.value) in s.pending {
      CancelEndsShrinks(RemoveFromPool(s, u), s.pending[PairOf(u, s.attempts[s.last[u]].peer.value)], u);
    }
  }

  lemma CancelEndsShrinks(s: Store, p: Pending, u: Id)
    ensures EndByCancel(s, p, u).finalize <= s.finalize
  {
  }

  lemma PassKeepsFinalize(m: System, cands: seq<Candidate>, isFallback: bool)
    ensures Step(m, Pass(cands, isFallback)).store.finalize == m.store.finalize
  {
    if m.working.Some? {
      var s, job := m.store, m.working.value;
      var i := FirstPairable(s, job, cands);
      if i < |cands| {
        ProposeChanges(EvictStale(s, job, cands[..i]), job, cands[i], isFallback);
      }
    }
  }

  /** Every step gives back the finalize keys that it takes. */
  lemma StepShrinksFinalize(m: System, e: Event)
    requires RecordsSound(m.store.attempts, m.store.pending)
    ensures Step(m, e).store.finalize <= m.store.finalize
  {
    if e.RespondTo? {
      RespondShrinksFinalize(m, e.user, e.attempt, e.decision, e.room);
    } else if e.Cancel? {
      CancelShrinksFinalize(m.store, e.user);
    } else if e.Pass? {
      PassKeepsFinalize(m, e.cands, e.isFallback);
    } else if Quiet(e) {
      QuietKeepsProposals(m, e);
    }
  }

  /** A Connect that finds the finalize key sets its flag and nothing else. */
  lemma FlagKeepsInFlight(m: System, e: Event, k: Pair)
    requires InFlight(m, k) && ConnectsAgain(m, e, k) && k in m.store.finalize
    ensures InFlight(Step(m, e), k)
  {
    var s, m' := m.store, Step(m, e);
    ConnectIs(s, k, e.user, e.attempt, e.room);
    FlagTouches(s, k, e.user);
    FlagKeepsRecords(s.attempts, s.pending, k, e.user == k.low);
    assert m'.store.pending.Keys == s.pending.Keys;
    forall h | h in s.pending
      ensures Engaged(Settled(m').store, h, m'.store.pending[h])
    {
      assert Engaged(Settled(m).store, h, s.pending[h]);
    }
  }

  lemma UnsetStepKeepsInFlightIff(m: System, e: Event, k: Pair)
    requires Exclusive(m)
    ensures InFlight(Step(m, e), k) <==> KeepsExclusivity(m, e)
  {
    StepKeepsExclusivityIff(m, e);
    StepShrinksFinalize(m, e);
    assert Settled(Step(m, e)) == Step(m, e);
  }

  lemma SettledStepKeepsExclusivityIff(m: System, e: Event, k: Pair)
    requires InFlight(m, k) && !ConnectsAgain(m, e, k)
    ensures Exclusive(Settled(Step(m, e))) <==> KeepsExclusivity(Settled(m), e)
  {
    StepKeepsExclusivityIff(Settled(m), e);
    StepSettles(m, e, k);
    StepShrinksFinalize(Settled(m), e);
    assert Settled(Step(Settled(m), e)) == Step(Settled(m), e);
  }

  /** While the answer is in flight every step keeps proposals exclusive exactly when its guard allows it. */
  lemma StepKeepsInFlightIff(m: System, e: Event, k: Pair)
    requires InFlight(m, k)
    ensures InFlight(Step(m, e), k) <==> KeepsExclusivity(m, e)
  {
    if k !in m.store.finalize {
      assert Settled(m) == m;
      UnsetStepKeepsInFlightIff(m, e, k);
    } else if ConnectsAgain(m, e, k) {
      FlagKeepsInFlight(m, e, k);
    } else {
      StepShrinksFinalize(m, e);
      assert KeepsExclusivity(Settled(m), e) <==> KeepsExclusivity(m, e);
      SettledStepKeepsExclusivityIff(m, e, k);
    }
  }

  lemma {:induction false} RunsKeepInFlight(m: System, es: seq<Event>, k: Pair)
    requires InFlight(m, k) && RunKeepsExclusivity(m, es)
    ensures InFlight(Run(m, es), k)
    decreases |es|
  {
    if es != [] {
      StepKeepsInFlightIff(m, es[0], k);
      RunsKeepInFlight(Step(m, es[0]), es[1..], k);
    }
  }
}
