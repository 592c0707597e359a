/** Proposals are symmetric in every run in which no key expires. */
module MatchSymmetry {
  import opened RedisKeys
  import opened Ranking
  import opened MatchModel
  import opened Types
  import opened MatchInvariants

  // ---------- symmetry, event by event ----------

  lemma MarkNoMatchKeepsSymmetry(m: System, a: Id, u: Id, reason: string)
    requires Symmetric(m)
    requires a !in m.store.attempts || (Belongs(m.store.attempts, a, u) && m.store.attempts[a].status != Proposed)
    ensures Symmetric(m.(store := MarkNoMatch(m.store, a, u, reason)))
  {
    var s := m.store;
    var x := Fields(s, a, u).(status := Ended, reason := Some(reason));
    OwnedAfterWrite(s.attempts, s.last, s.queue, m.working, a, x);
    QuietWriteKeepsRecords(s.attempts, s.pending, a, x);
    QuietWriteKeepsRooms(s.attempts, s.roomCalls, m.working, a, x);
  }

  lemma CommitKeepsSymmetry(m: System, job: Job)
    requires Symmetric(m) && job.requestId !in m.store.attempts
    ensures Symmetric(m.(store := CommitSearching(m.store, job)))
  {
    var s := m.store;
    var x := Fields(s, job.requestId, job.userId).(status := Seeking);
    OwnedAfterWrite(s.attempts, s.last, s.queue, m.working, job.requestId, x);
    QuietWriteKeepsRecords(s.attempts, s.pending, job.requestId, x);
    QuietWriteKeepsRooms(s.attempts, s.roomCalls, m.working, job.requestId, x);
  }

  lemma StartKeepsSymmetry(m: System, job: Job, hasSnapshot: bool)
    requires Symmetric(m)
    ensures Symmetric(Step(m, Start(job, hasSnapshot)))
  {
    StartIsOneOf(m.store, job, hasSnapshot);
    if job.requestId !in m.store.attempts {
      MarkNoMatchKeepsSymmetry(m, job.requestId, job.userId, "snapshot_not_found");
      MarkNoMatchKeepsSymmetry(m, job.requestId, job.userId, "user_unavailable");
      CommitKeepsSymmetry(m, job);
    }
  }

  lemma FinishKeepsSymmetry(m: System, job: Job, reason: string)
    requires Symmetric(m)
    requires Belongs(m.store.attempts, job.requestId, job.userId) && m.store.attempts[job.requestId].status != Proposed
    ensures Symmetric(m.(store := FinishJob(m.store, job, reason)))
  {
    MarkNoMatchKeepsSymmetry(m, job.requestId, job.userId, reason);
  }

  lemma DequeueKeepsSymmetry(m: System)
    requires Symmetric(m) && m.store.queue != [] && m.working.None?
    ensures Symmetric(m.(store := m.store.(queue := m.store.queue[1..])))
  {
    assert forall j :: j in m.store.queue[1..] ==> j in m.store.queue;
  }

  lemma BeginKeepsSymmetry(m: System, hasSnapshot: bool)
    requires Symmetric(m)
    ensures Symmetric(Step(m, Begin(hasSnapshot)))
  {
    var s := m.store;
    if m.working.None? && s.queue != [] {
      var job := s.queue[0];
      var m' := m.(store := s.(queue := s.queue[1..]));
      assert job in s.queue;
      DequeueKeepsSymmetry(m);
      var (s', proceed) := BeginJob(m'.store, job, hasSnapshot);
      if proceed {
        assert Symmetric(m'.(working := Some(job)));
      } else if s.attempts[job.requestId].status == Seeking {
        FinishKeepsSymmetry(m', job, "snapshot_not_found");
        FinishKeepsSymmetry(m', job, "user_unavailable");
      }
    }
  }

  lemma LockedPairsCover(s: Store, u: Id)
    requires PairsHoldUsers(s.userLock, s.pairLock) && s.pairLock.Keys == s.pending.Keys && u !in s.userLock
    ensures !InSome(s.pending.Keys, u)
  {
    forall k | k in s.pending.Keys
      ensures !Involves(k, u)
    {
      assert k in s.pairLock && LockAgrees(s.userLock, k, s.pairLock[k]);
    }
  }

  lemma ProposeKeepsSymmetry(m: System, c: Candidate, isFallback: bool)
    requires Symmetric(m) && m.working.Some? && Pairable(m.store, m.working.value, c.userId)
    ensures Symmetric(System(Propose(m.store, m.working.value, c, isFallback), None))
  {
    var s, job := m.store, m.working.value;
    var k, q := PairOf(job.userId, c.userId), s.last[c.userId];
    var s' := Propose(s, job, c, isFallback);
    var x, y := s'.attempts[job.requestId], s'.attempts[q];
    LockedPairsCover(s, job.userId);
    LockedPairsCover(s, c.userId);
    ProposeKeepsBase(m, c, isFallback);
    ProposeIsSound(s, job, c, isFallback);
    PairOfSymmetric(job.userId, c.userId);
    ProposeKeepsAllRecorded(s.attempts, s.pending, k, s'.pending[k], job.requestId, x, q, y);
    ProposeKeepsRooms(s.attempts, s.roomCalls, job, job.requestId, x, q, y);
  }

  lemma PassKeepsSymmetry(m: System, cands: seq<Candidate>, isFallback: bool)
    requires Symmetric(m)
    ensures Symmetric(Step(m, Pass(cands, isFallback)))
  {
    if m.working.Some? {
      var job := m.working.value;
      var i := FirstPairable(m.store, job, cands);
      var m' := m.(store := EvictStale(m.store, job, cands[..i]));
      assert Symmetric(m');
      if i < |cands| {
        ProposeKeepsSymmetry(m', cands[i], isFallback);
      }
    }
  }

  lemma CloseKeepsSymmetry(m: System, s': Store, k: Pair)
    requires Symmetric(m) && k in m.store.pending && Closes(m.store, s', k, m.store.pending[k])
    requires s'.roomCalls == m.store.roomCalls || s'.roomCalls == m.store.roomCalls + [m.store.pending[k].roomAttemptId]
    ensures Symmetric(m.(store := s'))
  {
    var s, p := m.store, m.store.pending[k];
    var x, y := s'.attempts[p.attemptLow], s'.attempts[p.attemptHigh];
    assert Sound(s.attempts, k, p);
    CloseKeepsBase(m, s', k);
    CloseKeepsAllRecorded(s.attempts, s.pending, k, x, y);
    CloseKeepsRooms(s.attempts, s.roomCalls, m.working, p.attemptLow, x, p.attemptHigh, y);
  }

  lemma CancelKeepsSymmetry(m: System, u: Id)
    requires Symmetric(m)
    ensures Symmetric(Step(m, Cancel(u)))
  {
    var s := m.store;
    if u in s.last {
      var x := s.attempts[s.last[u]];
      assert Belongs(s.attempts, s.last[u], u) && HasRecord(x, s.last[u], s.pending);
      if x.status == Proposed {
        var k := PairOf(u, x.peer.value);
        assert Sound(s.attempts, k, s.pending[k]);
        CancelCloses(s, k, u);
        CloseKeepsSymmetry(m, CancelMatch(s, u), k);
      } else {
        var m' := m.(store := RemoveFromPool(s, u));
        assert Symmetric(m');
        MarkNoMatchKeepsSymmetry(m', s.last[u], u, "cancelled_by_user");
      }
    }
  }

  lemma ConnectKeepsSymmetry(m: System, k: Pair, u: Id)
    requires Symmetric(m) && k in m.store.pending
    ensures RecordConnect(m.store, k, u).1 != 2 ==> Symmetric(m.(store := RecordConnect(m.store, k, u).0))
  {
    var s := m.store;
    FlagKeepsRecords(s.attempts, s.pending, k, u == k.low);
    assert s.pending[k := SetConnect(s.pending[k], u == k.low)].Keys == s.pending.Keys;
  }

  lemma AnswerKeepsSymmetry(m: System, u: Id, a: Id, k: Pair, decision: Decision, room: Option<Id>)
    requires Symmetric(m) && MayRespond(m.store, u, a, k)
    ensures Symmetric(m.(store := Respond(m.store, u, a, decision, room).0))
  {
    var s := m.store;
    if decision == Skip {
      SkipCloses(s, k, u, a, room);
      CloseKeepsSymmetry(m, Respond(s, u, a, Skip, room).0, k);
    } else if RecordConnect(s, k, u).1 == 2 {
      ConnectCloses(s, k, u, a, room);
      CloseKeepsSymmetry(m, Respond(s, u, a, Connect, room).0, k);
    } else {
      ConnectIs(s, k, u, a, room);
      ConnectKeepsSymmetry(m, k, u);
    }
  }

  lemma RespondKeepsSymmetry(m: System, u: Id, a: Id, decision: Decision, room: Option<Id>)
    requires Symmetric(m)
    ensures Symmetric(Step(m, RespondTo(u, a, decision, room)))
  {
    var s := m.store;
    if Belongs(s.attempts, a, u) && s.attempts[a].status == Proposed {
      assert HasRecord(s.attempts[a], a, s.pending);
      ProposedHasSoundRecord(m, a);
      AnswerKeepsSymmetry(m, u, a, PairOf(u, s.attempts[a].peer.value), decision, room);
    }
  }

  /** Leaving a room deletes the user's lock unseen, so it keeps the locks in agreement only when there is none. */
  lemma LeaveKeepsSymmetryIff(m: System, u: Id)
    requires Symmetric(m)
    ensures Symmetric(Step(m, Leave(u))) <==> u !in m.store.userLock
  {
    var s, m' := m.store, Step(m, Leave(u));
    if u in s.userLock {
      assert InSome(s.pairLock.Keys, u);
      var k :| k in s.pairLock.Keys && Involves(k, u);
      assert !LockAgrees(m'.store.userLock, k, s.pairLock[k]);
    } else {
      if u in s.last && s.attempts[s.last[u]].status == Matched {
        MarkNoMatchKeepsSymmetry(m, s.last[u], u, "left_room");
      }
      assert s.userLock - {u} == s.userLock;
    }
  }

  lemma ExpiryKeepsSymmetryIff(m: System, k: Pair)
    requires Symmetric(m)
    ensures Symmetric(Step(m, LocksExpire(k))) <==> k !in m.store.pairLock
    ensures Symmetric(Step(m, PendingExpires(k))) <==> k !in m.store.pending
  {
    var s := m.store;
    assert k !in s.pending ==> s.pending - {k} == s.pending;
    assert k !in (s.pending - {k}).Keys && k !in (s.pairLock - {k}).Keys;
  }

  /** Every event keeps the symmetry of proposals exactly when its guard allows it. */
  lemma StepKeepsSymmetryIff(m: System, e: Event)
    requires Symmetric(m)
    ensures Symmetric(Step(m, e)) <==> KeepsSymmetry(m, e)
  {
    match e
    case Start(job, hasSnapshot) => StartKeepsSymmetry(m, job, hasSnapshot);
    case Begin(hasSnapshot) => BeginKeepsSymmetry(m, hasSnapshot);
    case Pass(cands, isFallback) => PassKeepsSymmetry(m, cands, isFallback);
    case Finish(reason) =>
      if m.working.Some? {
        FinishKeepsSymmetry(m, m.working.value, reason);
        assert Symmetric(Step(m, e));
      }
    case RespondTo(u, a, decision, room) => RespondKeepsSymmetry(m, u, a, decision, room);
    case Cancel(u) => CancelKeepsSymmetry(m, u);
    case Leave(u) => LeaveKeepsSymmetryIff(m, u);
    case RoomStateExpires(u) =>
    case LocksExpire(k) => ExpiryKeepsSymmetryIff(m, k);
    case PendingExpires(k) => ExpiryKeepsSymmetryIff(m, k);
  }

  /** Symmetry survives everything but leaving a room while holding a lock, and expiry. */
  predicate KeepsSymmetry(m: System, e: Event) {
    match e
    case Leave(u) => u !in m.store.userLock
    case LocksExpire(k) => k !in m.store.pairLock
    case PendingExpires(k) => k !in m.store.pending
    case _ => true
  }

  predicate RunKeepsSymmetry(m: System, es: seq<Event>)
    decreases |es|
  {
    es == [] || (KeepsSymmetry(m, es[0]) && RunKeepsSymmetry(Step(m, es[0]), es[1..]))
  }

  lemma {:induction false} RunsAreSymmetric(m: System, es: seq<Event>)
    requires Symmetric(m) && RunKeepsSymmetry(m, es)
    ensures Symmetric(Run(m, es))
    decreases |es|
  {
    if es != [] {
      StepKeepsSymmetryIff(m, es[0]);
      RunsAreSymmetric(Step(m, es[0]), es[1..]);
    }
  }

  lemma InitialIsSymmetric()
    ensures Symmetric(INITIAL)
  {
  }

  // ---------- what symmetry means ----------

  /**
   * Between handlers, a record for two users exists exactly when each has an attempt
   * proposed to the other, and then the record names those attempts and there are no others.
   */
  lemma RecordIffBothProposed(m: System, u: Id, v: Id)
    requires Symmetric(m) && u != v
    ensures var s := m.store;
      var k := PairOf(u, v);
      && (k in s.pending <==> exists a :: IsProposed(s.attempts, a, u, v))
      && (k in s.pending <==> exists b :: IsProposed(s.attempts, b, v, u))
      && (k in s.pending ==> forall a :: IsProposed(s.attempts, a, u, v) <==> a == SideAttempt(s.pending[k], u))
      && (k in s.pending ==> forall b :: IsProposed(s.attempts, b, v, u) <==> b == SideAttempt(s.pending[k], v))
  {
    OneSide(m, u, v);
    OneSide(m, v, u);
    PairOfSymmetric(u, v);
  }

  lemma OneSide(m: System, u: Id, v: Id)
    requires Symmetric(m) && u != v
    ensures var s := m.store;
      var k := PairOf(u, v);
      && (k in s.pending <==> exists a :: IsProposed(s.attempts, a, u, v))
      && (k in s.pending ==> forall a :: IsProposed(s.attempts, a, u, v) <==> a == SideAttempt(s.pending[k], u))
  {
    var s := m.store;
    var k := PairOf(u, v);
    forall a | IsProposed(s.attempts, a, u, v)
      ensures k in s.pending && a == SideAttempt(s.pending[k], u)
    {
      assert HasRecord(s.attempts[a], a, s.pending);
    }
    if k in s.pending {
      assert Sound(s.attempts, k, s.pending[k]);
      PairOfSymmetric(u, v);
      assert IsProposed(s.attempts, SideAttempt(s.pending[k], u), u, v);
    }
  }

  /**
   * An answer to an open proposal never finds it expired. Skip ends both attempts; the first
   * Connect ends neither; the Connect that completes the pair ends both, in one and the same
   * room or both without one, and is the only one that asks for a room.
   */
  lemma AnswerEndsBothOrNeither(m: System, u: Id, v: Id, a: Id, decision: Decision, room: Option<Id>)
    requires Symmetric(m) && IsProposed(m.store.attempts, a, u, v)
    ensures var s := m.store;
      var k := PairOf(u, v);
      && k in s.pending
      && var p := s.pending[k];
      var (s', res) := Respond(s, u, a, decision, room);
      var peerSaidYes := if u == k.low then p.connectHigh else p.connectLow;
      && (decision == Connect && !peerSaidYes ==>
            && res == Ok && s'.attempts == s.attempts && s'.roomCalls == s.roomCalls
            && s'.pending == s.pending[k := SetConnect(p, u == k.low)])
      && (decision == Skip || peerSaidYes ==>
            k !in s'.pending && k !in s'.pairLock && u !in s'.userLock && v !in s'.userLock)
      && (decision == Skip ==>
            && res == Ok && s'.roomCalls == s.roomCalls
            && BothEnded(s'.attempts, p))
      && (decision == Connect && peerSaidYes ==>
            && s'.roomCalls == s.roomCalls + [p.roomAttemptId]
            && if room.Some? then
                 && res == Ok && BothMatched(s'.attempts, p, room.value)
                 && IsMatchedWith(s'.attempts, a, v, room.value, p.matchScore)
               else
                 res == RoomCreateFailed && BothEnded(s'.attempts, p))
  {
    var s := m.store;
    var k := PairOf(u, v);
    assert HasRecord(s.attempts[a], a, s.pending);
    var p := s.pending[k];
    assert Sound(s.attempts, k, p);
    if decision == Skip {
      SkipIs(s, k, u, a, room);
      SkipCloses(s, k, u, a, room);
    } else if RecordConnect(s, k, u).1 == 2 {
      CompletingConnect(s, k, u, v, a, room);
    } else {
      ConnectIs(s, k, u, a, room);
    }
  }

  lemma CompletingConnect(s: Store, k: Pair, u: Id, v: Id, a: Id, room: Option<Id>)
    requires MayRespond(s, u, a, k) && k == PairOf(u, v) && u != v && a == SideAttempt(s.pending[k], u)
    requires RecordConnect(s, k, u).1 == 2
    ensures var p, (s', res) := s.pending[k], Respond(s, u, a, Connect, room);
      && k !in s'.pending && k !in s'.pairLock && u !in s'.userLock && v !in s'.userLock
      && s'.roomCalls == s.roomCalls + [p.roomAttemptId]
      && if room.Some? then
           && res == Ok && BothMatched(s'.attempts, p, room.value)
           && IsMatchedWith(s'.attempts, a, v, room.value, p.matchScore)
         else res == RoomCreateFailed && BothEnded(s'.attempts, p)
  {
    ConnectIs(s, k, u, a, room);
    ConnectCloses(s, k, u, a, room);
    LandCloses(Elect(s, k, u), k, s.pending[k], room);
  }

  /** Cancelling while proposed ends the peer's attempt too. */
  lemma CancelEndsBoth(m: System, u: Id, v: Id)
    requires Symmetric(m) && u in m.store.last && IsProposed(m.store.attempts, m.store.last[u], u, v)
    ensures var s, s' := m.store, CancelMatch(m.store, u);
      var k := PairOf(u, v);
      && k in s.pending && k !in s'.pending && k !in s'.pairLock && u !in s'.userLock && v !in s'.userLock
      && s'.attempts[s.pending[k].attemptLow].status == Ended && s'.attempts[s.pending[k].attemptHigh].status == Ended
  {
    var s := m.store;
    var k := PairOf(u, v);
    assert HasRecord(s.attempts[s.last[u]], s.last[u], s.pending);
    var p := s.pending[k];
    assert Sound(s.attempts, k, p);
    CancelCloses(s, k, u);
    var reasonLow := if u == p.userLow then "cancelled_by_user" else "proposal_peer_cancelled";
    var reasonHigh := if u == p.userHigh then "cancelled_by_user" else "proposal_peer_cancelled";
    CancelIs(s, k, u);
    EndBothCloses(RemoveFromPool(s, u), k, p, reasonLow, reasonHigh);
  }

  /**
   * From the empty store, after any run that respects the guards: a record exists exactly when both
   * users hold attempts proposed to each other, and no attempt was ever put to the room service twice.
   */
  lemma ProposalsStaySymmetric(es: seq<Event>, u: Id, v: Id)
    requires RunKeepsSymmetry(INITIAL, es) && u != v
    ensures var s := Run(INITIAL, es).store;
      && (PairOf(u, v) in s.pending <==>
            (exists a :: IsProposed(s.attempts, a, u, v)) && (exists b :: IsProposed(s.attempts, b, v, u)))
      && (PairOf(u, v) in s.pending <==> PairOf(u, v) in s.pairLock)
      && forall i, j :: 0 <= i < j < |s.roomCalls| ==> s.roomCalls[i] != s.roomCalls[j]
  {
    InitialIsSymmetric();
    RunsAreSymmetric(INITIAL, es);
    RecordIffBothProposed(Run(INITIAL, es), u, v);
  }
}
