/** A user is in at most one proposal, even when locks and records expire at any time. */
module MatchExclusivity {
  import opened RedisKeys
  import opened Ranking
  import opened MatchModel
  import opened Types
  import opened MatchInvariants

  /**
   * Exclusivity survives expiry too; what breaks it is a user in an open proposal
   * (or still locked) who leaves, or whose profile snapshot cannot be loaded.
   */
  ghost predicate KeepsExclusivity(m: System, e: Event) {
    var s := m.store;
    match e
    case Leave(u) => u !in s.userLock && !InSome(s.pending.Keys, u)
    case Start(job, hasSnapshot) => hasSnapshot || job.requestId in s.attempts || !InSome(s.pending.Keys, job.userId)
    case Begin(hasSnapshot) =>
      || m.working.Some? || s.queue == [] || hasSnapshot
      || s.queue[0].requestId !in s.attempts || s.attempts[s.queue[0].requestId].status != Seeking
      || !InSome(s.pending.Keys, s.queue[0].userId)
    case _ => true
  }

  ghost predicate RunKeepsExclusivity(m: System, es: seq<Event>)
    decreases |es|
  {
    es == [] || (KeepsExclusivity(m, es[0]) && RunKeepsExclusivity(Step(m, es[0]), es[1..]))
  }

  /** Open proposals never share a user. */
  lemma ProposalsDisjoint(m: System)
    requires Exclusive(m)
    ensures Disjoint(m.store.pending.Keys)
  {
    var s := m.store;
    forall k, h, u | k in s.pending && h in s.pending && Involves(k, u) && Involves(h, u)
      ensures k == h
    {
      assert Sound(s.attempts, k, s.pending[k]) && Sound(s.attempts, h, s.pending[h]);
      assert Engaged(s, k, s.pending[k]) && Engaged(s, h, s.pending[h]);
      if k != h {
        SoundIsInjective(s.attempts, k, s.pending[k], h, s.pending[h]);
      }
    }
  }

  /** A user whose state is not locked is in no proposal, so the lock script cannot take them into a second one. */
  lemma UnlockedIsFree(s: Store, u: Id)
    requires AllEngaged(s) && !InState(s, u, Locked)
    ensures !InSome(s.pending.Keys, u)
  {
    forall k | k in s.pending.Keys
      ensures !Involves(k, u)
    {
      assert Engaged(s, k, s.pending[k]);
    }
  }

  lemma WriteOutsideKeepsRecords(attempts: Attempts, pending: map<Pair, Pending>, a: Id, x: Attempt)
    requires RecordsSound(attempts, pending)
    requires a in attempts ==> !InSome(pending.Keys, attempts[a].userId)
    ensures RecordsSound(attempts[a := x], pending)
  {
    forall k | k in pending
      ensures Sound(attempts[a := x], k, pending[k])
    {
      assert k in pending.Keys && Sound(attempts, k, pending[k]);
      assert Involves(k, k.low) && Involves(k, k.high);
    }
  }

  lemma FrameKeepsEngaged(s: Store, s': Store)
    requires AllEngaged(s)
    requires s'.pending == s.pending && s'.last == s.last && s'.userState == s.userState
    ensures AllEngaged(s')
  {
    forall k | k in s'.pending
      ensures Engaged(s', k, s'.pending[k])
    {
      assert Engaged(s, k, s.pending[k]);
    }
  }

  /** Writes about a user in no proposal: an attempt of theirs, their last attempt, their state. */
  lemma OutsideKeepsExclusivity(m: System, s': Store, a: Id, u: Id)
    requires Exclusive(m) && !InSome(m.store.pending.Keys, u)
    requires a !in m.store.attempts || Belongs(m.store.attempts, a, u)
    requires a in s'.attempts && s'.attempts == m.store.attempts[a := s'.attempts[a]] && s'.attempts[a].userId == u
    requires s'.last == m.store.last[u := a] && SameStates(m.store, s', {u})
    requires s'.queue == m.store.queue || s'.queue == m.store.queue + [Job(u, a)]
    requires s'.userLock == m.store.userLock && s'.pairLock == m.store.pairLock
    requires s'.pending == m.store.pending && s'.finalize == m.store.finalize
    ensures Exclusive(m.(store := s'))
  {
    var s := m.store;
    OwnedAfterWrite(s.attempts, s.last, s.queue, m.working, a, s'.attempts[a]);
    WriteOutsideKeepsRecords(s.attempts, s.pending, a, s'.attempts[a]);
    forall k | k in s.pending
      ensures Engaged(s', k, s.pending[k])
    {
      assert k in s.pending.Keys && Involves(k, k.low) && Involves(k, k.high);
      assert Engaged(s, k, s.pending[k]);
    }
  }

  /** An engaged user whose last attempt or state is overwritten is not engaged any more. */
  lemma DisengagedBreaksExclusivity(m: System, m': System, u: Id)
    requires Exclusive(m) && InSome(m.store.pending.Keys, u) && m'.store.pending == m.store.pending
    requires !InState(m'.store, u, Locked) || (u in m'.store.last && m'.store.last[u] !in m.store.attempts)
    ensures !Exclusive(m')
  {
    var s := m.store;
    var k :| k in s.pending.Keys && Involves(k, u);
    assert Sound(s.attempts, k, s.pending[k]);
    assert !(Engaged(m'.store, k, m'.store.pending[k]));
  }

  /** A start by a user in a proposal answers with that proposal: their attempt, the other user, its score and flag. */
  lemma StartInProposal(m: System, k: Pair, job: Job)
    requires Exclusive(m) && k in m.store.pending && Involves(k, job.userId)
    ensures StartFindMatch(m.store, job, true).0 == m.store
    ensures var p, isLow := m.store.pending[k], job.userId == k.low;
      && job.userId in m.store.last
      && m.store.last[job.userId] == if isLow then p.attemptLow else p.attemptHigh
    ensures var p, isLow := m.store.pending[k], job.userId == k.low;
      job.requestId !in m.store.attempts ==>
        StartFindMatch(m.store, job, true).1 ==
          ProposedTo(if isLow then p.attemptLow else p.attemptHigh, if isLow then k.high else k.low,
                     p.matchScore, p.isFallback)
  {
    var s := m.store;
    assert Engaged(s, k, s.pending[k]);
    assert Sound(s.attempts, k, s.pending[k]);
  }

  lemma StartKeepsExclusivityIff(m: System, job: Job, hasSnapshot: bool)
    requires Exclusive(m)
    ensures Exclusive(Step(m, Start(job, hasSnapshot))) <==> KeepsExclusivity(m, Start(job, hasSnapshot))
  {
    var s, u, r := m.store, job.userId, job.requestId;
    var s' := StartFindMatch(s, job, hasSnapshot).0;
    if r !in s.attempts {
      if !InSome(s.pending.Keys, u) {
        if s' == MarkNoMatch(s, r, u, "snapshot_not_found") || s' == MarkNoMatch(s, r, u, "user_unavailable") {
          OutsideKeepsExclusivity(m, s', r, u);
        } else if s' != s {
          assert s' == CommitSearching(s, job);
          OutsideKeepsExclusivity(m, s', r, u);
        }
      } else if hasSnapshot {
        var k :| k in s.pending.Keys && Involves(k, u);
        StartInProposal(m, k, job);
      } else {
        DisengagedBreaksExclusivity(m, Step(m, Start(job, hasSnapshot)), u);
      }
    }
  }

  lemma FinishKeepsExclusivity(m: System, job: Job, reason: string)
    requires Exclusive(m) && Belongs(m.store.attempts, job.requestId, job.userId)
    requires !InSome(m.store.pending.Keys, job.userId)
    ensures Exclusive(m.(store := FinishJob(m.store, job, reason)))
  {
    OutsideKeepsExclusivity(m, FinishJob(m.store, job, reason), job.requestId, job.userId);
  }

  lemma BeginKeepsExclusivityIff(m: System, hasSnapshot: bool)
    requires Exclusive(m)
    ensures Exclusive(Step(m, Begin(hasSnapshot))) <==> KeepsExclusivity(m, Begin(hasSnapshot))
  {
    var s := m.store;
    if m.working.None? && s.queue != [] {
      var job := s.queue[0];
      var m1 := m.(store := s.(queue := s.queue[1..]));
      assert job in s.queue;
      assert forall j :: j in s.queue[1..] ==> j in s.queue;
      FrameKeepsEngaged(s, m1.store);
      assert Exclusive(m1);
      var (s', proceed) := BeginJob(m1.store, job, hasSnapshot);
      if s.attempts[job.requestId].status == Seeking {
        if !hasSnapshot && InSome(s.pending.Keys, job.userId) {
          DisengagedBreaksExclusivity(m, Step(m, Begin(hasSnapshot)), job.userId);
        } else if !hasSnapshot {
          FinishKeepsExclusivity(m1, job, "snapshot_not_found");
        } else if InState(s, job.userId, InRoom) {
          UnlockedIsFree(s, job.userId);
          FinishKeepsExclusivity(m1, job, "user_unavailable");
        } else if !InState(s, job.userId, Locked) {
          UnlockedIsFree(s, job.userId);
          assert proceed && s' == m1.store;
        }
      }
    }
  }

  lemma ProposeKeepsExclusivity(m: System, c: Candidate, isFallback: bool)
    requires Exclusive(m) && m.working.Some? && Pairable(m.store, m.working.value, c.userId)
    ensures Exclusive(System(Propose(m.store, m.working.value, c, isFallback), None))
  {
    var s, job := m.store, m.working.value;
    var k := PairOf(job.userId, c.userId);
    var s' := Propose(s, job, c, isFallback);
    UnlockedIsFree(s, job.userId);
    UnlockedIsFree(s, c.userId);
    ProposeKeepsBase(m, c, isFallback);
    ProposeIsSound(s, job, c, isFallback);
    ProposeChanges(s, job, c, isFallback);
    PairKeepsEngaged(s, s', job.userId, c.userId, job.requestId, s.last[c.userId]);
  }

  lemma PairKeepsEngaged(s: Store, s': Store, v: Id, w: Id, a: Id, b: Id)
    requires AllEngaged(s) && LocksAreOwn(s) && PairChanges(s, s', v, w, a, b) && v != w
    requires !InSome(s.pending.Keys, v) && !InSome(s.pending.Keys, w)
    requires SideAttempt(s'.pending[PairOf(v, w)], v) == a && SideAttempt(s'.pending[PairOf(v, w)], w) == b
    requires Sound(s'.attempts, PairOf(v, w), s'.pending[PairOf(v, w)])
    ensures AllEngaged(s') && LocksAreOwn(s')
  {
    forall h | h in s'.pending
      ensures Engaged(s', h, s'.pending[h])
      ensures (h.low in s'.userLock || h.high in s'.userLock) ==> h in s'.pairLock
    {
      if h != PairOf(v, w) {
        assert Engaged(s, h, s.pending[h]);
        OtherStaysEngaged(s, s', v, w, a, b, h);
      }
    }
  }

  lemma OtherStaysEngaged(s: Store, s': Store, v: Id, w: Id, a: Id, b: Id, h: Pair)
    requires AllEngaged(s) && LocksAreOwn(s) && PairChanges(s, s', v, w, a, b) && v != w
    requires !InSome(s.pending.Keys, v) && !InSome(s.pending.Keys, w) && h in s.pending
    ensures Engaged(s', h, s.pending[h]) <==> Engaged(s, h, s.pending[h])
    ensures (h.low in s'.userLock || h.high in s'.userLock) ==> h in s'.pairLock
  {
    assert h in s.pending.Keys && Involves(h, h.low) && Involves(h, h.high);
  }

  lemma PassKeepsExclusivity(m: System, cands: seq<Candidate>, isFallback: bool)
    requires Exclusive(m)
    ensures Exclusive(Step(m, Pass(cands, isFallback)))
  {
    if m.working.Some? {
      var job := m.working.value;
      var i := FirstPairable(m.store, job, cands);
      var m' := m.(store := EvictStale(m.store, job, cands[..i]));
      FrameKeepsEngaged(m.store, m'.store);
      assert Exclusive(m');
      if i < |cands| {
        ProposeKeepsExclusivity(m', cands[i], isFallback);
      }
    }
  }

  lemma CloseKeepsEngaged(m: System, s': Store, k: Pair, h: Pair)
    requires Exclusive(m) && k in m.store.pending && Closes(m.store, s', k, m.store.pending[k])
    requires h in m.store.pending && h != k
    ensures Engaged(s', h, m.store.pending[h]) <==> Engaged(m.store, h, m.store.pending[h])
    ensures (h.low in s'.userLock || h.high in s'.userLock) ==> h in s'.pairLock
  {
    var s := m.store;
    ProposalsDisjoint(m);
    assert h in s.pending.Keys && k in s.pending.Keys;
    assert Involves(h, h.low) && Involves(h, h.high) && Involves(k, k.low) && Involves(k, k.high);
  }

  lemma CloseKeepsExclusivity(m: System, s': Store, k: Pair)
    requires Exclusive(m) && k in m.store.pending && Closes(m.store, s', k, m.store.pending[k])
    ensures Exclusive(m.(store := s'))
  {
    CloseKeepsBase(m, s', k);
    forall h | h in s'.pending
      ensures Engaged(s', h, s'.pending[h])
      ensures (h.low in s'.userLock || h.high in s'.userLock) ==> h in s'.pairLock
    {
      assert Engaged(m.store, h, m.store.pending[h]);
      CloseKeepsEngaged(m, s', k, h);
    }
    assert forall h :: h in s'.pending.Keys ==> h in m.store.pending.Keys;
  }

  lemma RespondKeepsExclusivity(m: System, u: Id, a: Id, decision: Decision, room: Option<Id>)
    requires Exclusive(m)
    ensures Exclusive(Step(m, RespondTo(u, a, decision, room)))
  {
    var s := m.store;
    if Belongs(s.attempts, a, u) && s.attempts[a].status == Proposed && s.attempts[a].peer.Some? {
      var k := PairOf(u, s.attempts[a].peer.value);
      if k in s.pending {
        assert Sound(s.attempts, k, s.pending[k]);
        if decision == Skip {
          SkipCloses(s, k, u, a, room);
          CloseKeepsExclusivity(m, Respond(s, u, a, Skip, room).0, k);
        } else if RecordConnect(s, k, u).1 == 2 {
          ConnectCloses(s, k, u, a, room);
          CloseKeepsExclusivity(m, Respond(s, u, a, Connect, room).0, k);
        } else {
          FlagKeepsExclusivity(m, k, u);
        }
      }
    }
  }

  lemma FlagKeepsExclusivity(m: System, k: Pair, u: Id)
    requires Exclusive(m) && k in m.store.pending && RecordConnect(m.store, k, u).1 != 2
    ensures Exclusive(m.(store := RecordConnect(m.store, k, u).0))
  {
    var s, s' := m.store, RecordConnect(m.store, k, u).0;
    FlagKeepsRecords(s.attempts, s.pending, k, u == k.low);
    assert s'.pending.Keys == s.pending.Keys;
    forall h | h in s'.pending
      ensures Engaged(s', h, s'.pending[h])
    {
      assert Engaged(s, h, s.pending[h]);
    }
  }

  lemma CancelKeepsExclusivity(m: System, u: Id)
    requires Exclusive(m)
    ensures Exclusive(Step(m, Cancel(u)))
  {
    var s := m.store;
    if InSome(s.pending.Keys, u) {
      var k :| k in s.pending.Keys && Involves(k, u);
      assert Engaged(s, k, s.pending[k]);
      assert Sound(s.attempts, k, s.pending[k]);
      PairOfSymmetric(k.low, k.high);
      CancelCloses(s, k, u);
      CloseKeepsExclusivity(m, CancelMatch(s, u), k);
    } else if u in s.last {
      CancelOutside(m, u);
    } else {
      StateOutsideKeepsExclusivity(m, CancelMatch(s, u), u);
    }
  }

  lemma CancelOutside(m: System, u: Id)
    requires Exclusive(m) && !InSome(m.store.pending.Keys, u) && u in m.store.last
    ensures Exclusive(m.(store := CancelMatch(m.store, u)))
  {
    var s := m.store;
    var x := s.attempts[s.last[u]];
    if x.peer.Some? {
      var k := PairOf(u, x.peer.value);
      assert k in s.pending.Keys ==> !Involves(k, u);
    }
    OutsideKeepsExclusivity(m, CancelMatch(s, u), s.last[u], u);
  }

  /** Changing the state of a user in no proposal. */
  lemma StateOutsideKeepsExclusivity(m: System, s': Store, u: Id)
    requires Exclusive(m) && !InSome(m.store.pending.Keys, u) && SameStates(m.store, s', {u})
    requires s' == m.store.(userState := s'.userState, pool := s'.pool)
    ensures Exclusive(m.(store := s'))
  {
    var s := m.store;
    forall h | h in s'.pending
      ensures Engaged(s', h, s'.pending[h])
    {
      assert h in s.pending.Keys && Involves(h, h.low) && Involves(h, h.high);
      assert Engaged(s, h, s.pending[h]);
    }
  }

  lemma LeaveKeepsExclusivityIff(m: System, u: Id)
    requires Exclusive(m)
    ensures Exclusive(Step(m, Leave(u))) <==> KeepsExclusivity(m, Leave(u))
  {
    var s, m' := m.store, Step(m, Leave(u));
    if InSome(s.pending.Keys, u) {
      DisengagedBreaksExclusivity(m, m', u);
    } else if u in s.userLock {
      assert InSome(s.pairLock.Keys, u);
      var k :| k in s.pairLock.Keys && Involves(k, u);
      assert !LockAgrees(m'.store.userLock, k, s.pairLock[k]);
    } else {
      assert s.userLock - {u} == s.userLock;
      if u in s.last && s.attempts[s.last[u]].status == Matched {
        OutsideKeepsExclusivity(m, m'.store, s.last[u], u);
      } else {
        StateOutsideKeepsExclusivity(m, m'.store, u);
      }
    }
  }

  lemma RoomExpiryKeepsExclusivity(m: System, u: Id)
    requires Exclusive(m)
    ensures Exclusive(Step(m, RoomStateExpires(u)))
  {
    if InState(m.store, u, InRoom) {
      UnlockedIsFree(m.store, u);
      StateOutsideKeepsExclusivity(m, Step(m, RoomStateExpires(u)).store, u);
    }
  }

  lemma LockExpiryKeepsExclusivity(m: System, k: Pair)
    requires Exclusive(m)
    ensures Exclusive(Step(m, LocksExpire(k)))
  {
    var s, s' := m.store, Step(m, LocksExpire(k)).store;
    if k in s.pairLock {
      UnlockKeepsAgreement(s.userLock, s.pairLock, k);
      FrameKeepsEngaged(s, s');
    }
  }

  lemma RecordExpiryKeepsExclusivity(m: System, k: Pair)
    requires Exclusive(m)
    ensures Exclusive(Step(m, PendingExpires(k)))
  {
    var s, s' := m.store, Step(m, PendingExpires(k)).store;
    forall h | h in s'.pending
      ensures Sound(s'.attempts, h, s'.pending[h]) && Engaged(s', h, s'.pending[h])
    {
      assert Sound(s.attempts, h, s.pending[h]) && Engaged(s, h, s.pending[h]);
    }
    assert forall h :: h in s'.pending.Keys ==> h in s.pending.Keys;
  }

  /** Every event, expiry included, keeps proposals exclusive exactly when its guard allows it. */
  lemma StepKeepsExclusivityIff(m: System, e: Event)
    requires Exclusive(m)
    ensures Exclusive(Step(m, e)) <==> KeepsExclusivity(m, e)
  {
    match e
    case Start(job, hasSnapshot) => StartKeepsExclusivityIff(m, job, hasSnapshot);
    case Begin(hasSnapshot) => BeginKeepsExclusivityIff(m, hasSnapshot);
    case Pass(cands, isFallback) => PassKeepsExclusivity(m, cands, isFallback);
    case Finish(reason) =>
      if m.working.Some? {
        FinishKeepsExclusivity(m, m.working.value, reason);
      }
    case RespondTo(u, a, decision, room) => RespondKeepsExclusivity(m, u, a, decision, room);
    case Cancel(u) => CancelKeepsExclusivity(m, u);
    case Leave(u) => LeaveKeepsExclusivityIff(m, u);
    case RoomStateExpires(u) => RoomExpiryKeepsExclusivity(m, u);
    case LocksExpire(k) => LockExpiryKeepsExclusivity(m, k);
    case PendingExpires(k) => RecordExpiryKeepsExclusivity(m, k);
  }

  /** In every run that respects the guards, at every point, no user is in two proposals and all locks agree. */
  lemma {:induction false} RunsAreExclusive(m: System, es: seq<Event>)
    requires Exclusive(m) && RunKeepsExclusivity(m, es)
    ensures Exclusive(Run(m, es)) && Disjoint(Run(m, es).store.pending.Keys)
    decreases |es|
  {
    ProposalsDisjoint(m);
    if es != [] {
      StepKeepsExclusivityIff(m, es[0]);
      RunsAreExclusive(Step(m, es[0]), es[1..]);
    }
  }

  lemma InitialIsExclusive()
    ensures Exclusive(INITIAL)
  {
  }

  /**
   * From the empty store, after any run that respects the guards, with keys expiring at will: a user
   * has at most one open proposal and at most one pair lock, and pair locks carry their users' locks.
   */
  lemma ProposalsStayExclusive(es: seq<Event>, u: Id, k: Pair, h: Pair)
    requires RunKeepsExclusivity(INITIAL, es) && Involves(k, u) && Involves(h, u)
    ensures var s := Run(INITIAL, es).store;
      && (k in s.pending && h in s.pending ==> k == h)
      && (k in s.pairLock && h in s.pairLock ==> k == h)
      && (k in s.pairLock ==> u in s.userLock && s.userLock[u] == s.pairLock[k])
  {
    InitialIsExclusive();
    RunsAreExclusive(INITIAL, es);
  }
}
