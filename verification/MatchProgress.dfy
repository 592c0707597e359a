/** What becomes of two users whose locks and record expire before both of them have answered. */
module MatchProgress {
  import opened RedisKeys
  import opened Ranking
  import opened MatchModel
  import opened Types
  import opened MatchInvariants
  import MatchExclusivity

  /** The user is locked for a proposal of which only the attempt is left: no record, no lock. */
  predicate Stuck(m: System, u: Id, peer: Id) {
    var s := m.store;
    && InState(s, u, Locked) && u !in s.userLock
    && u in s.last && IsProposed(s.attempts, s.last[u], u, peer) && PairOf(u, peer) !in s.pending
    && (m.working.Some? ==> m.working.value.userId != u)
  }

  /** Expiry does that to both users of an open proposal. */
  lemma ExpiryLeavesStuck(m: System, k: Pair)
    requires Exclusive(m) && k in m.store.pending
    ensures var m' := Run(m, [LocksExpire(k), PendingExpires(k)]);
      Exclusive(m') && Stuck(m', k.low, k.high) && Stuck(m', k.high, k.low)
  {
    var m1 := Step(m, LocksExpire(k));
    RunTwo(m, LocksExpire(k), PendingExpires(k));
    MatchExclusivity.LockExpiryKeepsExclusivity(m, k);
    MatchExclusivity.RecordExpiryKeepsExclusivity(m1, k);
    assert Sound(m.store.attempts, k, m.store.pending[k]) && Engaged(m.store, k, m.store.pending[k]);
    assert k in m.store.pending.Keys && Involves(k, k.low) && Involves(k, k.high);
    PairOfSymmetric(k.low, k.high);
  }

  /** Starting again answers with the dead proposal, answering it fails, and nobody can be paired with the user. */
  lemma StuckAnswers(m: System, u: Id, peer: Id, r: Id, decision: Decision, room: Option<Id>, job: Job)
    requires Stuck(m, u, peer)
    ensures var s := m.store;
      && (r !in s.attempts ==>
            && StartFindMatch(s, Job(u, r), true).0 == s && StartFindMatch(s, Job(u, r), true).1.ProposedTo?
            && StartFindMatch(s, Job(u, r), true).1.requestId == s.last[u]
            && StartFindMatch(s, Job(u, r), true).1.peer == peer)
      && Respond(s, u, s.last[u], decision, room) == (s, ProposalExpired)
      && !Pairable(s, job, u) && (job.userId == u ==> forall c :: !Pairable(s, job, c))
  {
  }

  /** What ends that: to cancel, to leave a room, or to have no profile snapshot when one is needed. */
  predicate Frees(m: System, e: Event, u: Id) {
    var s := m.store;
    match e
    case Cancel(v) => v == u
    case Leave(v) => v == u
    case Start(job, hasSnapshot) => job.userId == u && !hasSnapshot && job.requestId !in s.attempts
    case Begin(hasSnapshot) =>
      && m.working.None? && s.queue != [] && !hasSnapshot && s.queue[0].userId == u
      && s.queue[0].requestId in s.attempts && s.attempts[s.queue[0].requestId].status == Seeking
    case _ => false
  }

  lemma StuckIsOutside(m: System, u: Id, peer: Id)
    requires Exclusive(m) && Stuck(m, u, peer)
    ensures !InSome(m.store.pending.Keys, u)
  {
    var s := m.store;
    if h :| h in s.pending.Keys && Involves(h, u) {
      assert Sound(s.attempts, h, s.pending[h]) && Engaged(s, h, s.pending[h]);
      PairOfSymmetric(h.low, h.high);
      assert false;
    }
  }

  lemma CloseKeepsStuck(m: System, s': Store, h: Pair, u: Id, peer: Id)
    requires Exclusive(m) && Stuck(m, u, peer)
    requires h in m.store.pending && Closes(m.store, s', h, m.store.pending[h])
    ensures Stuck(m.(store := s'), u, peer)
  {
    var s := m.store;
    StuckIsOutside(m, u, peer);
    assert h in s.pending.Keys && Involves(h, h.low) && Involves(h, h.high);
    assert Sound(s.attempts, h, s.pending[h]);
  }

  /** `s'` is `s` after one attempt and the state of another user have changed. */
  predicate OneAttemptChanges(s: Store, s': Store, a: Id, v: Id) {
    && a in s'.attempts && s'.attempts == s.attempts[a := s'.attempts[a]]
    && s'.last == s.last[v := a]
    && (s'.userState == s.userState || s'.userState == s.userState - {v})
    && (s'.userLock == s.userLock || s'.userLock == s.userLock - {v})
    && s'.pending == s.pending
  }

  lemma ChangeKeepsStuck(m: System, m': System, a: Id, v: Id, u: Id, peer: Id)
    requires Stuck(m, u, peer) && OneAttemptChanges(m.store, m'.store, a, v) && v != u && a != m.store.last[u]
    requires m'.working.None? || m'.working == m.working
    ensures Stuck(m', u, peer)
  {
  }

  lemma FinishChanges(s: Store, job: Job, reason: string)
    ensures OneAttemptChanges(s, FinishJob(s, job, reason), job.requestId, job.userId)
    ensures !InState(FinishJob(s, job, reason), job.userId, Locked)
  {
  }

  lemma FinishKeepsStuck(m: System, reason: string, u: Id, peer: Id)
    requires Exclusive(m) && Stuck(m, u, peer)
    ensures Stuck(Step(m, Finish(reason)), u, peer)
  {
    if m.working.Some? {
      FinishChanges(m.store, m.working.value, reason);
      ChangeKeepsStuck(m, Step(m, Finish(reason)), m.working.value.requestId, m.working.value.userId, u, peer);
    }
  }

  lemma BeginKeepsStuckIff(m: System, hasSnapshot: bool, u: Id, peer: Id)
    requires Exclusive(m) && Stuck(m, u, peer)
    ensures Stuck(Step(m, Begin(hasSnapshot)), u, peer) <==> !Frees(m, Begin(hasSnapshot), u)
  {
    var s, m' := m.store, Step(m, Begin(hasSnapshot));
    if m.working.None? && s.queue != [] {
      var rest, job := s.(queue := s.queue[1..]), s.queue[0];
      assert job in s.queue;
      FinishChanges(rest, job, "snapshot_not_found");
      FinishChanges(rest, job, "user_unavailable");
      if m'.store != rest && job.userId != u {
        ChangeKeepsStuck(m, m', job.requestId, job.userId, u, peer);
      }
    }
  }

  lemma PassKeepsStuck(m: System, cands: seq<Candidate>, isFallback: bool, u: Id, peer: Id)
    requires Exclusive(m) && Stuck(m, u, peer)
    ensures Stuck(Step(m, Pass(cands, isFallback)), u, peer)
  {
    if m.working.Some? {
      var s, job := m.store, m.working.value;
      var i := FirstPairable(s, job, cands);
      if i < |cands| {
        ProposeKeepsStuck(m, EvictStale(s, job, cands[..i]), cands[i], isFallback, u, peer);
      }
    }
  }

  lemma PairKeepsStuck(m: System, s: Store, s': Store, v: Id, w: Id, a: Id, b: Id, u: Id, peer: Id)
    requires Stuck(m, u, peer) && s == m.store.(pool := s.pool) && PairChanges(s, s', v, w, a, b)
    requires u != v && u != w && m.store.last[u] != a && m.store.last[u] != b
    ensures Stuck(System(s', None), u, peer)
  {
    PairOfInjective(u, peer, v, w);
    assert PairOf(u, peer) !in s'.pending.Keys;
  }

  lemma ProposeKeepsStuck(m: System, s: Store, c: Candidate, isFallback: bool, u: Id, peer: Id)
    requires Exclusive(m) && Stuck(m, u, peer) && m.working.Some? && s == m.store.(pool := s.pool)
    requires Pairable(s, m.working.value, c.userId)
    ensures Stuck(System(Propose(s, m.working.value, c, isFallback), None), u, peer)
  {
    var job := m.working.value;
    ProposeChanges(s, job, c, isFallback);
    PairKeepsStuck(m, s, Propose(s, job, c, isFallback), job.userId, c.userId, job.requestId, s.last[c.userId], u,
        peer);
  }

  lemma RespondKeepsStuck(m: System, v: Id, a: Id, decision: Decision, room: Option<Id>, u: Id, peer: Id)
    requires Exclusive(m) && Stuck(m, u, peer)
    ensures Stuck(Step(m, RespondTo(v, a, decision, room)), u, peer)
  {
    var s := m.store;
    if Belongs(s.attempts, a, v) && s.attempts[a].status == Proposed && s.attempts[a].peer.Some? {
      var k := PairOf(v, s.attempts[a].peer.value);
      if k in s.pending {
        assert Sound(s.attempts, k, s.pending[k]);
        if decision == Skip {
          SkipCloses(s, k, v, a, room);
          CloseKeepsStuck(m, Respond(s, v, a, Skip, room).0, k, u, peer);
        } else if RecordConnect(s, k, v).1 == 2 {
          ConnectCloses(s, k, v, a, room);
          CloseKeepsStuck(m, Respond(s, v, a, Connect, room).0, k, u, peer);
        }
      }
    }
  }

  lemma CancelKeepsStuck(m: System, v: Id, u: Id, peer: Id)
    requires Exclusive(m) && Stuck(m, u, peer) && v != u
    ensures Stuck(Step(m, Cancel(v)), u, peer)
  {
    var s := m.store;
    if InSome(s.pending.Keys, v) {
      var k :| k in s.pending.Keys && Involves(k, v);
      assert Engaged(s, k, s.pending[k]) && Sound(s.attempts, k, s.pending[k]);
      PairOfSymmetric(k.low, k.high);
      CancelCloses(s, k, v);
      CloseKeepsStuck(m, CancelMatch(s, v), k, u, peer);
    } else if v in s.last {
      CancelOutsideChanges(m, v);
      ChangeKeepsStuck(m, Step(m, Cancel(v)), s.last[v], v, u, peer);
    }
  }

  lemma CancelOutsideChanges(m: System, v: Id)
    requires Base(m) && !InSome(m.store.pending.Keys, v) && v in m.store.last
    ensures OneAttemptChanges(m.store, CancelMatch(m.store, v), m.store.last[v], v)
  {
    var s := m.store;
    if s.attempts[s.last[v]].peer.Some? {
      var k := PairOf(v, s.attempts[s.last[v]].peer.value);
      assert k in s.pending.Keys ==> !Involves(k, v);
    }
  }

  lemma StartKeepsStuckIff(m: System, job: Job, hasSnapshot: bool, u: Id, peer: Id)
    requires Exclusive(m) && Stuck(m, u, peer)
    ensures Stuck(Step(m, Start(job, hasSnapshot)), u, peer) <==> !Frees(m, Start(job, hasSnapshot), u)
  {
    var s, s' := m.store, Step(m, Start(job, hasSnapshot)).store;
    if job.userId == u {
      StuckAnswers(m, u, peer, job.requestId, Skip, None, job);
    } else if s' != s {
      StartChanges(s, job, hasSnapshot);
    }
  }

  /** A start writes only the new attempt, the user's last attempt, and at most that the user is searching. */
  predicate StartWrites(s: Store, s': Store, job: Job) {
    && job.requestId !in s.attempts && job.requestId in s'.attempts
    && s'.attempts == s.attempts[job.requestId := s'.attempts[job.requestId]]
    && s'.last == s.last[job.userId := job.requestId]
    && (s'.userState == s.userState || s'.userState == s.userState[job.userId := Searching])
    && s'.userLock == s.userLock && s'.pending == s.pending
  }

  lemma CommitWrites(s: Store, job: Job)
    requires job.requestId !in s.attempts
    ensures StartWrites(s, CommitSearching(s, job), job)
  {
  }

  lemma NoMatchWrites(s: Store, job: Job, reason: string)
    requires job.requestId !in s.attempts
    ensures StartWrites(s, MarkNoMatch(s, job.requestId, job.userId, reason), job)
  {
  }

  lemma StartChanges(s: Store, job: Job, hasSnapshot: bool)
    requires StartFindMatch(s, job, hasSnapshot).0 != s
    ensures StartWrites(s, StartFindMatch(s, job, hasSnapshot).0, job)
  {
    StartIsOneOf(s, job, hasSnapshot);
    if job.requestId !in s.attempts {
      CommitWrites(s, job);
      NoMatchWrites(s, job, "snapshot_not_found");
      NoMatchWrites(s, job, "user_unavailable");
    }
  }

  lemma LeaveKeepsStuckIff(m: System, v: Id, u: Id, peer: Id)
    requires Exclusive(m) && Stuck(m, u, peer)
    ensures Stuck(Step(m, Leave(v)), u, peer) <==> v != u
  {
    var s := m.store;
    if v != u && v in s.last && s.attempts[s.last[v]].status == Matched {
      ChangeKeepsStuck(m, Step(m, Leave(v)), s.last[v], v, u, peer);
    }
  }

  /** Every step leaves a stuck user stuck exactly if it is none of those four. */
  lemma StepKeepsStuckIff(m: System, e: Event, u: Id, peer: Id)
    requires Exclusive(m) && Stuck(m, u, peer)
    ensures Stuck(Step(m, e), u, peer) <==> !Frees(m, e, u)
  {
    match e
    case Start(job, hasSnapshot) => StartKeepsStuckIff(m, job, hasSnapshot, u, peer);
    case Begin(hasSnapshot) => BeginKeepsStuckIff(m, hasSnapshot, u, peer);
    case Pass(cands, isFallback) => PassKeepsStuck(m, cands, isFallback, u, peer);
    case Finish(reason) => FinishKeepsStuck(m, reason, u, peer);
    case RespondTo(v, a, decision, room) => RespondKeepsStuck(m, v, a, decision, room, u, peer);
    case Cancel(v) =>
      if v != u {
        CancelKeepsStuck(m, v, u, peer);
      }
    case Leave(v) => LeaveKeepsStuckIff(m, v, u, peer);
    case RoomStateExpires(v) =>
    case LocksExpire(k) =>
    case PendingExpires(k) =>
  }

  predicate NeverFrees(m: System, es: seq<Event>, u: Id)
    decreases |es|
  {
    es == [] || (!Frees(m, es[0], u) && NeverFrees(Step(m, es[0]), es[1..], u))
  }

  /** No run gets the user out by itself, however long: not expiry, not the peer, not the worker, not starting again. */
  lemma {:induction false} StuckUntilFreed(m: System, es: seq<Event>, u: Id, peer: Id)
    requires Exclusive(m) && Stuck(m, u, peer)
    requires MatchExclusivity.RunKeepsExclusivity(m, es) && NeverFrees(m, es, u)
    ensures Stuck(Run(m, es), u, peer)
    decreases |es|
  {
    if es != [] {
      StepKeepsStuckIff(m, es[0], u, peer);
      MatchExclusivity.StepKeepsExclusivityIff(m, es[0]);
      StuckUntilFreed(Step(m, es[0]), es[1..], u, peer);
    }
  }

  // ---------- barred from searching ----------

  /** The user is locked and in no proposal. */
  ghost predicate Barred(m: System, u: Id) {
    && InState(m.store, u, Locked) && !InSome(m.store.pending.Keys, u)
    && (m.working.Some? ==> m.working.value.userId != u)
  }

  lemma StuckIsBarred(m: System, u: Id, peer: Id)
    requires Exclusive(m) && Stuck(m, u, peer)
    ensures Barred(m, u)
  {
    StuckIsOutside(m, u, peer);
  }

  /** No start of theirs begins a search, with or without a snapshot, and nobody is paired with them. */
  lemma BarredCannotSearch(m: System, job: Job, hasSnapshot: bool, c: Id)
    requires Barred(m, job.userId)
    ensures var (s', res) := StartFindMatch(m.store, job, hasSnapshot);
      && s'.queue == m.store.queue && s'.pool == m.store.pool
      && (job.requestId !in m.store.attempts ==> res.ProposedTo? || res.NotMatched?)
    ensures !Pairable(m.store, job, c) && !Pairable(m.store, Job(c, job.requestId), job.userId)
  {
  }

  /** A refused start does not lift that; a job left over from an earlier search may. */
  predicate Unbars(m: System, e: Event, u: Id) {
    Frees(m, e, u) && !e.Start?
  }

  lemma LockedStart(s: Store, job: Job, hasSnapshot: bool)
    requires InState(s, job.userId, Locked)
    ensures var s' := StartFindMatch(s, job, hasSnapshot).0;
      s'.userState == s.userState && s'.pending == s.pending
  {
  }

  lemma StartKeepsBarred(m: System, job: Job, hasSnapshot: bool, u: Id)
    requires Barred(m, u)
    ensures Barred(Step(m, Start(job, hasSnapshot)), u)
  {
    if job.userId == u {
      LockedStart(m.store, job, hasSnapshot);
    } else if StartFindMatch(m.store, job, hasSnapshot).0 != m.store {
      StartChanges(m.store, job, hasSnapshot);
    }
  }

  lemma BeginKeepsBarredIff(m: System, hasSnapshot: bool, u: Id)
    requires Exclusive(m) && Barred(m, u)
    ensures Barred(Step(m, Begin(hasSnapshot)), u) <==> !Unbars(m, Begin(hasSnapshot), u)
  {
    if m.working.None? && m.store.queue != [] {
      var rest, job := m.store.(queue := m.store.queue[1..]), m.store.queue[0];
      FinishChanges(rest, job, "snapshot_not_found");
      FinishChanges(rest, job, "user_unavailable");
    }
  }

  lemma CloseKeepsBarred(m: System, s': Store, h: Pair, u: Id)
    requires Barred(m, u) && h in m.store.pending && Closes(m.store, s', h, m.store.pending[h])
    ensures Barred(m.(store := s'), u)
  {
    assert h in m.store.pending.Keys && Involves(h, h.low) && Involves(h, h.high);
    assert s'.pending.Keys <= m.store.pending.Keys;
  }

  lemma PassKeepsBarred(m: System, cands: seq<Candidate>, isFallback: bool, u: Id)
    requires Barred(m, u)
    ensures Barred(Step(m, Pass(cands, isFallback)), u)
  {
    if m.working.Some? {
      var s, job := m.store, m.working.value;
      var i := FirstPairable(s, job, cands);
      if i < |cands| {
        var s1 := EvictStale(s, job, cands[..i]);
        ProposeChanges(s1, job, cands[i], isFallback);
        PairKeepsBarred(s1, Propose(s1, job, cands[i], isFallback), job.userId, cands[i].userId, job.requestId,
                        s.last[cands[i].userId], u);
      }
    }
  }

  lemma PairKeepsBarred(s: Store, s': Store, v: Id, w: Id, a: Id, b: Id, u: Id)
    requires PairChanges(s, s', v, w, a, b) && u != v && u != w
    requires InState(s, u, Locked) && !InSome(s.pending.Keys, u)
    ensures InState(s', u, Locked) && !InSome(s'.pending.Keys, u)
  {
    assert s'.pending.Keys == s.pending.Keys + {PairOf(v, w)};
  }

  lemma RespondKeepsBarred(m: System, v: Id, a: Id, decision: Decision, room: Option<Id>, u: Id)
    requires Exclusive(m) && Barred(m, u)
    ensures Barred(Step(m, RespondTo(v, a, decision, room)), u)
  {
    var s := m.store;
    if Belongs(s.attempts, a, v) && s.attempts[a].status == Proposed && s.attempts[a].peer.Some? {
      var k := PairOf(v, s.attempts[a].peer.value);
      if k in s.pending {
        assert Sound(s.attempts, k, s.pending[k]);
        if decision == Skip {
          SkipCloses(s, k, v, a, room);
          CloseKeepsBarred(m, Respond(s, v, a, Skip, room).0, k, u);
        } else if RecordConnect(s, k, v).1 == 2 {
          ConnectCloses(s, k, v, a, room);
          CloseKeepsBarred(m, Respond(s, v, a, Connect, room).0, k, u);
        } else {
          ConnectIs(s, k, v, a, room);
          FlagTouches(s, k, v);
          assert s.pending[k := SetConnect(s.pending[k], v == k.low)].Keys == s.pending.Keys;
        }
      }
    }
  }

  lemma CancelKeepsBarred(m: System, v: Id, u: Id)
    requires Exclusive(m) && Barred(m, u) && v != u
    ensures Barred(Step(m, Cancel(v)), u)
  {
    var s := m.store;
    if InSome(s.pending.Keys, v) {
      var k :| k in s.pending.Keys && Involves(k, v);
      assert Engaged(s, k, s.pending[k]) && Sound(s.attempts, k, s.pending[k]);
      PairOfSymmetric(k.low, k.high);
      CancelCloses(s, k, v);
      CloseKeepsBarred(m, CancelMatch(s, v), k, u);
    } else if v in s.last {
      CancelOutsideChanges(m, v);
    }
  }

  lemma ExpiryKeepsBarred(m: System, e: Event, u: Id)
    requires Barred(m, u) && (e.RoomStateExpires? || e.LocksExpire? || e.PendingExpires?)
    ensures Barred(Step(m, e), u)
  {
    assert Step(m, e).store.pending.Keys <= m.store.pending.Keys;
  }

  /**
   * Among these steps only the user's own cancel, leaving a room, or such a job without a snapshot lets them
   * search again. So does the answer of a room that was asked for before the record expired: see `MatchRoom`.
   */
  lemma StepKeepsBarredIff(m: System, e: Event, u: Id)
    requires Exclusive(m) && Barred(m, u)
    ensures Barred(Step(m, e), u) <==> !Unbars(m, e, u)
  {
    match e
    case Start(job, hasSnapshot) => StartKeepsBarred(m, job, hasSnapshot, u);
    case Begin(hasSnapshot) => BeginKeepsBarredIff(m, hasSnapshot, u);
    case Pass(cands, isFallback) => PassKeepsBarred(m, cands, isFallback, u);
    case Finish(reason) =>
      if m.working.Some? {
        FinishChanges(m.store, m.working.value, reason);
      }
    case RespondTo(v, a, decision, room) => RespondKeepsBarred(m, v, a, decision, room, u);
    case Cancel(v) =>
      if v != u {
        CancelKeepsBarred(m, v, u);
      }
    case Leave(v) =>
    case _ => ExpiryKeepsBarred(m, e, u);
  }

  predicate NeverUnbars(m: System, es: seq<Event>, u: Id)
    decreases |es|
  {
    es == [] || (!Unbars(m, es[0], u) && NeverUnbars(Step(m, es[0]), es[1..], u))
  }

  lemma {:induction false} BarredUntilFreed(m: System, es: seq<Event>, u: Id)
    requires Exclusive(m) && Barred(m, u)
    requires MatchExclusivity.RunKeepsExclusivity(m, es) && NeverUnbars(m, es, u)
    ensures Barred(Run(m, es), u)
    decreases |es|
  {
    if es != [] {
      StepKeepsBarredIff(m, es[0], u);
      MatchExclusivity.StepKeepsExclusivityIff(m, es[0]);
      BarredUntilFreed(Step(m, es[0]), es[1..], u);
    }
  }
}
