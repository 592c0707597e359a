/** The matching service as it runs: Redis as mutable fields, and the handlers that update them step by step. */
module MatchOrchestrator {
  import opened RedisKeys
  import opened Ranking
  import opened MatchModel
  import opened Types
  import opened MatchJob

  /** The keys that the service uses, with the Lua scripts and pipelines that each run as one unit. */
  class Redis {
    var userLock: map<Id, Id>
    var pairLock: map<Pair, Id>
    var userState: map<Id, UserState>
    var pending: map<Pair, Pending>
    var finalize: set<Pair>
    var attempts: map<Id, Attempt>
    var last: map<Id, Id>
    var pool: set<Id>
    var queue: seq<Job>
    var startLock: map<Id, Id>
    var roomCalls: seq<Id>

    function View(): Store
      reads this
    {
      Store(userLock, pairLock, userState, pending, finalize, attempts, last, pool, queue, roomCalls)
    }

    constructor ()
      ensures View() == EMPTY && startLock == map[]
    {
      userLock, pairLock, userState, pending, finalize := map[], map[], map[], map[], {};
      attempts, last, pool, queue, startLock, roomCalls := map[], map[], {}, [], map[], [];
    }

    /** `SET key value NX` on a user lock. */
    method SetUserLockNx(u: Id, r: Id) returns (ok: bool)
      modifies this`userLock
      ensures ok == (u !in old(userLock))
      ensures userLock == if ok then old(userLock)[u := r] else old(userLock)
    {
      ok := u !in userLock;
      if ok {
        userLock := userLock[u := r];
      }
    }

    /** The lock script, command by command; on one user paired with themselves the second `NX` undoes the first. */
    method TryLockPair(userA: Id, userB: Id, r: Id) returns (ok: bool)
      modifies this`userLock, this`pairLock, this`userState
      ensures ok == CanLock(old(View()), userA, userB)
      ensures View() == if ok then WithLock(old(View()), userA, userB, r) else old(View())
    {
      var k := PairOf(userA, userB);
      if k in pairLock || k.low in userLock || k.high in userLock {
        return false;
      }
      if !(k.low in userState && userState[k.low] == Searching)
        || !(k.high in userState && userState[k.high] == Searching) {
        return false;
      }
      var lowSet := SetUserLockNx(k.low, r);
      var highSet := SetUserLockNx(k.high, r);
      if !highSet {
        userLock := userLock - {k.low};
        assert userLock == old(userLock);
        return false;
      }
      pairLock := pairLock[k := r];
      userState := userState[k.low := Locked];
      userState := userState[k.high := Locked];
      BothWritten(old(userLock), userA, userB, r);
      BothWritten(old(userState), userA, userB, Locked);
      return true;
    }

    method ReleaseLocks(userA: Id, userB: Id)
      modifies this`userLock, this`pairLock, this`userState
      ensures View() == ReleasePair(old(View()), userA, userB)
    {
      var k := PairOf(userA, userB);
      pairLock := pairLock - {k};
      userLock := userLock - {k.low};
      userLock := userLock - {k.high};
      userState := userState[k.low := Searching];
      userState := userState[k.high := Searching];
      BothRemoved(old(userLock), userA, userB);
      BothWritten(old(userState), userA, userB, Searching);
    }

    method DeleteProposal(userA: Id, userB: Id)
      modifies this`pending, this`finalize
      ensures View() == DeletePending(old(View()), userA, userB)
    {
      pending := pending - {PairOf(userA, userB)};
      finalize := finalize - {PairOf(userA, userB)};
    }

    /** The connect script: set this side's flag, then race for the right to create the room. */
    method RecordProposalConnect(k: Pair, u: Id) returns (rc: nat)
      requires k in pending
      modifies this`pending, this`finalize
      ensures (View(), rc) == RecordConnect(old(View()), k, u)
    {
      pending := pending[k := SetConnect(pending[k], u == k.low)];
      if pending[k].connectLow && pending[k].connectHigh {
        if k !in finalize {
          finalize := finalize + {k};
          return 2;
        }
        return 1;
      }
      return 0;
    }

    method ReleaseStartLockIfHolder(u: Id, r: Id)
      modifies this`startLock
      ensures startLock == if u in old(startLock) && old(startLock)[u] == r then old(startLock) - {u}
          else old(startLock)
    {
      if u in startLock && startLock[u] == r {
        startLock := startLock - {u};
      }
    }

    method ResumeLocks(s: Store, locks: map<Id, Id>)
      modifies this`userLock, this`pairLock, this`userState, this`pending, this`finalize, this`startLock
      ensures userLock == s.userLock && pairLock == s.pairLock && userState == s.userState
      ensures pending == s.pending && finalize == s.finalize && startLock == locks
    {
      userLock, pairLock, userState := s.userLock, s.pairLock, s.userState;
      pending, finalize, startLock := s.pending, s.finalize, locks;
    }

    /** Others have run, and have left this behind. */
    method Resume(s: Store, locks: map<Id, Id>)
      modifies this
      ensures View() == s && startLock == locks
    {
      ResumeLocks(s, locks);
      attempts, last, pool, queue, roomCalls := s.attempts, s.last, s.pool, s.queue, s.roomCalls;
    }

    method WriteHash(a: Id, x: Attempt)
      modifies this`attempts, this`last
      ensures View() == WriteAttempt(old(View()), a, x)
    {
      attempts := attempts[a := x];
      last := last[x.userId := a];
    }

    method EndAttempt(a: Id, u: Id, reason: string)
      modifies this`attempts, this`last
      ensures View() == MarkNoMatch(old(View()), a, u, reason)
    {
      WriteHash(a, Fields(View(), a, u).(status := Ended, reason := Some(reason)));
    }

    method Strip(u: Id)
      modifies this`pool
      ensures View() == StripFromPool(old(View()), u)
    {
      pool := pool - {u};
    }

    method Remove(u: Id)
      modifies this`pool, this`userState
      ensures View() == RemoveFromPool(old(View()), u)
    {
      Strip(u);
      userState := userState - {u};
    }
  }

  /** The handlers. `hasSnapshot`, scores and room answers come from outside and are parameters. */
  class MatchOrchestratorService {
    const redis: Redis

    constructor (redis: Redis)
      ensures this.redis == redis
    {
      this.redis := redis;
    }

    method CommitSearchingEnqueue(job: Job)
      modifies redis
      ensures redis.View() == CommitSearching(old(redis.View()), job) && redis.startLock == old(redis.startLock)
    {
      redis.WriteHash(job.requestId, Fields(redis.View(), job.requestId, job.userId).(status := Seeking));
      redis.pool := redis.pool + {job.userId};
      redis.userState := redis.userState[job.userId := Searching];
      redis.queue := redis.queue + [job];
    }

    /**
     * `polls` is how often the start lock can be tried before the deadline. Whenever the call waits,
     * others run: the `t`-th time they leave the store `world(t)` and the start locks `locks(t)`, among
     * which this call's own lock stays while it holds it.
     */
    method StartFindMatch(job: Job, hasSnapshot: bool, polls: nat, world: nat -> Store, locks: nat -> map<Id, Id>)
      returns (res: FindMatchResult)
      requires forall t :: job.userId in locks(t) ==> locks(t)[job.userId] != job.requestId
      modifies redis
      ensures !MayCommit(old(redis.View()), job, hasSnapshot) ==>
        (redis.View(), res) == MatchModel.StartFindMatch(old(redis.View()), job, hasSnapshot)
        && redis.startLock == old(redis.startLock)
      ensures MayCommit(old(redis.View()), job, hasSnapshot) ==>
        (exists t :: (redis.View(), res) == JoinOrCommit(world(t), job))
        && (job.userId in redis.startLock ==> redis.startLock[job.userId] != job.requestId)
    {
      var u, r := job.userId, job.requestId;
      if r in redis.attempts {
        return ToResult(redis.attempts[r], r);
      }
      if !hasSnapshot {
        redis.EndAttempt(r, u, "snapshot_not_found");
        return NotMatched("snapshot_not_found");
      }
      if u in redis.userState && redis.userState[u] == Locked {
        if u in redis.last && redis.last[u] in redis.attempts {
          var locked := redis.attempts[redis.last[u]];
          if locked.status == Proposed && locked.peer.Some? {
            return ToResult(locked, redis.last[u]);
          }
        }
        redis.EndAttempt(r, u, "user_unavailable");
        return NotMatched("user_unavailable");
      }
      if u in redis.userState && redis.userState[u] == InRoom {
        redis.EndAttempt(r, u, "user_unavailable");
        return NotMatched("user_unavailable");
      }
      var coalesced := Coalesce(redis.View(), u);
      if coalesced.Some? {
        return coalesced.value;
      }
      var t := 0;
      for left := polls downto 0
      {
        redis.Resume(world(t), locks(t));
        coalesced := Coalesce(redis.View(), u);
        if coalesced.Some? {
          return coalesced.value;
        }
        if u !in redis.startLock {
          redis.startLock := redis.startLock[u := r];
          t := t + 1;
          redis.Resume(world(t), locks(t)[u := r]);
          res := JoinOrCommitLocked(job);
          assert (redis.View(), res) == JoinOrCommit(world(t), job);
          return;
        }
        t := t + 1;
      }
      redis.Resume(world(t), locks(t));
      coalesced := Coalesce(redis.View(), u);
      if coalesced.Some? {
        return coalesced.value;
      }
      CommitSearchingEnqueue(job);
      return StillSearching(r);
    }

    /** Inside the start lock: look again, then begin; the lock is given back in any case. */
    method JoinOrCommitLocked(job: Job) returns (res: FindMatchResult)
      requires job.userId in redis.startLock && redis.startLock[job.userId] == job.requestId
      modifies redis
      ensures (redis.View(), res) == JoinOrCommit(old(redis.View()), job)
      ensures redis.startLock == old(redis.startLock) - {job.userId}
    {
      var again := Coalesce(redis.View(), job.userId);
      if again.Some? {
        res := again.value;
      } else {
        CommitSearchingEnqueue(job);
        res := StillSearching(job.requestId);
      }
      redis.ReleaseStartLockIfHolder(job.userId, job.requestId);
    }

    /** Locks candidates in order until one of them turns out to be a peer that is still searching. */
    method TryPairWithSortedCandidates(job: Job, sorted: seq<Candidate>, isFallback: bool)
        returns (res: Option<Candidate>)
      modifies redis
      ensures (redis.View(), res) == Scan(old(redis.View()), job, sorted, isFallback)
      ensures redis.startLock == old(redis.startLock)
    {
      ghost var s := redis.View();
      assert EvictStale(s, job, sorted[..0]) == s;
      for i := 0 to |sorted|
        invariant redis.View() == EvictStale(s, job, sorted[..i]) && redis.startLock == old(redis.startLock)
        invariant forall j :: 0 <= j < i ==> !Pairable(s, job, sorted[j].userId)
      {
        EvictNext(s, job, sorted, i);
        var paired := TryCandidate(job, sorted[i], isFallback);
        if paired {
          FirstPairableIs(s, job, sorted, i);
          return Some(sorted[i]);
        }
      }
      assert sorted[..|sorted|] == sorted;
      FirstPairableIs(s, job, sorted, |sorted|);
      return None;
    }

    /** The body of the pairing loop: lock, check the peer, then propose or undo the lock. */
    method TryCandidate(job: Job, candidate: Candidate, isFallback: bool) returns (paired: bool)
      modifies redis
      ensures var s, c := old(redis.View()), candidate.userId;
        && paired == Pairable(s, job, c)
        && redis.View() == if paired then Propose(s, job, candidate, isFallback)
                           else if Stale(s, job, c) then StripFromPool(s, c) else s
      ensures redis.startLock == old(redis.startLock)
    {
      ghost var s := redis.View();
      var c := candidate.userId;
      var locked := redis.TryLockPair(job.userId, c, job.requestId);
      if !locked {
        return false;
      }
      LockThenRelease(s, job.userId, c, job.requestId);
      if c !in redis.last || redis.last[c] == job.requestId {
        redis.ReleaseLocks(job.userId, c);
        if c !in redis.last {
          redis.Strip(c);
        }
        return false;
      }
      var peerAttemptId := redis.last[c];
      if peerAttemptId !in redis.attempts || redis.attempts[peerAttemptId].userId != c
        || redis.attempts[peerAttemptId].status != Seeking {
        redis.ReleaseLocks(job.userId, c);
        return false;
      }
      MakeProposal(s, job, candidate, isFallback);
      return true;
    }

    method MakeProposal(ghost before: Store, job: Job, c: Candidate, isFallback: bool)
      requires Pairable(before, job, c.userId)
      requires redis.View() == WithLock(before, job.userId, c.userId, job.requestId)
      modifies redis
      ensures redis.View() == Propose(before, job, c, isFallback) && redis.startLock == old(redis.startLock)
    {
      var k := PairOf(job.userId, c.userId);
      var peerAttemptId := redis.last[c.userId];
      redis.pending := redis.pending[k := NewPending(job, c, peerAttemptId, isFallback)];
      redis.WriteHash(job.requestId, Fields(redis.View(), job.requestId, job.userId).(
        status := Proposed, peer := Some(c.userId), matchScore := Some(c.matchScore), isFallback := isFallback));
      redis.WriteHash(peerAttemptId, Fields(redis.View(), peerAttemptId, c.userId).(
        status := Proposed, peer := Some(job.userId), matchScore := Some(c.matchScore), isFallback := isFallback));
    }

    /** Scored candidates into pairing order, then down the list. */
    method TryScan(job: Job, scan: ScanInput, isFallback: bool) returns (res: Option<Candidate>)
      modifies redis
      ensures (redis.View(), res) == Scan(old(redis.View()), job, Rank(scan.scored, scan.peers), isFallback)
      ensures redis.startLock == old(redis.startLock)
    {
      var scored := new Candidate[|scan.scored|](i requires 0 <= i < |scan.scored| => scan.scored[i]);
      assert scored[..] == scan.scored;
      var ordered := RankCandidatesForPairing(scored, scan.peers);
      res := TryPairWithSortedCandidates(job, ordered, isFallback);
    }

    method GiveUp(job: Job, reason: string)
      modifies redis
      ensures redis.View() == FinishJob(old(redis.View()), job, reason) && redis.startLock == old(redis.startLock)
    {
      redis.EndAttempt(job.requestId, job.userId, reason);
      redis.Remove(job.userId);
    }

    /** One job: checks, a pass per scan until one of them pairs, the fallback if no scan scored anyone. */
    method ProcessMatchRequest(job: Job, hasSnapshot: bool, retryBudget: nat, scans: seq<ScanInput>,
        fallback: ScanInput)
      returns (o: Outcome)
      requires |scans| == MAX_RETRIES + retryBudget + 1
      modifies redis
      ensures (redis.View(), o) == RunJob(old(redis.View()), job, hasSnapshot, scans, fallback)
      ensures o.passes <= MAX_RETRIES + retryBudget + 1
    {
      var u, r := job.userId, job.requestId;
      ghost var s := redis.View();
      JobLeavesNoLocks(s, job, hasSnapshot, scans, fallback);
      if r !in redis.attempts {
        return Outcome(NotMatched("attempt_not_found"), 0, false);
      }
      var existing := redis.attempts[r];
      if existing.status != Seeking {
        return Outcome(ToResult(existing, r), 0, false);
      }
      if !hasSnapshot {
        GiveUp(job, "snapshot_not_found");
        return Outcome(NotMatched("snapshot_not_found"), 0, false);
      }
      if u in redis.userState && redis.userState[u] == InRoom {
        GiveUp(job, "user_unavailable");
        return Outcome(NotMatched("user_unavailable"), 0, false);
      }
      if u in redis.userState && redis.userState[u] == Locked {
        return Outcome(ToResult(existing, r), 0, false);
      }
      var matched, n, foundEligibleCandidate, poolHadOtherSearchers := RunPasses(job, scans);
      if matched.Some? {
        return Outcome(Proposal(job, matched.value, false), n, false);
      }
      if !foundEligibleCandidate {
        var last := TryScan(job, fallback, true);
        if last.Some? {
          return Outcome(Proposal(job, last.value, true), n, true);
        }
      }
      var reason := if poolHadOtherSearchers then "no_compatible_candidate" else "pool_empty";
      GiveUp(job, reason);
      return Outcome(NotMatched(reason), n, !foundEligibleCandidate);
    }

    /** The retry loop. The two flags are about all scans only if none of them paired. */
    method RunPasses(job: Job, scans: seq<ScanInput>)
      returns (matched: Option<Candidate>, passes: nat, foundEligibleCandidate: bool, poolHadOtherSearchers: bool)
      modifies redis
      ensures (redis.View(), matched, passes) == Passes(old(redis.View()), job, scans)
      ensures matched.None? ==>
        foundEligibleCandidate == !NobodyScored(scans) && poolHadOtherSearchers == !PoolAlwaysEmpty(scans)
      ensures redis.startLock == old(redis.startLock)
    {
      foundEligibleCandidate, poolHadOtherSearchers := false, false;
      assert scans[0..] == scans;
      for n := 0 to |scans|
        invariant foundEligibleCandidate == !NobodyScored(scans[..n])
        invariant poolHadOtherSearchers == !PoolAlwaysEmpty(scans[..n])
        invariant Passes(old(redis.View()), job, scans) == AfterMore(Passes(redis.View(), job, scans[n..]), n)
        invariant redis.startLock == old(redis.startLock)
      {
        ghost var before := redis.View();
        if scans[n].poolSize > 0 {
          poolHadOtherSearchers := true;
        }
        if scans[n].scored != [] {
          foundEligibleCandidate := true;
        }
        matched := TryScan(job, scans[n], false);
        PassesNext(before, job, scans, n);
        if matched.Some? {
          return matched, n + 1, foundEligibleCandidate, poolHadOtherSearchers;
        }
        FlagsNext(scans, n);
      }
      assert scans[..|scans|] == scans && scans[|scans|..] == [];
      return None, |scans|, foundEligibleCandidate, poolHadOtherSearchers;
    }

    method TeardownProposal(p: Pending, reasonLow: string, reasonHigh: string)
      modifies redis
      ensures redis.View() == EndBoth(old(redis.View()), p, reasonLow, reasonHigh)
      ensures redis.startLock == old(redis.startLock)
    {
      redis.DeleteProposal(p.userLow, p.userHigh);
      redis.ReleaseLocks(p.userLow, p.userHigh);
      EndAttempts(p, reasonLow, reasonHigh);
    }

    method EndAttempts(p: Pending, reasonLow: string, reasonHigh: string)
      modifies redis
      ensures redis.View() ==
        MarkNoMatch(MarkNoMatch(old(redis.View()), p.attemptLow, p.userLow, reasonLow),
                    p.attemptHigh, p.userHigh, reasonHigh)
      ensures redis.startLock == old(redis.startLock)
    {
      redis.EndAttempt(p.attemptLow, p.userLow, reasonLow);
      redis.EndAttempt(p.attemptHigh, p.userHigh, reasonHigh);
    }

    method MarkPairInRoom(userA: Id, userB: Id)
      modifies redis
      ensures redis.View() == MatchModel.MarkPairInRoom(old(redis.View()), userA, userB)
      ensures redis.startLock == old(redis.startLock)
    {
      redis.Strip(userA);
      redis.Strip(userB);
      redis.userLock := redis.userLock - {userA};
      redis.userLock := redis.userLock - {userB};
      redis.pairLock := redis.pairLock - {PairOf(userA, userB)};
      redis.userState := redis.userState[userA := InRoom];
      redis.userState := redis.userState[userB := InRoom];
      assert redis.pool == old(redis.pool) - {userA, userB};
      assert redis.userLock == old(redis.userLock) - {userA, userB};
    }

    method FinishMatch(p: Pending, room: Id)
      modifies redis
      ensures redis.View() == EnterRoom(old(redis.View()), p, room) && redis.startLock == old(redis.startLock)
    {
      MarkPairInRoom(p.userLow, p.userHigh);
      redis.WriteHash(p.attemptLow, Fields(redis.View(), p.attemptLow, p.userLow).(
        status := Matched, peer := Some(p.userHigh), roomId := Some(room), matchScore := Some(p.matchScore)));
      redis.WriteHash(p.attemptHigh, Fields(redis.View(), p.attemptHigh, p.userHigh).(
        status := Matched, peer := Some(p.userLow), roomId := Some(room), matchScore := Some(p.matchScore)));
      redis.DeleteProposal(p.userLow, p.userHigh);
    }

    /** `room` is what the room service answers if this call is the one that asks it. */
    method RespondToMatchProposal(u: Id, a: Id, decision: Decision, room: Option<Id>) returns (res: RespondResult)
      modifies redis
      ensures (redis.View(), res) == Respond(old(redis.View()), u, a, decision, room)
    {
      if a !in redis.attempts || redis.attempts[a].userId != u {
        return InvalidAttempt;
      }
      if redis.attempts[a].status != Proposed || redis.attempts[a].peer.None? {
        return NotInProposal;
      }
      var k := PairOf(u, redis.attempts[a].peer.value);
      if k !in redis.pending {
        return ProposalExpired;
      }
      var p := redis.pending[k];
      if decision == Skip {
        var reasonLow := if u == p.userLow then "you_skipped" else "peer_skipped";
        var reasonHigh := if u == p.userHigh then "you_skipped" else "peer_skipped";
        TeardownProposal(p, reasonLow, reasonHigh);
        return Ok;
      }
      var rc := redis.RecordProposalConnect(k, u);
      if rc == 0 || rc == 1 {
        return Ok;
      }
      redis.roomCalls := redis.roomCalls + [p.roomAttemptId];
      if room.None? {
        TeardownProposal(p, "room_create_failed", "room_create_failed");
        return RoomCreateFailed;
      }
      FinishMatch(p, room.value);
      return Ok;
    }

    method CancelMatch(u: Id)
      modifies redis
      ensures redis.View() == MatchModel.CancelMatch(old(redis.View()), u)
    {
      redis.Remove(u);
      if u in redis.last {
        var r := redis.last[u];
        if r in redis.attempts && redis.attempts[r].status == Proposed && redis.attempts[r].peer.Some? {
          var k := PairOf(u, redis.attempts[r].peer.value);
          if k in redis.pending {
            var p := redis.pending[k];
            var reasonLow := if u == p.userLow then "cancelled_by_user" else "proposal_peer_cancelled";
            var reasonHigh := if u == p.userHigh then "cancelled_by_user" else "proposal_peer_cancelled";
            TeardownProposal(p, reasonLow, reasonHigh);
            return;
          }
        }
        redis.EndAttempt(r, u, "cancelled_by_user");
      }
    }

    method LeaveRoom(u: Id)
      modifies redis
      ensures redis.View() == MatchModel.LeaveRoom(old(redis.View()), u)
    {
      if u in redis.last && redis.last[u] in redis.attempts && redis.attempts[redis.last[u]].status == Matched {
        redis.EndAttempt(redis.last[u], u, "left_room");
      }
      redis.Strip(u);
      redis.userLock := redis.userLock - {u};
      redis.userState := redis.userState - {u};
    }
  }

  // ---------- lemmas used by the pairing loop ----------

  /** It does not matter which of two users is written or removed first. */
  lemma BothWritten<V>(m: map<Id, V>, a: Id, b: Id, v: V)
    ensures m[PairOf(a, b).low := v][PairOf(a, b).high := v] == m[a := v][b := v]
  {
  }

  lemma BothRemoved<V>(m: map<Id, V>, a: Id, b: Id)
    ensures m - {PairOf(a, b).low} - {PairOf(a, b).high} == m - {a, b}
  {
  }

  /** Locking a pair and releasing it again leaves no trace. */
  lemma LockThenRelease(s: Store, a: Id, b: Id, r: Id)
    requires CanLock(s, a, b)
    ensures ReleasePair(WithLock(s, a, b, r), a, b) == s
  {
    var s' := ReleasePair(WithLock(s, a, b, r), a, b);
    assert s'.userLock == s.userLock && s'.pairLock == s.pairLock && s'.userState == s.userState;
  }

  lemma EvictNext(s: Store, job: Job, cands: seq<Candidate>, i: nat)
    requires i < |cands|
    ensures EvictStale(s, job, cands[..i + 1])
         == if Stale(s, job, cands[i].userId) then StripFromPool(EvictStale(s, job, cands[..i]), cands[i].userId)
            else EvictStale(s, job, cands[..i])
    ensures CanLock(EvictStale(s, job, cands[..i]), job.userId, cands[i].userId)
        == CanLock(s, job.userId, cands[i].userId)
  {
    assert cands[..i + 1] == cands[..i] + [cands[i]];
  }

  lemma {:induction false} FirstPairableIs(s: Store, job: Job, cands: seq<Candidate>, i: nat)
    requires i <= |cands| && forall j :: 0 <= j < i ==> !Pairable(s, job, cands[j].userId)
    requires i < |cands| ==> Pairable(s, job, cands[i].userId)
    ensures FirstPairable(s, job, cands) == i
  {
    var f := FirstPairable(s, job, cands);
    assert !(f < i) && !(i < f);
  }

  lemma FlagsNext(scans: seq<ScanInput>, n: nat)
    requires n < |scans|
    ensures NobodyScored(scans[..n + 1]) == (NobodyScored(scans[..n]) && scans[n].scored == [])
    ensures PoolAlwaysEmpty(scans[..n + 1]) == (PoolAlwaysEmpty(scans[..n]) && scans[n].poolSize == 0)
  {
    assert scans[..n + 1] == scans[..n] + [scans[n]];
  }

  /** The outcome of passes, counted from the first pass of the job. */
  function AfterMore(outcome: (Store, Option<Candidate>, nat), n: nat): (Store, Option<Candidate>, nat) {
    (outcome.0, outcome.1, outcome.2 + n)
  }

  lemma PassesNext(s: Store, job: Job, scans: seq<ScanInput>, n: nat)
    requires n < |scans|
    ensures var (s1, paired) := Scan(s, job, Rank(scans[n].scored, scans[n].peers), false);
      AfterMore(Passes(s, job, scans[n..]), n)
        == if paired.Some? then (s1, paired, n + 1) else AfterMore(Passes(s1, job, scans[n + 1..]), n + 1)
  {
    assert scans[n..][0] == scans[n] && scans[n..][1..] == scans[n + 1..];
  }
}
