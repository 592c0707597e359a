/** At most one attempt of a user is searching or proposed: which steps of the protocol keep that. */
module MatchActive {
  import opened RedisKeys
  import opened Ranking
  import opened MatchModel
  import opened Types
  import opened MatchInvariants

  // ---------- the property ----------

  /** Searching or in a proposal: what a start call joins, if it is the user's last attempt. */
  predicate IsActive(x: Attempt) {
    x.status == Seeking || (x.status == Proposed && x.peer.Some?)
  }

  /** The attempt `a` is its owner's last one, if it is active. */
  predicate Leads(x: Attempt, a: Id, last: map<Id, Id>) {
    IsActive(x) ==> x.userId in last && last[x.userId] == a
  }

  ghost predicate AllLead(attempts: Attempts, last: map<Id, Id>) {
    forall a {:trigger Leads(attempts[a], a, last)} :: a in attempts ==> Leads(attempts[a], a, last)
  }

  /** Every active attempt is the last one of its user. */
  ghost predicate OneActive(m: System) {
    AllLead(m.store.attempts, m.store.last)
  }

  lemma OnlyTheLastIsActive(m: System, a: Id, b: Id)
    requires OneActive(m) && a in m.store.attempts && b in m.store.attempts
    requires IsActive(m.store.attempts[a]) && IsActive(m.store.attempts[b])
    requires m.store.attempts[a].userId == m.store.attempts[b].userId
    ensures a == b && m.store.attempts[a].userId in m.store.last && m.store.last[m.store.attempts[a].userId] == a
  {
    assert Leads(m.store.attempts[a], a, m.store.last) && Leads(m.store.attempts[b], b, m.store.last);
  }

  // ---------- the guard ----------

  /** The user's last attempt is active and not `a`: writing to `a` would hide it. */
  predicate Hides(attempts: Attempts, last: map<Id, Id>, u: Id, a: Id) {
    u in last && last[u] != a && last[u] in attempts && IsActive(attempts[last[u]])
  }

  /** The job is no longer its user's last attempt, and that one is active. */
  predicate IsOutdated(s: Store, job: Job) {
    Hides(s.attempts, s.last, job.userId, job.requestId)
  }

  /** The start is turned away: no snapshot, in a room, or locked without being in a proposal. */
  predicate IsRefused(s: Store, job: Job, hasSnapshot: bool) {
    && job.requestId !in s.attempts
    && (!hasSnapshot
        || InState(s, job.userId, InRoom) || (InState(s, job.userId, Locked) && !InProposal(s, job.userId)))
  }

  predicate InProposal(s: Store, u: Id) {
    && u in s.last && s.last[u] in s.attempts
    && s.attempts[s.last[u]].status == Proposed && s.attempts[s.last[u]].peer.Some?
  }

  /**
   * What breaks it: a start turned away while the user has an active attempt, and a job that proposes or
   * gives up although the user has cancelled it and is active under another attempt.
   */
  predicate KeepsOneActive(m: System, e: Event) {
    var s := m.store;
    match e
    case Start(job, hasSnapshot) => !(IsRefused(s, job, hasSnapshot) && IsOutdated(s, job))
    case Pass(cands, _) =>
      m.working.Some? && IsOutdated(s, m.working.value) ==> FirstPairable(s, m.working.value, cands) == |cands|
    case Finish(_) => m.working.Some? ==> !IsOutdated(s, m.working.value)
    case _ => true
  }

  // ---------- what every step keeps ----------

  /** Kept by every step whatsoever: owners, records, and that the job in progress is not proposed. */
  ghost predicate Core(m: System) {
    var s := m.store;
    && Owned(s.attempts, s.last, s.queue, m.working)
    && RecordsSound(s.attempts, s.pending)
    && (m.working.Some? ==> s.attempts[m.working.value.requestId].status != Proposed)
  }

  ghost predicate SameOwners(attempts: Attempts, attempts': Attempts) {
    forall a, u :: Belongs(attempts, a, u) ==> Belongs(attempts', a, u)
  }

  /** No record names the attempt. */
  predicate IsUnrecorded(x: Attempt, pending: map<Pair, Pending>) {
    x.status == Proposed && x.peer.Some? ==> PairOf(x.userId, x.peer.value) !in pending
  }

  lemma UnrecordedWriteKeepsRecords(attempts: Attempts, pending: map<Pair, Pending>, a: Id, x: Attempt)
    requires RecordsSound(attempts, pending) && (a in attempts ==> IsUnrecorded(attempts[a], pending))
    ensures RecordsSound(attempts[a := x], pending)
  {
    forall k | k in pending
      ensures Sound(attempts[a := x], k, pending[k])
    {
      assert Sound(attempts, k, pending[k]);
      PairOfSymmetric(k.low, k.high);
    }
  }

  /** `s'` is `s` after attempt `a` of user `u` has been written, and maybe queued. */
  predicate Writes(s: Store, s': Store, a: Id, u: Id) {
    && a in s'.attempts && s'.attempts == s.attempts[a := s'.attempts[a]] && s'.attempts[a].userId == u
    && s'.last == s.last[u := a] && s'.pending == s.pending
    && (s'.queue == s.queue || s'.queue == s.queue + [Job(u, a)])
  }

  lemma WriteKeepsCore(m: System, s': Store, a: Id, u: Id)
    requires Core(m) && Writes(m.store, s', a, u) && s'.attempts[a].status != Proposed
    requires a in m.store.attempts ==>
      m.store.attempts[a].userId == u && IsUnrecorded(m.store.attempts[a], m.store.pending)
    ensures Core(m.(store := s')) && SameOwners(m.store.attempts, s'.attempts)
  {
    var s := m.store;
    OwnedAfterWrite(s.attempts, s.last, s.queue, m.working, a, s'.attempts[a]);
    UnrecordedWriteKeepsRecords(s.attempts, s.pending, a, s'.attempts[a]);
  }

  /** Writing to an attempt makes it the last one, and so hides another active one, if there is any. */
  lemma WriteLeadsIff(attempts: Attempts, last: map<Id, Id>, a: Id, x: Attempt)
    requires AllLead(attempts, last) && (a in attempts ==> attempts[a].userId == x.userId)
    requires x.userId in last ==> Belongs(attempts, last[x.userId], x.userId)
    ensures AllLead(attempts[a := x], last[x.userId := a]) <==> !Hides(attempts, last, x.userId, a)
  {
    var attempts', last' := attempts[a := x], last[x.userId := a];
    if Hides(attempts, last, x.userId, a) {
      assert !Leads(attempts'[last[x.userId]], last[x.userId], last');
    } else {
      forall b | b in attempts'
        ensures Leads(attempts'[b], b, last')
      {
        assert b != a ==> Leads(attempts[b], b, last);
      }
    }
  }

  /** The same for one attempt of each of two users. */
  lemma BothLeadIff(attempts: Attempts, last: map<Id, Id>, a: Id, x: Attempt, b: Id, y: Attempt)
    requires AllLead(attempts, last) && x.userId != y.userId && a != b
    requires (a in attempts ==> attempts[a].userId == x.userId) && (b in attempts ==> attempts[b].userId == y.userId)
    requires x.userId in last ==> Belongs(attempts, last[x.userId], x.userId)
    requires y.userId in last ==> Belongs(attempts, last[y.userId], y.userId)
    ensures AllLead(attempts[a := x][b := y], last[x.userId := a][y.userId := b])
        <==> !Hides(attempts, last, x.userId, a) && !Hides(attempts, last, y.userId, b)
  {
    var attempts', last' := attempts[a := x], last[x.userId := a];
    WriteLeadsIff(attempts, last, a, x);
    assert Hides(attempts', last', y.userId, b) <==> Hides(attempts, last, y.userId, b);
    if Hides(attempts, last, x.userId, a) {
      var c := last[x.userId];
      assert !Leads(attempts'[b := y][c], c, last'[y.userId := b]);
    } else {
      WriteLeadsIff(attempts', last', b, y);
    }
  }

  lemma WriteKeepsOneActiveIff(m: System, m': System, a: Id, u: Id)
    requires Core(m) && OneActive(m) && Writes(m.store, m'.store, a, u)
    requires a in m.store.attempts ==> m.store.attempts[a].userId == u
    ensures OneActive(m') <==> !IsOutdated(m.store, Job(u, a))
  {
    WriteLeadsIff(m.store.attempts, m.store.last, a, m'.store.attempts[a]);
  }

  // ---------- starts and jobs ----------

  lemma StartOutcome(s: Store, job: Job, hasSnapshot: bool)
    ensures var s' := StartFindMatch(s, job, hasSnapshot).0;
      && (s' != s ==> job.requestId !in s.attempts && Writes(s, s', job.requestId, job.userId)
                      && s'.attempts[job.requestId].status != Proposed)
      && (IsRefused(s, job, hasSnapshot) ==> s' != s)
      && (s' != s && !IsRefused(s, job, hasSnapshot) ==> !IsOutdated(s, job))
  {
    if job.requestId !in s.attempts {
      CommitIsWrite(s, job);
      NoMatchIsWrite(s, job, "snapshot_not_found");
      NoMatchIsWrite(s, job, "user_unavailable");
    }
  }

  lemma CommitIsWrite(s: Store, job: Job)
    requires job.requestId !in s.attempts
    ensures Writes(s, CommitSearching(s, job), job.requestId, job.userId)
  {
  }

  lemma NoMatchIsWrite(s: Store, job: Job, reason: string)
    ensures Writes(s, MarkNoMatch(s, job.requestId, job.userId, reason), job.requestId, job.userId)
    ensures MarkNoMatch(s, job.requestId, job.userId, reason).attempts[job.requestId].status == Ended
  {
  }

  lemma StartStep(m: System, job: Job, hasSnapshot: bool)
    requires Core(m)
    ensures Core(Step(m, Start(job, hasSnapshot)))
    ensures SameOwners(m.store.attempts, Step(m, Start(job, hasSnapshot)).store.attempts)
    ensures OneActive(m) ==>
      (OneActive(Step(m, Start(job, hasSnapshot))) <==> KeepsOneActive(m, Start(job, hasSnapshot)))
  {
    var m' := Step(m, Start(job, hasSnapshot));
    StartOutcome(m.store, job, hasSnapshot);
    if m'.store != m.store {
      WriteKeepsCore(m, m'.store, job.requestId, job.userId);
      if OneActive(m) {
        WriteKeepsOneActiveIff(m, m', job.requestId, job.userId);
      }
    }
  }

  lemma FinishStep(m: System, job: Job, reason: string)
    requires Core(m) && Belongs(m.store.attempts, job.requestId, job.userId)
    requires m.store.attempts[job.requestId].status != Proposed
    ensures var m' := m.(store := FinishJob(m.store, job, reason));
      && Core(m') && SameOwners(m.store.attempts, m'.store.attempts)
      && (OneActive(m) ==> (OneActive(m') <==> !IsOutdated(m.store, job)))
  {
    var s' := FinishJob(m.store, job, reason);
    NoMatchIsWrite(m.store, job, reason);
    assert Writes(m.store, s', job.requestId, job.userId);
    WriteKeepsCore(m, s', job.requestId, job.userId);
    if OneActive(m) {
      WriteKeepsOneActiveIff(m, m.(store := s'), job.requestId, job.userId);
    }
  }

  lemma DequeueKeepsCore(m: System)
    requires Core(m) && m.working.None? && m.store.queue != []
    ensures Core(m.(store := m.store.(queue := m.store.queue[1..])))
    ensures Belongs(m.store.attempts, m.store.queue[0].requestId, m.store.queue[0].userId)
  {
    assert m.store.queue[0] in m.store.queue;
    assert forall j :: j in m.store.queue[1..] ==> j in m.store.queue;
  }

  lemma BeginStep(m: System, hasSnapshot: bool)
    requires Core(m)
    ensures Core(Step(m, Begin(hasSnapshot)))
    ensures SameOwners(m.store.attempts, Step(m, Begin(hasSnapshot)).store.attempts)
    ensures OneActive(m) ==> OneActive(Step(m, Begin(hasSnapshot)))
  {
    if m.working.None? && m.store.queue != [] {
      DequeueKeepsCore(m);
      JobStep(m.(store := m.store.(queue := m.store.queue[1..])), m.store.queue[0], hasSnapshot);
    }
  }

  lemma JobStep(m: System, job: Job, hasSnapshot: bool)
    requires Core(m) && m.working.None? && Belongs(m.store.attempts, job.requestId, job.userId)
    ensures var (s', proceed) := BeginJob(m.store, job, hasSnapshot);
      var m' := System(s', if proceed then Some(job) else None);
      && Core(m') && SameOwners(m.store.attempts, m'.store.attempts)
      && (OneActive(m) ==> OneActive(m'))
  {
    var s := m.store;
    if s.attempts[job.requestId].status == Seeking {
      assert OneActive(m) ==> Leads(s.attempts[job.requestId], job.requestId, s.last);
      FinishStep(m, job, "snapshot_not_found");
      FinishStep(m, job, "user_unavailable");
    }
  }

  lemma PassStep(m: System, cands: seq<Candidate>, isFallback: bool)
    requires Core(m)
    ensures Core(Step(m, Pass(cands, isFallback)))
    ensures SameOwners(m.store.attempts, Step(m, Pass(cands, isFallback)).store.attempts)
    ensures OneActive(m) ==>
      (OneActive(Step(m, Pass(cands, isFallback))) <==> KeepsOneActive(m, Pass(cands, isFallback)))
  {
    if m.working.Some? {
      var s, job := m.store, m.working.value;
      var i := FirstPairable(s, job, cands);
      if i < |cands| {
        var m1 := m.(store := EvictStale(s, job, cands[..i]));
        ProposeStep(m1, cands[i], isFallback);
      }
    }
  }

  lemma ProposeStep(m: System, c: Candidate, isFallback: bool)
    requires Core(m) && m.working.Some? && Pairable(m.store, m.working.value, c.userId)
    ensures var m' := System(Propose(m.store, m.working.value, c, isFallback), None);
      && Core(m') && SameOwners(m.store.attempts, m'.store.attempts)
      && (OneActive(m) ==> (OneActive(m') <==> !IsOutdated(m.store, m.working.value)))
  {
    var s, job := m.store, m.working.value;
    var r, q, k := job.requestId, s.last[c.userId], PairOf(job.userId, c.userId);
    var s' := Propose(s, job, c, isFallback);
    var x, y := s'.attempts[r], s'.attempts[q];
    ProposeIsSound(s, job, c, isFallback);
    ProposeChanges(s, job, c, isFallback);
    assert x.userId == job.userId && y.userId == c.userId by {
      assert Sound(s'.attempts, k, s'.pending[k]);
    }
    OwnedAfterWrite(s.attempts, s.last, s.queue, None, r, x);
    OwnedAfterWrite(s.attempts[r := x], s.last[job.userId := r], s.queue, None, q, y);
    UnrecordedWriteKeepsRecords(s.attempts, s.pending, r, x);
    UnrecordedWriteKeepsRecords(s.attempts[r := x], s.pending, q, y);
    forall h | h in s'.pending
      ensures Sound(s'.attempts, h, s'.pending[h])
    {
      assert h != k ==> Sound(s'.attempts, h, s.pending[h]);
    }
    if OneActive(m) {
      BothLeadIff(s.attempts, s.last, r, x, q, y);
    }
  }

  // ---------- proposals end ----------

  lemma CloseStep(m: System, s': Store, k: Pair)
    requires Core(m) && k in m.store.pending && Closes(m.store, s', k, m.store.pending[k])
    ensures Core(m.(store := s')) && SameOwners(m.store.attempts, s'.attempts)
    ensures OneActive(m) ==> OneActive(m.(store := s'))
  {
    var s, p := m.store, m.store.pending[k];
    var x, y := s'.attempts[p.attemptLow], s'.attempts[p.attemptHigh];
    assert Sound(s.attempts, k, p);
    OwnedAfterWrite(s.attempts, s.last, s.queue, m.working, p.attemptLow, x);
    OwnedAfterWrite(s.attempts[p.attemptLow := x], s.last[k.low := p.attemptLow], s.queue, m.working, p.attemptHigh, y);
    CloseKeepsRecords(s.attempts, s.pending, k, x, y);
    if OneActive(m) {
      assert Leads(s.attempts[p.attemptLow], p.attemptLow, s.last);
      assert Leads(s.attempts[p.attemptHigh], p.attemptHigh, s.last);
      BothLeadIff(s.attempts, s.last, p.attemptLow, x, p.attemptHigh, y);
    }
  }

  lemma RespondStep(m: System, u: Id, a: Id, decision: Decision, room: Option<Id>)
    requires Core(m)
    ensures var m' := Step(m, RespondTo(u, a, decision, room));
      Core(m') && SameOwners(m.store.attempts, m'.store.attempts) && (OneActive(m) ==> OneActive(m'))
  {
    var s := m.store;
    if Belongs(s.attempts, a, u) && s.attempts[a].status == Proposed && s.attempts[a].peer.Some? {
      var k := PairOf(u, s.attempts[a].peer.value);
      if k in s.pending {
        assert Sound(s.attempts, k, s.pending[k]);
        if decision == Skip {
          SkipCloses(s, k, u, a, room);
          CloseStep(m, Respond(s, u, a, Skip, room).0, k);
        } else if RecordConnect(s, k, u).1 == 2 {
          ConnectCloses(s, k, u, a, room);
          CloseStep(m, Respond(s, u, a, Connect, room).0, k);
        } else {
          ConnectIs(s, k, u, a, room);
          FlagTouches(s, k, u);
          FlagKeepsRecords(s.attempts, s.pending, k, u == k.low);
        }
      }
    }
  }

  lemma CancelStep(m: System, u: Id)
    requires Core(m)
    ensures var m' := Step(m, Cancel(u));
      Core(m') && SameOwners(m.store.attempts, m'.store.attempts) && (OneActive(m) ==> OneActive(m'))
  {
    var s := m.store;
    if u in s.last {
      var a := s.last[u];
      assert Belongs(s.attempts, a, u);
      if s.attempts[a].status == Proposed && s.attempts[a].peer.Some?
        && PairOf(u, s.attempts[a].peer.value) in s.pending {
        var k := PairOf(u, s.attempts[a].peer.value);
        assert Sound(s.attempts, k, s.pending[k]);
        CancelCloses(s, k, u);
        CloseStep(m, CancelMatch(s, u), k);
      } else {
        var s' := CancelMatch(s, u);
        NoMatchIsWrite(RemoveFromPool(s, u), Job(u, a), "cancelled_by_user");
        assert Writes(s, s', a, u);
        WriteKeepsCore(m, s', a, u);
        if OneActive(m) {
          WriteKeepsOneActiveIff(m, m.(store := s'), a, u);
        }
      }
    }
  }

  lemma LeaveStep(m: System, u: Id)
    requires Core(m)
    ensures var m' := Step(m, Leave(u));
      Core(m') && SameOwners(m.store.attempts, m'.store.attempts) && (OneActive(m) ==> OneActive(m'))
  {
    var s := m.store;
    if u in s.last && s.attempts[s.last[u]].status == Matched {
      var s', a := LeaveRoom(s, u), s.last[u];
      NoMatchIsWrite(s, Job(u, a), "left_room");
      assert Writes(s, s', a, u);
      WriteKeepsCore(m, s', a, u);
      if OneActive(m) {
        WriteKeepsOneActiveIff(m, m.(store := s'), a, u);
      }
    }
  }

  lemma RecordExpiryKeepsCore(m: System, k: Pair)
    requires Core(m)
    ensures Core(Step(m, PendingExpires(k)))
  {
    var s := m.store;
    forall h | h in s.pending - {k}
      ensures Sound(s.attempts, h, (s.pending - {k})[h])
    {
      assert Sound(s.attempts, h, s.pending[h]);
    }
  }

  /** Owners, records and the state of the job in progress survive every step; no attempt changes hands. */
  lemma StepKeepsCore(m: System, e: Event)
    requires Core(m)
    ensures Core(Step(m, e)) && SameOwners(m.store.attempts, Step(m, e).store.attempts)
  {
    match e
    case Start(job, hasSnapshot) => StartStep(m, job, hasSnapshot);
    case Begin(hasSnapshot) => BeginStep(m, hasSnapshot);
    case Pass(cands, isFallback) => PassStep(m, cands, isFallback);
    case Finish(reason) =>
      if m.working.Some? {
        FinishStep(m, m.working.value, reason);
      }
    case RespondTo(u, a, decision, room) => RespondStep(m, u, a, decision, room);
    case Cancel(u) => CancelStep(m, u);
    case Leave(u) => LeaveStep(m, u);
    case RoomStateExpires(u) =>
    case LocksExpire(k) =>
    case PendingExpires(k) => RecordExpiryKeepsCore(m, k);
  }

  /** Every step, expiry included, keeps one active attempt per user exactly when its guard allows it. */
  lemma StepKeepsOneActiveIff(m: System, e: Event)
    requires Core(m) && OneActive(m)
    ensures OneActive(Step(m, e)) <==> KeepsOneActive(m, e)
  {
    match e
    case Start(job, hasSnapshot) => StartStep(m, job, hasSnapshot);
    case Begin(hasSnapshot) => BeginStep(m, hasSnapshot);
    case Pass(cands, isFallback) => PassStep(m, cands, isFallback);
    case Finish(reason) =>
      if m.working.Some? {
        FinishStep(m, m.working.value, reason);
      }
    case RespondTo(u, a, decision, room) => RespondStep(m, u, a, decision, room);
    case Cancel(u) => CancelStep(m, u);
    case Leave(u) => LeaveStep(m, u);
    case _ =>
  }

  // ---------- runs ----------

  predicate RunKeepsOneActive(m: System, es: seq<Event>)
    decreases |es|
  {
    es == [] || (KeepsOneActive(m, es[0]) && RunKeepsOneActive(Step(m, es[0]), es[1..]))
  }

  /** At every point of the run each active attempt is the last one of its user. */
  ghost predicate AlwaysOneActive(m: System, es: seq<Event>)
    decreases |es|
  {
    OneActive(m) && (es == [] || AlwaysOneActive(Step(m, es[0]), es[1..]))
  }

  lemma {:induction false} RunsHaveOneActiveIff(m: System, es: seq<Event>)
    requires Core(m) && OneActive(m)
    ensures AlwaysOneActive(m, es) <==> RunKeepsOneActive(m, es)
    ensures RunKeepsOneActive(m, es) ==> OneActive(Run(m, es))
    decreases |es|
  {
    if es != [] {
      StepKeepsCore(m, es[0]);
      StepKeepsOneActiveIff(m, es[0]);
      if KeepsOneActive(m, es[0]) {
        RunsHaveOneActiveIff(Step(m, es[0]), es[1..]);
      }
    }
  }

  lemma {:induction false} RunsKeepCore(m: System, es: seq<Event>)
    requires Core(m)
    ensures Core(Run(m, es)) && SameOwners(m.store.attempts, Run(m, es).store.attempts)
    decreases |es|
  {
    if es != [] {
      StepKeepsCore(m, es[0]);
      RunsKeepCore(Step(m, es[0]), es[1..]);
    }
  }

  /** From the empty store, after any run that respects the guards: of a user's attempts only the last can be active. */
  lemma UsersHaveOneActive(es: seq<Event>, a: Id, b: Id)
    requires RunKeepsOneActive(INITIAL, es)
    ensures var s := Run(INITIAL, es).store;
      a in s.attempts && b in s.attempts && IsActive(s.attempts[a]) && IsActive(s.attempts[b])
      && s.attempts[a].userId == s.attempts[b].userId ==>
        a == b && s.attempts[a].userId in s.last && s.last[s.attempts[a].userId] == a
  {
    var m := Run(INITIAL, es);
    RunsHaveOneActiveIff(INITIAL, es);
    if a in m.store.attempts && b in m.store.attempts && IsActive(m.store.attempts[a]) && IsActive(m.store.attempts[b])
      && m.store.attempts[a].userId == m.store.attempts[b].userId {
      OnlyTheLastIsActive(m, a, b);
    }
  }

  /** Once an active attempt is hidden the next start that is let through makes it two. */
  lemma HiddenAttemptIsDoubled(m: System, a: Id, job: Job)
    requires Belongs(m.store.attempts, a, job.userId) && IsActive(m.store.attempts[a])
    requires MayCommit(m.store, job, true)
    ensures var s' := Step(m, Start(job, true)).store;
      && a != job.requestId && Belongs(s'.attempts, a, job.userId) && Belongs(s'.attempts, job.requestId, job.userId)
      && IsActive(s'.attempts[a]) && IsActive(s'.attempts[job.requestId])
  {
  }

  // ---------- a room answer that arrives late ----------

  /** The answer of the room service ends or matches the attempts of its proposal, and so may hide later ones. */
  lemma LandKeepsOneActiveIff(m: System, k: Pair, p: Pending, room: Option<Id>)
    requires Core(m) && OneActive(m) && IsAbout(p, k)
    requires Belongs(m.store.attempts, p.attemptLow, k.low) && Belongs(m.store.attempts, p.attemptHigh, k.high)
    ensures OneActive(m.(store := Land(m.store, p, room)))
        <==> !IsOutdated(m.store, Job(k.low, p.attemptLow)) && !IsOutdated(m.store, Job(k.high, p.attemptHigh))
  {
    var s, s' := m.store, Land(m.store, p, room);
    LandCloses(s, k, p, room);
    BothLeadIff(s.attempts, s.last, p.attemptLow, s'.attempts[p.attemptLow], p.attemptHigh, s'.attempts[p.attemptHigh]);
  }
}
