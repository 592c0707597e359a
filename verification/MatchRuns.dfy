/**
 * Runs that show the guards of the matching protocol to be needed, each from the empty store: leaving during
 * a proposal, two proposals at once for want of a snapshot, two searches and a search during a proposal after
 * cancelling one's own job, a proposal that expires, and a skip that a room on its way undoes.
 */
module MatchRuns {
  import opened RedisKeys
  import opened Ranking
  import opened MatchModel
  import opened Types
  import opened MatchInvariants
  import MatchSymmetry
  import MatchActive
  import MatchExclusivity
  import MatchProgress
  import MatchRoom

  function NewAttempt(u: Id): Attempt {
    Attempt(u, Seeking, None, None, None, false, None)
  }

  /** Two users start a search, and the worker proposes the first to the second. */
  function Opening(a: Id, b: Candidate, ra: Id, rb: Id): seq<Event> {
    [Start(Job(a, ra), true), Start(Job(b.userId, rb), true)] + [Begin(true), Pass([b], false)] + [Begin(true)]
  }

  /** The store once both have started. */
  function BothSearching(a: Id, b: Id, ra: Id, rb: Id): Store {
    EMPTY.(userState := map[a := Searching, b := Searching],
           attempts := map[ra := NewAttempt(a), rb := NewAttempt(b)],
           last := map[a := ra, b := rb], pool := {a, b},
           queue := [Job(a, ra), Job(b, rb)])
  }

  lemma BothStart(a: Id, b: Id, ra: Id, rb: Id)
    requires a != b && ra != rb
    ensures Run(INITIAL, [Start(Job(a, ra), true), Start(Job(b, rb), true)])
        == System(BothSearching(a, b, ra, rb), None)
  {
    RunTwo(INITIAL, Start(Job(a, ra), true), Start(Job(b, rb), true));
    var s := StartFindMatch(EMPTY, Job(a, ra), true).0;
    assert s == EMPTY.(userState := map[a := Searching], attempts := map[ra := NewAttempt(a)],
                       last := map[a := ra], pool := {a}, queue := [Job(a, ra)]);
    assert s.queue + [Job(b, rb)] == [Job(a, ra), Job(b, rb)];
  }

  /** A proposal is open between the two, and the worker has nothing left to do. */
  predicate IsOpen(m: System, a: Id, b: Id, ra: Id, rb: Id) {
    m.working.None? && m.store.queue == [] && IsLocked(m.store, a, b) && IsAwaited(m.store, a, b, ra, rb)
  }

  predicate IsLocked(s: Store, a: Id, b: Id) {
    && s.pairLock.Keys == {PairOf(a, b)} && s.userLock.Keys == {a, b}
    && s.userState == map[a := Locked, b := Locked]
  }

  predicate IsAwaited(s: Store, a: Id, b: Id, ra: Id, rb: Id) {
    var k := PairOf(a, b);
    && s.pending.Keys == {k} && !s.pending[k].connectLow && !s.pending[k].connectHigh
    && s.attempts.Keys == {ra, rb} && s.last.Keys == {a, b}
    && IsProposed(s.attempts, ra, a, b) && IsProposed(s.attempts, rb, b, a)
  }

  lemma OpeningProposes(a: Id, b: Candidate, ra: Id, rb: Id)
    requires a != b.userId && ra != rb
    ensures IsOpen(Run(INITIAL, Opening(a, b, ra, rb)), a, b.userId, ra, rb)
  {
    var starts := [Start(Job(a, ra), true), Start(Job(b.userId, rb), true)];
    var s, job := BothSearching(a, b.userId, ra, rb), Job(a, ra);
    BothStart(a, b.userId, ra, rb);
    RunConcat(INITIAL, starts + [Begin(true), Pass([b], false)], [Begin(true)]);
    RunConcat(INITIAL, starts, [Begin(true), Pass([b], false)]);
    var s1 := s.(queue := [Job(b.userId, rb)]);
    assert s.queue[1..] == s1.queue;
    JobPairs(s, s1, job, b);
    RunOne(System(Propose(s1, job, b, false), None), Begin(true));
    OpeningEnds(a, b, ra, rb, s1);
    LastJobYields(Propose(s1, job, b, false), Job(b.userId, rb));
  }

  lemma OpeningEnds(a: Id, b: Candidate, ra: Id, rb: Id, s: Store)
    requires a != b.userId && ra != rb
    requires s == BothSearching(a, b.userId, ra, rb).(queue := [Job(b.userId, rb)])
    ensures Pairable(s, Job(a, ra), b.userId)
    ensures var s' := Propose(s, Job(a, ra), b, false);
      && IsLocked(s', a, b.userId) && IsAwaited(s', a, b.userId, ra, rb)
      && s'.queue == [Job(b.userId, rb)] && s'.attempts[rb].status == Proposed
  {
    OpeningLocks(a, b, ra, rb, s);
    OpeningAwaits(a, b, ra, rb, s);
  }

  lemma OpeningLocks(a: Id, b: Candidate, ra: Id, rb: Id, s: Store)
    requires a != b.userId && Pairable(s, Job(a, ra), b.userId)
    requires s.userLock == map[] && s.pairLock == map[] && s.userState.Keys == {a, b.userId}
    ensures IsLocked(Propose(s, Job(a, ra), b, false), a, b.userId)
  {
  }

  lemma OpeningAwaits(a: Id, b: Candidate, ra: Id, rb: Id, s: Store)
    requires a != b.userId && Pairable(s, Job(a, ra), b.userId)
    requires s.pending == map[] && s.attempts.Keys == {ra, rb} && s.last == map[a := ra, b.userId := rb] && ra != rb
    ensures IsAwaited(Propose(s, Job(a, ra), b, false), a, b.userId, ra, rb)
  {
    var s' := Propose(s, Job(a, ra), b, false);
    ProposeChanges(s, Job(a, ra), b, false);
    ProposeWritesRecord(s, Job(a, ra), b);
    ProposeWritesAttempts(s, Job(a, ra), b);
    assert s'.attempts.Keys == {ra, rb} && s'.last.Keys == {a, b.userId};
  }

  lemma ProposeWritesRecord(s: Store, job: Job, c: Candidate)
    requires Pairable(s, job, c.userId)
    ensures Propose(s, job, c, false).pending
         == s.pending[PairOf(job.userId, c.userId) := NewPending(job, c, s.last[c.userId], false)]
  {
  }

  lemma ProposeWritesAttempts(s: Store, job: Job, c: Candidate)
    requires Pairable(s, job, c.userId)
    ensures var attempts := Propose(s, job, c, false).attempts;
      && IsProposed(attempts, job.requestId, job.userId, c.userId)
      && IsProposed(attempts, s.last[c.userId], c.userId, job.userId)
  {
  }

  lemma LastJobYields(s: Store, job: Job)
    requires s.queue == [job] && job.requestId in s.attempts && s.attempts[job.requestId].status == Proposed
    ensures Step(System(s, None), Begin(true)) == System(s.(queue := []), None)
  {
    assert s.queue[1..] == [];
  }

  /** The worker takes the first job, and its first candidate can be paired. */
  lemma JobPairs(s: Store, s1: Store, job: Job, c: Candidate)
    requires s.queue != [] && s.queue[0] == job && s1 == s.(queue := s.queue[1..])
    requires Pairable(s, job, c.userId)
    requires job.requestId in s.attempts && s.attempts[job.requestId].status == Seeking
    ensures Pairable(s1, job, c.userId)
    ensures Run(System(s, None), [Begin(true), Pass([c], false)]) == System(Propose(s1, job, c, false), None)
  {
    RunTwo(System(s, None), Begin(true), Pass([c], false));
    assert Step(System(s, None), Begin(true)) == System(s1, Some(job));
    FirstIsProposed(s1, job, c);
  }

  /** A scan whose first candidate can be paired proposes to that candidate. */
  lemma FirstIsProposed(s: Store, job: Job, c: Candidate)
    requires Pairable(s, job, c.userId)
    ensures Scan(s, job, [c], false) == (Propose(s, job, c, false), Some(c))
  {
    assert [c][..0] == [] && EvictStale(s, job, []) == s;
  }

  // ---------- the open proposal meets both invariants ----------

  predicate Unguarded(e: Event) {
    (e.Start? && e.hasSnapshot) || (e.Begin? && e.hasSnapshot) || e.Pass? || e.Cancel?
  }

  lemma {:induction false} UnguardedKeepsBoth(m: System, es: seq<Event>)
    requires forall e <- es :: Unguarded(e)
    ensures MatchSymmetry.RunKeepsSymmetry(m, es) && MatchExclusivity.RunKeepsExclusivity(m, es)
    decreases |es|
  {
    if es != [] {
      assert Unguarded(es[0]);
      UnguardedKeepsBoth(Step(m, es[0]), es[1..]);
    }
  }

  lemma OpeningKeepsBoth(a: Id, b: Candidate, ra: Id, rb: Id)
    ensures Symmetric(Run(INITIAL, Opening(a, b, ra, rb))) && Exclusive(Run(INITIAL, Opening(a, b, ra, rb)))
  {
    var es := Opening(a, b, ra, rb);
    UnguardedKeepsBoth(INITIAL, es);
    MatchSymmetry.InitialIsSymmetric();
    MatchSymmetry.RunsAreSymmetric(INITIAL, es);
    MatchExclusivity.InitialIsExclusive();
    MatchExclusivity.RunsAreExclusive(INITIAL, es);
  }

  // ---------- leaving during a proposal ----------

  /**
   * Two starts, a proposal, and one of the two leaves a room: the pair is still locked and its record
   * still there, but that user holds no lock and is not locked any more.
   */
  lemma LeavingBreaksBoth(a: Id, b: Candidate, ra: Id, rb: Id)
    requires a != b.userId && ra != rb
    ensures var es, k := Opening(a, b, ra, rb), PairOf(a, b.userId);
      var m, m' := Run(INITIAL, es), Run(INITIAL, es + [Leave(a)]);
      && Symmetric(m) && Exclusive(m) && !Symmetric(m') && !Exclusive(m')
      && k in m'.store.pending && k in m'.store.pairLock
      && a !in m'.store.userLock && a !in m'.store.userState && b.userId in m'.store.userLock
  {
    var m := Run(INITIAL, Opening(a, b, ra, rb));
    OpeningIsReady(a, b, ra, rb);
    OpeningKeepsBoth(a, b, ra, rb);
    RunConcat(INITIAL, Opening(a, b, ra, rb), [Leave(a)]);
    RunOne(m, Leave(a));
    LeavingUnlocks(m, PairOf(a, b.userId), a, b.userId);
  }

  lemma LeavingUnlocks(m: System, k: Pair, a: Id, b: Id)
    requires Symmetric(m) && Exclusive(m) && k in m.store.pending && k in m.store.pairLock
    requires k == PairOf(a, b) && a != b
    ensures var m' := Step(m, Leave(a));
      && !Symmetric(m') && !Exclusive(m') && k in m'.store.pending && k in m'.store.pairLock
      && a !in m'.store.userLock && a !in m'.store.userState && b in m'.store.userLock
  {
    assert LockAgrees(m.store.userLock, k, m.store.pairLock[k]);
    MatchSymmetry.LeaveKeepsSymmetryIff(m, a);
    MatchExclusivity.LeaveKeepsExclusivityIff(m, a);
  }

  // ---------- a missing snapshot during a proposal ----------

  /** The user's last attempt is overwritten, so that cancelling does not find the proposal; then the locks expire. */
  function Forgetting(k: Pair, a: Id, r: Id): seq<Event> {
    [Start(Job(a, r), false), Cancel(a)] + [LocksExpire(k)]
  }

  lemma ForgetProposal(m: System, k: Pair, a: Id, r: Id)
    requires Exclusive(m) && k in m.store.pending && k in m.store.pairLock && Involves(k, a)
    requires r !in m.store.attempts
    ensures var s, m' := m.store, Run(m, Forgetting(k, a, r));
      && m'.working == m.working && m'.store.queue == s.queue && m'.store.pending == s.pending
      && m'.store.userLock == s.userLock - {k.low, k.high} && m'.store.pairLock == s.pairLock - {k}
      && m'.store.userState == s.userState - {a} && m'.store.last == s.last[a := r]
      && r in m'.store.attempts && m'.store.attempts[r].status == Ended
      && m'.store.attempts == s.attempts[r := m'.store.attempts[r]]
  {
    var m1 := Step(m, Start(Job(a, r), false));
    var m2 := Step(m1, Cancel(a));
    RunConcat(m, [Start(Job(a, r), false), Cancel(a)], [LocksExpire(k)]);
    RunTwo(m, Start(Job(a, r), false), Cancel(a));
    RunOne(m2, LocksExpire(k));
    RefusedThenCancelled(m.store, Job(a, r));
  }

  lemma RefusedThenCancelled(s: Store, job: Job)
    requires job.requestId !in s.attempts
    ensures var s1 := StartFindMatch(s, job, false).0;
      var s2 := CancelMatch(s1, job.userId);
      && s2 == s.(pool := s2.pool, userState := s.userState - {job.userId}, attempts := s2.attempts,
                  last := s.last[job.userId := job.requestId])
      && job.requestId in s2.attempts && s2.attempts[job.requestId].status == Ended
      && s2.attempts == s.attempts[job.requestId := s2.attempts[job.requestId]]
  {
    var s1 := StartFindMatch(s, job, false).0;
    assert s1.attempts[job.requestId].status == Ended;
  }

  /** The user and a third one start, and the worker takes the user's job. */
  function NewSearches(a: Id, c: Candidate, q: Id, rc: Id): seq<Event> {
    [Start(Job(a, q), true), Start(Job(c.userId, rc), true)] + [Begin(true), Pass([c], false)]
  }

  /** The user can search: not locked, in no room, and the last attempt, if any, is over. */
  predicate IsFree(s: Store, u: Id) {
    && !InState(s, u, Locked) && !InState(s, u, InRoom) && u !in s.userLock
    && (u in s.last ==> s.last[u] in s.attempts) && Coalesce(s, u).None?
  }

  lemma BothStartAgain(m: System, a: Id, c: Id, q: Id, rc: Id)
    requires IsFree(m.store, a) && IsFree(m.store, c) && a != c
    requires q !in m.store.attempts && rc !in m.store.attempts && q != rc
    ensures Run(m, [Start(Job(a, q), true), Start(Job(c, rc), true)])
         == m.(store := CommitSearching(CommitSearching(m.store, Job(a, q)), Job(c, rc)))
  {
    RunTwo(m, Start(Job(a, q), true), Start(Job(c, rc), true));
    var s := CommitSearching(m.store, Job(a, q));
    assert Coalesce(s, c) == Coalesce(m.store, c);
  }

  lemma SearchAgain(m: System, a: Id, c: Candidate, q: Id, rc: Id)
    requires m.working.None? && m.store.queue == []
    requires IsFree(m.store, a) && IsFree(m.store, c.userId) && a != c.userId
    requires PairOf(a, c.userId) !in m.store.pairLock
    requires q !in m.store.attempts && rc !in m.store.attempts && q != rc
    ensures Run(m, NewSearches(a, c, q, rc)).store.pending.Keys == m.store.pending.Keys + {PairOf(a, c.userId)}
  {
    var starts := [Start(Job(a, q), true), Start(Job(c.userId, rc), true)];
    var job := Job(a, q);
    BothStartAgain(m, a, c.userId, q, rc);
    var s := CommitSearching(CommitSearching(m.store, job), Job(c.userId, rc));
    RunConcat(m, starts, [Begin(true), Pass([c], false)]);
    var s1 := s.(queue := s.queue[1..]);
    BothArePairable(m.store, a, c.userId, q, rc);
    JobPairs(s, s1, job, c);
    ProposeAddsRecord(s1, job, c);
  }

  lemma ProposeAddsRecord(s: Store, job: Job, c: Candidate)
    requires Pairable(s, job, c.userId)
    ensures Propose(s, job, c, false).pending.Keys == s.pending.Keys + {PairOf(job.userId, c.userId)}
  {
  }

  lemma BothArePairable(s: Store, a: Id, c: Id, q: Id, rc: Id)
    requires IsFree(s, a) && IsFree(s, c) && a != c && PairOf(a, c) !in s.pairLock && q != rc
    ensures var s' := CommitSearching(CommitSearching(s, Job(a, q)), Job(c, rc));
      Pairable(s', Job(a, q), c) && q in s'.attempts && s'.attempts[q].status == Seeking
  {
  }

  /** After that the user is free, and so is everyone who was. */
  lemma ForgottenIsFree(m: System, k: Pair, a: Id, c: Id, r: Id)
    requires Exclusive(m) && k in m.store.pending && k in m.store.pairLock && Involves(k, a)
    requires !Involves(k, c) && IsFree(m.store, c) && r !in m.store.attempts
    ensures var s := Run(m, Forgetting(k, a, r)).store;
      IsFree(s, a) && IsFree(s, c) && PairOf(a, c) !in s.pairLock && a != c && PairOf(a, c) != k
  {
    ForgetProposal(m, k, a, r);
    var h := PairOf(a, c);
    assert Involves(h, c);
    assert h in m.store.pairLock ==> LockAgrees(m.store.userLock, h, m.store.pairLock[h]);
  }

  /** In a proposal with an idle worker this always leads to a second proposal of the same user. */
  lemma SecondProposalFollows(m: System, k: Pair, a: Id, c: Candidate, r: Id, q: Id, rc: Id)
    requires Exclusive(m) && m.working.None? && m.store.queue == []
    requires k in m.store.pending && k in m.store.pairLock && Involves(k, a)
    requires !Involves(k, c.userId) && IsFree(m.store, c.userId)
    requires r !in m.store.attempts && q !in m.store.attempts && rc !in m.store.attempts && r != q && rc !in {r, q}
    ensures Run(Run(m, Forgetting(k, a, r)), NewSearches(a, c, q, rc)).store.pending.Keys
         == m.store.pending.Keys + {PairOf(a, c.userId)}
    ensures PairOf(a, c.userId) != k
  {
    ForgottenIsFree(m, k, a, c.userId, r);
    ForgetProposal(m, k, a, r);
    SearchAgain(Run(m, Forgetting(k, a, r)), a, c, q, rc);
  }

  /**
   * From the empty store: a proposal between `a` and `b`, a start by `a` whose profile snapshot cannot
   * be loaded, a cancel, expiry of the locks, and a new search by `a` and a third user; after that `a`
   * is in two open proposals.
   */
  lemma TwoProposalsAtOnce(a: Id, b: Candidate, c: Candidate, ra: Id, rb: Id, r: Id, q: Id, rc: Id)
    requires a != b.userId && c.userId !in {a, b.userId}
    requires ra != rb && r !in {ra, rb} && q !in {ra, rb, r} && rc !in {ra, rb, r, q}
    ensures var k, h := PairOf(a, b.userId), PairOf(a, c.userId);
      var es := Opening(a, b, ra, rb) + Forgetting(k, a, r) + NewSearches(a, c, q, rc);
      && k != h && Run(INITIAL, es).store.pending.Keys == {k, h}
  {
    var es, k := Opening(a, b, ra, rb), PairOf(a, b.userId);
    var m := Run(INITIAL, es);
    OpeningIsReady(a, b, ra, rb);
    OpeningKeepsBoth(a, b, ra, rb);
    RunConcat(INITIAL, es, Forgetting(k, a, r));
    RunConcat(INITIAL, es + Forgetting(k, a, r), NewSearches(a, c, q, rc));
    SecondProposalFollows(m, k, a, c, r, q, rc);
  }

  /** The worker is idle, there is one locked proposal, and everyone else is free. */
  lemma OpeningIsReady(a: Id, b: Candidate, ra: Id, rb: Id)
    requires a != b.userId && ra != rb
    ensures var m, k := Run(INITIAL, Opening(a, b, ra, rb)), PairOf(a, b.userId);
      && m.working.None? && m.store.queue == [] && m.store.pending.Keys == {k}
      && k in m.store.pending && k in m.store.pairLock
      && (forall r :: r in m.store.attempts ==> r in {ra, rb})
      && (forall u :: !Involves(k, u) ==> IsFree(m.store, u))
  {
    var m, k := Run(INITIAL, Opening(a, b, ra, rb)), PairOf(a, b.userId);
    OpeningProposes(a, b, ra, rb);
    assert k in m.store.pairLock.Keys && k in m.store.pending.Keys && m.store.attempts.Keys == {ra, rb};
    forall u | !Involves(k, u)
      ensures IsFree(m.store, u)
    {
      assert u !in m.store.userLock.Keys && u !in m.store.last.Keys;
    }
  }

  // ---------- cancelling one's own job and searching again ----------

  /** The worker is at the job, which is still its user's search. */
  predicate IsAtWork(m: System, job: Job) {
    && m.working == Some(job) && Belongs(m.store.attempts, job.requestId, job.userId)
    && m.store.attempts[job.requestId].status == Seeking
    && job.userId in m.store.last && m.store.last[job.userId] == job.requestId
  }

  /** The user of the job cancels it and starts another search. */
  function Restarting(u: Id, q: Id): seq<Event> {
    [Cancel(u), Start(Job(u, q), true)]
  }

  /** The store after that: the job goes on under an attempt that has ended. */
  function Restarted(s: Store, job: Job, q: Id): Store
    requires job.requestId in s.attempts
  {
    var u, x := job.userId, s.attempts[job.requestId].(status := Ended, reason := Some("cancelled_by_user"));
    s.(pool := s.pool + {u}, userState := s.userState[u := Searching],
       attempts := s.attempts[job.requestId := x][q := NewAttempt(u)],
       last := s.last[u := q], queue := s.queue + [Job(u, q)])
  }

  /** The store after the cancel alone. */
  function Cancelled(s: Store, job: Job): Store
    requires job.requestId in s.attempts
  {
    var x := s.attempts[job.requestId].(status := Ended, reason := Some("cancelled_by_user"));
    s.(pool := s.pool - {job.userId}, userState := s.userState - {job.userId},
       attempts := s.attempts[job.requestId := x], last := s.last[job.userId := job.requestId])
  }

  lemma CancelledIs(m: System, job: Job)
    requires IsAtWork(m, job)
    ensures Step(m, Cancel(job.userId)) == m.(store := Cancelled(m.store, job))
  {
    assert CancelMatch(m.store, job.userId) == Cancelled(m.store, job);
  }

  lemma StartsAgain(m: System, s: Store, job: Job, q: Id)
    requires job.requestId in s.attempts && q !in s.attempts && m.store == Cancelled(s, job)
    ensures Step(m, Start(Job(job.userId, q), true)) == m.(store := Restarted(s, job, q))
  {
    assert MayCommit(m.store, Job(job.userId, q), true);
    CommitAfterCancel(s, job, q);
  }

  lemma CommitAfterCancel(s: Store, job: Job, q: Id)
    requires job.requestId in s.attempts && q !in s.attempts
    ensures CommitSearching(Cancelled(s, job), Job(job.userId, q)) == Restarted(s, job, q)
  {
    var u, s2 := job.userId, CommitSearching(Cancelled(s, job), Job(job.userId, q));
    assert s2.pool == s.pool + {u} && s2.userState == s.userState[u := Searching] && s2.last == s.last[u := q];
  }

  lemma RestartIs(m: System, job: Job, q: Id)
    requires IsAtWork(m, job) && q !in m.store.attempts
    ensures Run(m, Restarting(job.userId, q)) == m.(store := Restarted(m.store, job, q))
  {
    var m1 := m.(store := Cancelled(m.store, job));
    RunTwo(m, Cancel(job.userId), Start(Job(job.userId, q), true));
    CancelledIs(m, job);
    StartsAgain(m1, m.store, job, q);
    assert m1.(store := Restarted(m.store, job, q)) == m.(store := Restarted(m.store, job, q));
  }

  /** A job gives up whose user searches under another attempt. */
  lemma OutdatedFinish(s: Store, job: Job, q: Id, reason: string, q2: Id)
    requires Belongs(s.attempts, q, job.userId) && s.attempts[q].status == Seeking
    requires job.requestId in s.attempts && q != job.requestId && q2 !in s.attempts
    ensures var s' := FinishJob(s, job, reason);
      && Belongs(s'.attempts, q, job.userId) && s'.attempts[q].status == Seeking
      && MayCommit(s', Job(job.userId, q2), true)
  {
  }

  /** The job gives up: it hides the new search, and one more start makes two. */
  lemma RestartThenGivesUp(m: System, job: Job, q: Id, reason: string, q2: Id)
    requires IsAtWork(m, job) && q !in m.store.attempts && q2 !in m.store.attempts && q != q2
    ensures var s := Run(m, Restarting(job.userId, q) + [Finish(reason), Start(Job(job.userId, q2), true)]).store;
      BothActive(s, job.userId, q, q2)
  {
    var u, m1 := job.userId, m.(store := Restarted(m.store, job, q));
    RestartIs(m, job, q);
    RunConcat(m, Restarting(u, q), [Finish(reason), Start(Job(u, q2), true)]);
    RunTwo(m1, Finish(reason), Start(Job(u, q2), true));
    OutdatedFinish(m1.store, job, q, reason, q2);
    MatchActive.HiddenAttemptIsDoubled(Step(m1, Finish(reason)), q, Job(u, q2));
  }

  predicate BothActive(s: Store, u: Id, a: Id, b: Id) {
    && a != b && Belongs(s.attempts, a, u) && Belongs(s.attempts, b, u)
    && MatchActive.IsActive(s.attempts[a]) && MatchActive.IsActive(s.attempts[b])
  }

  /** The job proposes: its user is then in a proposal and searching too. */
  lemma RestartThenProposes(m: System, job: Job, q: Id, c: Candidate)
    requires IsAtWork(m, job) && q !in m.store.attempts && Pairable(m.store, job, c.userId)
    ensures var s := Run(m, Restarting(job.userId, q) + [Pass([c], false)]).store;
      && BothActive(s, job.userId, job.requestId, q)
      && s.attempts[job.requestId].status == Proposed && s.attempts[q].status == Seeking
  {
    var s1 := Restarted(m.store, job, q);
    RestartIs(m, job, q);
    RunConcat(m, Restarting(job.userId, q), [Pass([c], false)]);
    RunOne(m.(store := s1), Pass([c], false));
    RestartedIsPairable(m.store, job, q, c.userId);
    OutdatedPass(s1, job, c, q);
  }

  lemma RestartedIsPairable(s: Store, job: Job, q: Id, c: Id)
    requires Belongs(s.attempts, job.requestId, job.userId) && q !in s.attempts && Pairable(s, job, c)
    ensures Pairable(Restarted(s, job, q), job, c) && Restarted(s, job, q).last[c] != q
  {
    assert Restarted(s, job, q).last[c] == s.last[c];
  }

  /** A job proposes whose user searches under another attempt. */
  lemma OutdatedPass(s: Store, job: Job, c: Candidate, q: Id)
    requires Pairable(s, job, c.userId) && q !in {job.requestId, s.last[c.userId]}
    requires Belongs(s.attempts, q, job.userId) && s.attempts[q].status == Seeking
    ensures var s' := Step(System(s, Some(job)), Pass([c], false)).store;
      && BothActive(s', job.userId, job.requestId, q)
      && s'.attempts[job.requestId].status == Proposed && s'.attempts[q].status == Seeking
  {
    FirstIsProposed(s, job, c);
    ProposeSparesOthers(s, job, c, q);
  }

  lemma ProposeSparesOthers(s: Store, job: Job, c: Candidate, q: Id)
    requires Pairable(s, job, c.userId) && q in s.attempts && q !in {job.requestId, s.last[c.userId]}
    ensures var attempts := Propose(s, job, c, false).attempts;
      && q in attempts && attempts[q] == s.attempts[q] && IsProposed(attempts, job.requestId, job.userId, c.userId)
  {
    ProposeChanges(s, job, c, false);
    ProposeWritesAttempts(s, job, c);
  }

  /** From the empty store: a user cancels their job and searches again, and then the job finds the pool empty. */
  lemma TwoSearchesAfterGivingUp(a: Id, ra: Id, q: Id, q2: Id)
    requires q != ra && q2 !in {ra, q}
    ensures var es := [Start(Job(a, ra), true), Begin(true)] + Restarting(a, q)
                    + [Finish("pool_empty"), Start(Job(a, q2), true)];
      BothActive(Run(INITIAL, es).store, a, q, q2)
  {
    var starts, rest := [Start(Job(a, ra), true), Begin(true)], [Finish("pool_empty"), Start(Job(a, q2), true)];
    assert starts + Restarting(a, q) + rest == starts + (Restarting(a, q) + rest);
    RunConcat(INITIAL, starts, Restarting(a, q) + rest);
    OneStarts(a, ra);
    RestartThenGivesUp(Run(INITIAL, starts), Job(a, ra), q, "pool_empty", q2);
  }

  /** The store once one user has started and the worker has taken the job. */
  function OneSearching(a: Id, ra: Id): Store {
    EMPTY.(userState := map[a := Searching], attempts := map[ra := NewAttempt(a)], last := map[a := ra], pool := {a})
  }

  lemma OneStarts(a: Id, ra: Id)
    ensures Run(INITIAL, [Start(Job(a, ra), true), Begin(true)]) == System(OneSearching(a, ra), Some(Job(a, ra)))
  {
    RunTwo(INITIAL, Start(Job(a, ra), true), Begin(true));
    var s := CommitSearching(EMPTY, Job(a, ra));
    assert StartFindMatch(EMPTY, Job(a, ra), true).0 == s;
    assert s == OneSearching(a, ra).(queue := [Job(a, ra)]) && s.queue[1..] == [];
  }

  /**
   * From the empty store, in a run that keeps both invariants: a user cancels their job and searches
   * again, and then the job pairs them with a second user.
   */
  lemma SearchDuringProposal(a: Id, b: Candidate, ra: Id, rb: Id, q: Id)
    requires a != b.userId && ra != rb && q !in {ra, rb}
    ensures var es := [Start(Job(a, ra), true), Start(Job(b.userId, rb), true)] + [Begin(true)]
                    + (Restarting(a, q) + [Pass([b], false)]);
      var s := Run(INITIAL, es).store;
      && MatchSymmetry.RunKeepsSymmetry(INITIAL, es) && MatchExclusivity.RunKeepsExclusivity(INITIAL, es)
      && BothActive(s, a, ra, q) && s.attempts[ra].status == Proposed && s.attempts[q].status == Seeking
  {
    var starts := [Start(Job(a, ra), true), Start(Job(b.userId, rb), true)];
    var rest := Restarting(a, q) + [Pass([b], false)];
    var s, job := BothSearching(a, b.userId, ra, rb), Job(a, ra);
    UnguardedKeepsBoth(INITIAL, starts + [Begin(true)] + rest);
    RunConcat(INITIAL, starts + [Begin(true)], rest);
    RunConcat(INITIAL, starts, [Begin(true)]);
    BothStart(a, b.userId, ra, rb);
    RunOne(System(s, None), Begin(true));
    var s1 := s.(queue := s.queue[1..]);
    assert BeginJob(s1, job, true) == (s1, true);
    RestartThenProposes(System(s1, Some(job)), job, q, b);
  }

  // ---------- expiry, and slow rooms ----------

  /** From the empty store: a proposal that nobody answers in time strands both its users. */
  lemma ExpiryStrandsBoth(a: Id, b: Candidate, ra: Id, rb: Id)
    requires a != b.userId && ra != rb
    ensures var k := PairOf(a, b.userId);
      var m := Run(INITIAL, Opening(a, b, ra, rb) + [LocksExpire(k), PendingExpires(k)]);
      && MatchProgress.Stuck(m, a, b.userId) && MatchProgress.Stuck(m, b.userId, a)
      && MatchProgress.Barred(m, a) && MatchProgress.Barred(m, b.userId)
  {
    var es, k := Opening(a, b, ra, rb), PairOf(a, b.userId);
    OpeningIsReady(a, b, ra, rb);
    OpeningKeepsBoth(a, b, ra, rb);
    RunConcat(INITIAL, es, [LocksExpire(k), PendingExpires(k)]);
    MatchProgress.ExpiryLeavesStuck(Run(INITIAL, es), k);
    var m := Run(Run(INITIAL, es), [LocksExpire(k), PendingExpires(k)]);
    MatchProgress.StuckIsBarred(m, a, b.userId);
    MatchProgress.StuckIsBarred(m, b.userId, a);
  }

  /**
   * `u` connects, the other user completes the pair and asks for a room, and `u` skips before the
   * answer: the store then, what `u` is told, and the store after the answer.
   */
  function SlowRoom(s: Store, k: Pair, u: Id, v: Id, a: Id, room: Id): (Store, RespondResult, Store)
    requires k in s.pending && k in Respond(s, u, a, Connect, None).0.pending
  {
    var s1 := Respond(s, u, a, Connect, None).0;
    var (s2, told) := Respond(Elect(s1, k, v), u, a, Skip, None);
    (s2, told, Land(s2, s1.pending[k], Some(room)))
  }

  lemma SlowRoomUndoesSkip(s: Store, k: Pair, u: Id, v: Id, a: Id, room: Id)
    requires s.finalize == {} && k == PairOf(u, v) && MayRespond(s, u, a, k)
    requires !s.pending[k].connectLow && !s.pending[k].connectHigh
    ensures var p, s1 := s.pending[k], Respond(s, u, a, Connect, None).0;
      && k in s1.pending && RecordConnect(s1, k, v).1 == 2
      && var (s2, told, s3) := SlowRoom(s, k, u, v, a, room);
      && told == Ok && InState(s3, u, InRoom) && InState(s3, v, InRoom)
      && forall x :: x in {p.attemptLow, p.attemptHigh} ==>
           HasEnded(s2.attempts, x) && IsMatched(s3.attempts, x, room)
  {
    var s1 := Respond(s, u, a, Connect, None).0;
    FirstConnectWaits(s, k, u, a);
    SecondConnectElects(s1, k, u, v, a);
    var s2 := Elect(s1, k, v);
    MatchRoom.SkipOutcome(s2, u, a, k, None, k);
    MatchRoom.LandingMatches(Respond(s2, u, a, Skip, None).0, s1.pending[k], room);
  }

  lemma FirstConnectWaits(s: Store, k: Pair, u: Id, a: Id)
    requires s.finalize == {} && MayRespond(s, u, a, k)
    requires !s.pending[k].connectLow && !s.pending[k].connectHigh
    ensures Respond(s, u, a, Connect, None).0 == s.(pending := s.pending[k := SetConnect(s.pending[k], u == k.low)])
  {
  }

  lemma SecondConnectElects(s: Store, k: Pair, u: Id, v: Id, a: Id)
    requires s.finalize == {} && k == PairOf(u, v) && u != v && MayRespond(s, u, a, k)
    requires if u == k.low then s.pending[k].connectLow else s.pending[k].connectHigh
    ensures var s' := Elect(s, k, v);
      && RecordConnect(s, k, v).1 == 2 && MayRespond(s', u, a, k) && s'.finalize == {k}
      && s'.attempts == s.attempts && s'.pending[k] == SetConnect(s.pending[k], v == k.low)
      && Respond(s', u, a, Skip, None).1 == Ok
  {
  }

  /**
   * From the empty store: both users connect, and while the room is being created the first one skips
   * and is told that it worked; both attempts have ended, and yet the room then takes in both users.
   */
  lemma SkipIsUndone(a: Id, b: Candidate, ra: Id, rb: Id, room: Id)
    requires a != b.userId && ra != rb
    ensures var k, s := PairOf(a, b.userId), Run(INITIAL, Opening(a, b, ra, rb)).store;
      && k in s.pending && k in Respond(s, a, ra, Connect, None).0.pending
      && var (s2, told, s3) := SlowRoom(s, k, a, b.userId, ra, room);
      && told == Ok && InState(s3, a, InRoom) && InState(s3, b.userId, InRoom)
      && forall x :: x in {ra, rb} ==> HasEnded(s2.attempts, x) && IsMatched(s3.attempts, x, room)
  {
    OpeningMayRespond(a, b, ra, rb);
    AnyOpenSkipIsUndone(Run(INITIAL, Opening(a, b, ra, rb)).store, PairOf(a, b.userId), a, b.userId, ra, rb, room);
  }

  lemma AnyOpenSkipIsUndone(s: Store, k: Pair, u: Id, v: Id, a: Id, b: Id, room: Id)
    requires s.finalize == {} && k == PairOf(u, v) && MayRespond(s, u, a, k)
    requires !s.pending[k].connectLow && !s.pending[k].connectHigh
    requires {s.pending[k].attemptLow, s.pending[k].attemptHigh} == {a, b}
    ensures k in Respond(s, u, a, Connect, None).0.pending
    ensures var (s2, told, s3) := SlowRoom(s, k, u, v, a, room);
      && told == Ok && InState(s3, u, InRoom) && InState(s3, v, InRoom)
      && forall x :: x in {a, b} ==> HasEnded(s2.attempts, x) && IsMatched(s3.attempts, x, room)
  {
    SlowRoomUndoesSkip(s, k, u, v, a, room);
  }

  lemma OpeningMayRespond(a: Id, b: Candidate, ra: Id, rb: Id)
    requires a != b.userId && ra != rb
    ensures var s, k := Run(INITIAL, Opening(a, b, ra, rb)).store, PairOf(a, b.userId);
      && s.finalize == {} && MayRespond(s, a, ra, k)
      && !s.pending[k].connectLow && !s.pending[k].connectHigh
      && {s.pending[k].attemptLow, s.pending[k].attemptHigh} == {ra, rb}
  {
    var s, k := Run(INITIAL, Opening(a, b, ra, rb)).store, PairOf(a, b.userId);
    OpeningProposes(a, b, ra, rb);
    OpeningKeepsBoth(a, b, ra, rb);
    assert k in s.pending.Keys && Sound(s.attempts, k, s.pending[k]);
    assert Engaged(s, k, s.pending[k]);
  }

  /** After a skip both users are free, and so is everyone who was. */
  lemma SkipFrees(s: Store, k: Pair, u: Id, a: Id, c: Id)
    requires MayRespond(s, u, a, k) && !Involves(k, c) && IsFree(s, c)
    requires c in s.last ==> Belongs(s.attempts, s.last[c], c)
    ensures var s' := Respond(s, u, a, Skip, None).0;
      && IsFree(s', k.low) && IsFree(s', k.high) && IsFree(s', c) && s'.queue == s.queue
      && s'.pending == s.pending - {k} && s'.pairLock == s.pairLock - {k} && s'.attempts.Keys == s.attempts.Keys
  {
    SkipCloses(s, k, u, a, None);
    SkipIs(s, k, u, a, None);
    EndingSearches(s, s.pending[k], u);
  }

  lemma EndingSearches(s: Store, p: Pending, u: Id)
    ensures InState(EndBySkip(s, p, u), p.userLow, Searching) && InState(EndBySkip(s, p, u), p.userHigh, Searching)
  {
  }

  /** `s'` differs from `s` in the proposal of `k` only. */
  predicate OnlyFlags(s: Store, s': Store, k: Pair) {
    && s' == s.(pending := s'.pending, finalize := s'.finalize, roomCalls := s'.roomCalls)
    && s'.pending.Keys == s.pending.Keys && k in s.pending
  }

  lemma BothConnect(s: Store, k: Pair, u: Id, v: Id, a: Id)
    requires s.finalize == {} && k == PairOf(u, v) && u != v && MayRespond(s, u, a, k)
    requires !s.pending[k].connectLow && !s.pending[k].connectHigh
    ensures var s1 := Respond(s, u, a, Connect, None).0;
      k in s1.pending && OnlyFlags(s, Elect(s1, k, v), k) && MayRespond(Elect(s1, k, v), u, a, k)
  {
    var s1 := Respond(s, u, a, Connect, None).0;
    FirstConnectWaits(s, k, u, a);
    SecondConnectElects(s1, k, u, v, a);
    ElectTouches(s1, k, v);
    assert Elect(s1, k, v).pending.Keys == s1.pending.Keys;
  }

  lemma FlagsFreeNobody(s: Store, s': Store, k: Pair, c: Id)
    requires OnlyFlags(s, s', k)
    ensures IsFree(s', c) <==> IsFree(s, c)
  {
  }

  lemma SlowRoomFrees(s: Store, k: Pair, u: Id, v: Id, a: Id, room: Id, c: Id)
    requires s.finalize == {} && k == PairOf(u, v) && MayRespond(s, u, a, k)
    requires !s.pending[k].connectLow && !s.pending[k].connectHigh
    requires !Involves(k, c) && IsFree(s, c) && (c in s.last ==> Belongs(s.attempts, s.last[c], c))
    ensures k in Respond(s, u, a, Connect, None).0.pending
    ensures var s' := SlowRoom(s, k, u, v, a, room).0;
      && IsFree(s', u) && IsFree(s', c) && s'.queue == s.queue && s'.attempts.Keys == s.attempts.Keys
      && s'.pending.Keys == s.pending.Keys - {k} && s'.pairLock == s.pairLock - {k}
  {
    BothConnect(s, k, u, v, a);
    var s2 := Elect(Respond(s, u, a, Connect, None).0, k, v);
    FlagsFreeNobody(s, s2, k, c);
    SkipFrees(s2, k, u, a, c);
    assert (s2.pending - {k}).Keys == s2.pending.Keys - {k};
  }

  /** A room takes in the user of a proposal of another pair, which stays open. */
  lemma LandingMeetsProposal(m: System, p: Pending, room: Id, h: Pair)
    requires p.userLow != p.userHigh && h in m.store.pending
    requires h != PairOf(p.userLow, p.userHigh) && (Involves(h, p.userLow) || Involves(h, p.userHigh))
    ensures var s' := Land(m.store, p, Some(room));
      && h in s'.pending && InState(s', p.userLow, InRoom) && InState(s', p.userHigh, InRoom)
      && !Exclusive(m.(store := s'))
  {
    var s' := Land(m.store, p, Some(room));
    assert h in s'.pending && !Engaged(s', h, s'.pending[h]);
  }

  /**
   * From the empty store: after that skip the first user searches again and gets a proposal with a
   * third one; then the room arrives and takes them in, and the proposal stays open.
   */
  lemma RoomDuringProposal(a: Id, b: Candidate, c: Candidate, ra: Id, rb: Id, q: Id, rc: Id, room: Id)
    requires a != b.userId && c.userId !in {a, b.userId}
    requires ra != rb && q !in {ra, rb} && rc !in {ra, rb, q}
    ensures var k, h, s := PairOf(a, b.userId), PairOf(a, c.userId), Run(INITIAL, Opening(a, b, ra, rb)).store;
      && k in s.pending && k in Respond(s, a, ra, Connect, None).0.pending
      && var m := Run(System(SlowRoom(s, k, a, b.userId, ra, room).0, None), NewSearches(a, c, q, rc));
      var s' := Land(m.store, s.pending[k], Some(room));
      && h in s'.pending && InState(s', a, InRoom) && !Exclusive(m.(store := s'))
  {
    var k, h, s := PairOf(a, b.userId), PairOf(a, c.userId), Run(INITIAL, Opening(a, b, ra, rb)).store;
    OpeningIsReady(a, b, ra, rb);
    OpeningKeepsBoth(a, b, ra, rb);
    OpeningMayRespond(a, b, ra, rb);
    SlowRoomFrees(s, k, a, b.userId, ra, room, c.userId);
    var m := System(SlowRoom(s, k, a, b.userId, ra, room).0, None);
    assert Involves(h, c.userId);
    assert h in s.pairLock ==> LockAgrees(s.userLock, h, s.pairLock[h]);
    SearchAgain(m, a, c, q, rc);
    assert h in m.store.pending.Keys + {h};
    LandingMeetsProposal(Run(m, NewSearches(a, c, q, rc)), s.pending[k], room, h);
  }
}
