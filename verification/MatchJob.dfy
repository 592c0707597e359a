/** One worker job from its first check to its last write, with no handler in between. */
module MatchJob {
  import opened RedisKeys
  import opened Ranking
  import opened MatchModel
  import opened Types
  import opened MatchInvariants
  import MatchActive
  import MatchEffects
  import MatchSymmetry

  const MAX_RETRIES: nat := 3

  /** What one pass reads: the size of the pool, the candidates left after scoring, the peers to rank lower. */
  datatype ScanInput = ScanInput(poolSize: nat, scored: seq<Candidate>, peers: PeerSets)

  datatype Outcome = Outcome(result: FindMatchResult, passes: nat, usedFallback: bool)

  predicate NobodyScored(scans: seq<ScanInput>) {
    forall scan <- scans :: scan.scored == []
  }

  predicate PoolAlwaysEmpty(scans: seq<ScanInput>) {
    forall scan <- scans :: scan.poolSize == 0
  }

  function FailureReason(scans: seq<ScanInput>): string {
    if PoolAlwaysEmpty(scans) then "pool_empty" else "no_compatible_candidate"
  }

  /** Passes until one of them pairs, with the number of passes made. */
  function Passes(s: Store, job: Job, scans: seq<ScanInput>): (Store, Option<Candidate>, nat)
    decreases |scans|
  {
    if scans == [] then (s, None, 0)
    else
      var (s1, paired) := Scan(s, job, Rank(scans[0].scored, scans[0].peers), false);
      if paired.Some? then (s1, paired, 1)
      else
        var (s2, later, n) := Passes(s1, job, scans[1..]);
        (s2, later, n + 1)
  }

  function Proposal(job: Job, c: Candidate, isFallback: bool): FindMatchResult {
    ProposedTo(job.requestId, c.userId, c.matchScore, isFallback)
  }

  /** The answer of a job that stops at its first checks. */
  function EarlyAnswer(s: Store, job: Job, hasSnapshot: bool): FindMatchResult {
    if job.requestId !in s.attempts then NotMatched("attempt_not_found")
    else if s.attempts[job.requestId].status != Seeking then ToResult(s.attempts[job.requestId], job.requestId)
    else if !hasSnapshot then NotMatched("snapshot_not_found")
    else if InState(s, job.userId, InRoom) then NotMatched("user_unavailable")
    else ToResult(s.attempts[job.requestId], job.requestId)
  }

  function RunJob(s: Store, job: Job, hasSnapshot: bool, scans: seq<ScanInput>, fallback: ScanInput): (Store, Outcome) {
    var (s1, proceed) := BeginJob(s, job, hasSnapshot);
    if !proceed then (s1, Outcome(EarlyAnswer(s, job, hasSnapshot), 0, false))
    else
      var (s2, paired, n) := Passes(s1, job, scans);
      if paired.Some? then (s2, Outcome(Proposal(job, paired.value, false), n, false))
      else
        var useFallback := NobodyScored(scans);
        var (s3, last) := if useFallback then Scan(s2, job, Rank(fallback.scored, fallback.peers), true)
                          else (s2, None);
        if last.Some? then (s3, Outcome(Proposal(job, last.value, true), n, true))
        else (FinishJob(s3, job, FailureReason(scans)), Outcome(NotMatched(FailureReason(scans)), n, useFallback))
  }

  // ---------- what a job does ----------

  /** `s'` is `s` with some candidates evicted from the pool. */
  predicate OnlyEvicts(s: Store, s': Store) {
    s' == s.(pool := s'.pool) && s'.pool <= s.pool
  }

  lemma ScanOutcome(s: Store, job: Job, cands: seq<Candidate>, isFallback: bool)
    ensures var (s', paired) := Scan(s, job, cands, isFallback);
      if paired.None? then OnlyEvicts(s, s') && forall c <- cands :: !Pairable(s, job, c.userId)
      else
        && Pairable(s, job, paired.value.userId) && paired.value in cands
        && OnlyEvicts(Propose(s, job, paired.value, isFallback), s')
  {
    var i := FirstPairable(s, job, cands);
    if i == |cands| {
      assert forall c :: c in cands ==> exists j :: 0 <= j < |cands| && cands[j] == c;
    } else {
      var s1 := EvictStale(s, job, cands[..i]);
      assert Propose(s1, job, cands[i], isFallback) == Propose(s, job, cands[i], isFallback).(pool := s1.pool);
    }
  }

  /** Evictions from the pool change neither what can be paired nor what pairing writes elsewhere. */
  lemma EvictionIsHarmless(s: Store, s1: Store, s2: Store, job: Job, scan: ScanInput, c: Candidate, isFallback: bool)
    requires OnlyEvicts(s, s1)
    ensures NonePairable(s1, job, scan) <==> NonePairable(s, job, scan)
    ensures BestPairable(s1, job, scan, c) <==> BestPairable(s, job, scan, c)
    ensures Pairable(s1, job, c.userId) <==> Pairable(s, job, c.userId)
    ensures Pairable(s, job, c.userId) && OnlyEvicts(Propose(s1, job, c, isFallback), s2) ==>
        OnlyEvicts(Propose(s, job, c, isFallback), s2)
  {
    assert forall d: Candidate :: Pairable(s1, job, d.userId) <==> Pairable(s, job, d.userId);
    if Pairable(s, job, c.userId) {
      assert Propose(s1, job, c, isFallback) == Propose(s, job, c, isFallback).(pool := s1.pool);
    }
  }

  /** What `n` passes over `scans` did: they made one proposal, the last of them, or changed nothing but the pool. */
  predicate PassesDid(s: Store, job: Job, scans: seq<ScanInput>, s': Store, paired: Option<Candidate>, n: nat) {
    && n <= |scans|
    && if paired.None? then
         OnlyEvicts(s, s') && n == |scans| && forall i :: 0 <= i < n ==> NonePairable(s, job, scans[i])
       else
         && 0 < n && (forall i :: 0 <= i < n - 1 ==> NonePairable(s, job, scans[i]))
         && BestPairable(s, job, scans[n - 1], paired.value)
         && OnlyEvicts(Propose(s, job, paired.value, false), s')
  }

  lemma {:induction false} PassesOutcome(s: Store, job: Job, scans: seq<ScanInput>)
    ensures var (s', paired, n) := Passes(s, job, scans);
      PassesDid(s, job, scans, s', paired, n)
    decreases |scans|
  {
    if scans != [] {
      var cands := Rank(scans[0].scored, scans[0].peers);
      var (s1, paired) := Scan(s, job, cands, false);
      ScanOutcome(s, job, cands, false);
      if paired.Some? {
        ScanPicksBest(s, job, scans[0], false);
      } else {
        RankedHasAll(s, job, scans[0]);
        PassesOutcome(s1, job, scans[1..]);
        var (s2, later, n) := Passes(s1, job, scans[1..]);
        PassesDidMore(s, s1, s2, job, scans, later, n);
      }
    }
  }

  /** Passes after a first one that only evicted. */
  lemma PassesDidMore(s: Store, s1: Store, s2: Store, job: Job, scans: seq<ScanInput>, later: Option<Candidate>, n: nat)
    requires scans != [] && OnlyEvicts(s, s1) && NonePairable(s, job, scans[0])
    requires PassesDid(s1, job, scans[1..], s2, later, n)
    ensures PassesDid(s, job, scans, s2, later, n + 1)
  {
    var quiet := if later.None? then n else n - 1;
    forall i | 1 <= i < quiet + 1
      ensures NonePairable(s, job, scans[i])
    {
      assert NonePairable(s1, job, scans[1..][i - 1]);
      EvictionIsHarmless(s, s1, s2, job, scans[i], Candidate("any", 0.0, 0.0), false);
    }
    if later.Some? {
      EvictionIsHarmless(s, s1, s2, job, scans[n], later.value, false);
    }
  }

  predicate NonePairable(s: Store, job: Job, scan: ScanInput) {
    forall c <- scan.scored :: !Pairable(s, job, c.userId)
  }

  /** `c` is one of the scored candidates that can be paired, and no other of them outranks it. */
  predicate BestPairable(s: Store, job: Job, scan: ScanInput, c: Candidate) {
    && c in scan.scored && Pairable(s, job, c.userId)
    && forall d <- scan.scored :: Pairable(s, job, d.userId) ==> !Outranks(d, c, scan.peers)
  }

  lemma RankedHasAll(s: Store, job: Job, scan: ScanInput)
    requires forall c <- Rank(scan.scored, scan.peers) :: !Pairable(s, job, c.userId)
    ensures NonePairable(s, job, scan)
  {
    RankIsStableSort(scan.scored, scan.peers);
    StableSortIsPermutation(Rank(scan.scored, scan.peers), scan.scored, scan.peers);
    forall c | c in scan.scored
      ensures c in Rank(scan.scored, scan.peers)
    {
      assert c in multiset(scan.scored);
      assert c in multiset(Rank(scan.scored, scan.peers));
    }
  }

  lemma ScanPicksBest(s: Store, job: Job, scan: ScanInput, isFallback: bool)
    requires Scan(s, job, Rank(scan.scored, scan.peers), isFallback).1.Some?
    ensures BestPairable(s, job, scan, Scan(s, job, Rank(scan.scored, scan.peers), isFallback).1.value)
  {
    var r := Rank(scan.scored, scan.peers);
    var i := FirstPairable(s, job, r);
    RankIsStableSort(scan.scored, scan.peers);
    StableSortIsPermutation(r, scan.scored, scan.peers);
    assert r[i] in multiset(r) && r[i] in multiset(scan.scored);
    forall d | d in scan.scored && Pairable(s, job, d.userId)
      ensures !Outranks(d, r[i], scan.peers)
    {
      FirstAcceptedIsBest(scan.scored, scan.peers, (c: Candidate) => Pairable(s, job, c.userId), i, d);
    }
  }

  lemma FallbackOutcome(s: Store, s2: Store, job: Job, fallback: ScanInput)
    requires OnlyEvicts(s, s2)
    ensures var (s3, last) := Scan(s2, job, Rank(fallback.scored, fallback.peers), true);
      if last.None? then OnlyEvicts(s, s3) && NonePairable(s, job, fallback)
      else
        && BestPairable(s, job, fallback, last.value)
        && OnlyEvicts(Propose(s, job, last.value, true), s3)
  {
    var cands := Rank(fallback.scored, fallback.peers);
    var (s3, last) := Scan(s2, job, cands, true);
    ScanOutcome(s2, job, cands, true);
    if last.None? {
      RankedHasAll(s2, job, fallback);
      EvictionIsHarmless(s, s2, s3, job, fallback, Candidate("any", 0.0, 0.0), true);
    } else {
      ScanPicksBest(s2, job, fallback, true);
      EvictionIsHarmless(s, s2, s3, job, fallback, last.value, true);
    }
  }

  /** One new proposal with its three locks, made to the best of the candidates that one scan saw. */
  ghost predicate JobProposed(s: Store, s': Store, job: Job, scan: ScanInput, isFallback: bool,
      result: FindMatchResult)
  {
    exists c ::
      && BestPairable(s, job, scan, c)
      && result == ProposedTo(job.requestId, c.userId, c.matchScore, isFallback)
      && OnlyEvicts(Propose(s, job, c, isFallback), s')
  }

  predicate SameLocks(s: Store, s': Store) {
    s'.userLock == s.userLock && s'.pairLock == s.pairLock && s'.pending == s.pending
  }

  /** The attempt of the job has ended with the reason and is its user's last one, and the user is out of the pool. */
  predicate GaveUp(s': Store, job: Job, reason: string) {
    && Belongs(s'.attempts, job.requestId, job.userId) && s'.attempts[job.requestId].status == Ended
    && s'.attempts[job.requestId].reason == Some(reason)
    && job.userId in s'.last && s'.last[job.userId] == job.requestId
    && job.userId !in s'.pool && job.userId !in s'.userState
  }

  /** The job's attempt is searching, and its user has a snapshot and is neither in a room nor locked. */
  predicate IsRunnable(s: Store, job: Job, hasSnapshot: bool) {
    && job.requestId in s.attempts && s.attempts[job.requestId].status == Seeking && hasSnapshot
    && !InState(s, job.userId, InRoom) && !InState(s, job.userId, Locked)
  }

  /** What a job does that stops at its first checks, and what it answers. */
  predicate StoppedEarly(s: Store, s': Store, job: Job, hasSnapshot: bool, res: FindMatchResult) {
    var r := job.requestId;
    if r !in s.attempts then s' == s && res == NotMatched("attempt_not_found")
    else if s.attempts[r].status != Seeking then s' == s && MatchEffects.Reports(res, r, s.attempts[r])
    else if !hasSnapshot then res == NotMatched("snapshot_not_found") && GaveUp(s', job, "snapshot_not_found")
    else if InState(s, job.userId, InRoom) then
      res == NotMatched("user_unavailable") && GaveUp(s', job, "user_unavailable")
    else s' == s && res == StillSearching(r)
  }

  /** What a job that passed its first checks did, given its answer. */
  ghost predicate JobDid(s: Store, s': Store, job: Job, scans: seq<ScanInput>, fallback: ScanInput, o: Outcome) {
    && o.passes <= |scans|
    && (o.usedFallback ==> o.passes == |scans| && NobodyScored(scans))
    && if o.result.ProposedTo? then
         && (o.usedFallback || 0 < o.passes)
         && JobProposed(s, s', job, if o.usedFallback then fallback else scans[o.passes - 1], o.usedFallback, o.result)
       else
         && SameLocks(s, s') && o.result.NotMatched? && GaveUp(s', job, o.result.reason)
         && (o.result == NotMatched("pool_empty") <==> forall scan <- scans :: scan.poolSize == 0)
         && (o.result == NotMatched("no_compatible_candidate") <==> exists scan <- scans :: scan.poolSize != 0)
         && o.passes == |scans| && (forall scan <- scans :: NonePairable(s, job, scan))
         && (NobodyScored(scans) ==> o.usedFallback && NonePairable(s, job, fallback))
  }

  /**
   * A job leaves exactly one new proposal with its three locks, or no trace in locks and
   * records; it makes at most one pass per scan, uses the fallback only if no scan scored
   * anyone, and gives up only if none of the candidates it saw could be paired. Giving up ends its
   * attempt with the reason that it answers: an empty pool, or else no compatible candidate.
   */
  lemma JobLeavesNoLocks(s: Store, job: Job, hasSnapshot: bool, scans: seq<ScanInput>, fallback: ScanInput)
    ensures var (s', o) := RunJob(s, job, hasSnapshot, scans, fallback);
      if IsRunnable(s, job, hasSnapshot) then JobDid(s, s', job, scans, fallback, o)
      else
        && SameLocks(s, s') && o.passes == 0 && !o.usedFallback
        && StoppedEarly(s, s', job, hasSnapshot, o.result)
  {
    if !IsRunnable(s, job, hasSnapshot) {
      StopsEarly(s, job, hasSnapshot);
    } else {
      PassesOutcome(s, job, scans);
      var (s2, paired, n) := Passes(s, job, scans);
      if paired.None? {
        AfterPasses(s, s2, job, scans, fallback);
      }
    }
  }

  lemma FinishGivesUp(s: Store, job: Job, reason: string)
    ensures GaveUp(FinishJob(s, job, reason), job, reason) && SameLocks(s, FinishJob(s, job, reason))
  {
  }

  lemma StopsEarly(s: Store, job: Job, hasSnapshot: bool)
    requires !IsRunnable(s, job, hasSnapshot)
    ensures var (s', proceed) := BeginJob(s, job, hasSnapshot);
      !proceed && SameLocks(s, s') && StoppedEarly(s, s', job, hasSnapshot, EarlyAnswer(s, job, hasSnapshot))
  {
    FinishGivesUp(s, job, "snapshot_not_found");
    FinishGivesUp(s, job, "user_unavailable");
  }

  lemma GivingUp(s: Store, s3: Store, job: Job, scans: seq<ScanInput>, fallback: ScanInput)
    requires OnlyEvicts(s, s3) && forall scan <- scans :: NonePairable(s, job, scan)
    requires NobodyScored(scans) ==> NonePairable(s, job, fallback)
    ensures JobDid(s, FinishJob(s3, job, FailureReason(scans)), job, scans, fallback,
                   Outcome(NotMatched(FailureReason(scans)), |scans|, NobodyScored(scans)))
  {
    FinishGivesUp(s3, job, FailureReason(scans));
  }

  lemma AfterPasses(s: Store, s2: Store, job: Job, scans: seq<ScanInput>, fallback: ScanInput)
    requires PassesDid(s, job, scans, s2, None, |scans|)
    ensures var (s3, last) := if NobodyScored(scans) then Scan(s2, job, Rank(fallback.scored, fallback.peers), true)
                              else (s2, None);
      if last.Some? then JobDid(s, s3, job, scans, fallback, Outcome(Proposal(job, last.value, true), |scans|, true))
      else
        JobDid(s, FinishJob(s3, job, FailureReason(scans)), job, scans, fallback,
               Outcome(NotMatched(FailureReason(scans)), |scans|, NobodyScored(scans)))
  {
    if NobodyScored(scans) {
      FallbackOutcome(s, s2, job, fallback);
      var (s3, last) := Scan(s2, job, Rank(fallback.scored, fallback.peers), true);
      if last.None? {
        GivingUp(s, s3, job, scans, fallback);
      }
    } else {
      GivingUp(s, s2, job, scans, fallback);
    }
  }

  // ---------- a job is a run of the protocol ----------

  function PassEvents(s: Store, job: Job, scans: seq<ScanInput>): seq<Event>
    decreases |scans|
  {
    if scans == [] then []
    else
      var cands := Rank(scans[0].scored, scans[0].peers);
      var (s1, paired) := Scan(s, job, cands, false);
      [Pass(cands, false)] + if paired.Some? then [] else PassEvents(s1, job, scans[1..])
  }

  /** The worker events that make up one job. */
  function JobEvents(s: Store, job: Job, hasSnapshot: bool, scans: seq<ScanInput>, fallback: ScanInput): seq<Event> {
    var (s1, proceed) := BeginJob(s, job, hasSnapshot);
    if !proceed then [Begin(hasSnapshot)]
    else
      var (s2, paired, n) := Passes(s1, job, scans);
      [Begin(hasSnapshot)] + PassEvents(s1, job, scans) +
      (if paired.Some? then [] else FallbackEvents(s2, job, scans, fallback))
  }

  function FallbackEvents(s: Store, job: Job, scans: seq<ScanInput>, fallback: ScanInput): seq<Event> {
    var cands := Rank(fallback.scored, fallback.peers);
    if !NobodyScored(scans) then [Finish(FailureReason(scans))]
    else [Pass(cands, true)] + if Scan(s, job, cands, true).1.Some? then [] else [Finish(FailureReason(scans))]
  }

  lemma {:induction false} PassesAreRun(s: Store, job: Job, scans: seq<ScanInput>)
    ensures var (s', paired, n) := Passes(s, job, scans);
      Run(System(s, Some(job)), PassEvents(s, job, scans)) == System(s', if paired.Some? then None else Some(job))
    decreases |scans|
  {
    if scans != [] {
      var cands := Rank(scans[0].scored, scans[0].peers);
      var (s1, paired) := Scan(s, job, cands, false);
      var rest := if paired.Some? then [] else PassEvents(s1, job, scans[1..]);
      RunConcat(System(s, Some(job)), [Pass(cands, false)], rest);
      RunOne(System(s, Some(job)), Pass(cands, false));
      if paired.None? {
        PassesAreRun(s1, job, scans[1..]);
      }
    }
  }

  lemma FallbackIsRun(s: Store, job: Job, scans: seq<ScanInput>, fallback: ScanInput)
    ensures var (s3, last) := if NobodyScored(scans) then Scan(s, job, Rank(fallback.scored, fallback.peers), true)
                              else (s, None);
      Run(System(s, Some(job)), FallbackEvents(s, job, scans, fallback))
        == System(if last.Some? then s3 else FinishJob(s3, job, FailureReason(scans)), None)
  {
    var m, cands, finish := System(s, Some(job)), Rank(fallback.scored, fallback.peers), Finish(FailureReason(scans));
    if NobodyScored(scans) {
      var (s3, last) := Scan(s, job, cands, true);
      RunOne(m, Pass(cands, true));
      RunConcat(m, [Pass(cands, true)], if last.Some? then [] else [finish]);
      RunOne(System(s3, Some(job)), finish);
    } else {
      RunOne(m, finish);
    }
  }

  /** A job without interruption is one of the runs of the protocol, so whatever holds of every run holds of it. */
  lemma JobIsRun(m: System, hasSnapshot: bool, scans: seq<ScanInput>, fallback: ScanInput)
    requires m.working.None? && m.store.queue != []
    ensures var s, job := m.store.(queue := m.store.queue[1..]), m.store.queue[0];
      Run(m, JobEvents(s, job, hasSnapshot, scans, fallback))
          == System(RunJob(s, job, hasSnapshot, scans, fallback).0, None)
  {
    var s, job := m.store.(queue := m.store.queue[1..]), m.store.queue[0];
    var (s1, proceed) := BeginJob(s, job, hasSnapshot);
    RunOne(m, Begin(hasSnapshot));
    if proceed {
      var (s2, paired, n) := Passes(s1, job, scans);
      var passes := PassEvents(s1, job, scans);
      var rest := if paired.Some? then [] else FallbackEvents(s2, job, scans, fallback);
      RunConcat(m, [Begin(hasSnapshot)] + passes, rest);
      RunConcat(m, [Begin(hasSnapshot)], passes);
      PassesAreRun(s1, job, scans);
      FallbackIsRun(s2, job, scans, fallback);
    }
  }

  lemma {:induction false} WorkerEventsKeepSymmetry(m: System, es: seq<Event>)
    requires Symmetric(m)
    requires forall e :: e in es ==> e.Begin? || e.Pass? || e.Finish?
    ensures Symmetric(Run(m, es))
    decreases |es|
  {
    if es != [] {
      MatchSymmetry.StepKeepsSymmetryIff(m, es[0]);
      WorkerEventsKeepSymmetry(Step(m, es[0]), es[1..]);
    }
  }

  lemma {:induction false} PassEventsArePasses(s: Store, job: Job, scans: seq<ScanInput>)
    ensures forall e :: e in PassEvents(s, job, scans) ==> e.Pass?
    decreases |scans|
  {
    if scans != [] {
      PassEventsArePasses(Scan(s, job, Rank(scans[0].scored, scans[0].peers), false).0, job, scans[1..]);
    }
  }

  /** A whole job never breaks the symmetry of proposals. */
  lemma JobKeepsSymmetry(m: System, hasSnapshot: bool, scans: seq<ScanInput>, fallback: ScanInput)
    requires Symmetric(m) && m.working.None? && m.store.queue != []
    ensures var s, job := m.store.(queue := m.store.queue[1..]), m.store.queue[0];
      Symmetric(System(RunJob(s, job, hasSnapshot, scans, fallback).0, None))
  {
    var s, job := m.store.(queue := m.store.queue[1..]), m.store.queue[0];
    JobIsRun(m, hasSnapshot, scans, fallback);
    PassEventsArePasses(BeginJob(s, job, hasSnapshot).0, job, scans);
    WorkerEventsKeepSymmetry(m, JobEvents(s, job, hasSnapshot, scans, fallback));
  }

  /** The job in progress, if any, hides no other search of its user. */
  predicate IsCurrent(m: System) {
    m.working.Some? ==> !MatchActive.IsOutdated(m.store, m.working.value)
  }

  lemma WorkerStepKeepsOneActive(m: System, e: Event)
    requires MatchActive.Core(m) && MatchActive.OneActive(m) && IsCurrent(m) && (e.Begin? || e.Pass? || e.Finish?)
    ensures MatchActive.OneActive(Step(m, e)) && IsCurrent(Step(m, e))
  {
    MatchActive.StepKeepsOneActiveIff(m, e);
    if e.Begin? && m.working.None? && Step(m, e).working.Some? {
      var r := m.store.queue[0].requestId;
      assert m.store.queue[0] in m.store.queue;
      assert MatchActive.Leads(m.store.attempts[r], r, m.store.last);
    }
  }

  lemma {:induction false} WorkerEventsKeepOneActive(m: System, es: seq<Event>)
    requires MatchActive.Core(m) && MatchActive.OneActive(m) && IsCurrent(m)
    requires forall e :: e in es ==> e.Begin? || e.Pass? || e.Finish?
    ensures MatchActive.OneActive(Run(m, es))
    decreases |es|
  {
    if es != [] {
      MatchActive.StepKeepsCore(m, es[0]);
      WorkerStepKeepsOneActive(m, es[0]);
      WorkerEventsKeepOneActive(Step(m, es[0]), es[1..]);
    }
  }

  /** A whole job leaves at most the last attempt of every user active: it takes an interruption to break that. */
  lemma JobKeepsOneActive(m: System, hasSnapshot: bool, scans: seq<ScanInput>, fallback: ScanInput)
    requires MatchActive.Core(m) && MatchActive.OneActive(m) && m.working.None? && m.store.queue != []
    ensures var s, job := m.store.(queue := m.store.queue[1..]), m.store.queue[0];
      MatchActive.OneActive(System(RunJob(s, job, hasSnapshot, scans, fallback).0, None))
  {
    var s, job := m.store.(queue := m.store.queue[1..]), m.store.queue[0];
    JobIsRun(m, hasSnapshot, scans, fallback);
    PassEventsArePasses(BeginJob(s, job, hasSnapshot).0, job, scans);
    WorkerEventsKeepOneActive(m, JobEvents(s, job, hasSnapshot, scans, fallback));
  }
}
