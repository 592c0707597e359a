/**
 * The matching service as functions on the values that it keeps in Redis: one function
 * for every service call and one for every handler. No key expires inside a handler.
 */
module MatchModel {
  import opened RedisKeys
  import opened Ranking
  import opened Types

  datatype UserState = Searching | Locked | InRoom

  datatype Status = Seeking | Proposed | Matched | Ended

  datatype Attempt = Attempt(
    userId: Id, status: Status, peer: Option<Id>, roomId: Option<Id>,
    matchScore: Option<real>, isFallback: bool, reason: Option<string>)

  datatype Pending = Pending(
    userLow: Id, userHigh: Id, attemptLow: Id, attemptHigh: Id,
    matchScore: real, isFallback: bool, roomAttemptId: Id,
    connectLow: bool, connectHigh: bool)

  datatype Job = Job(userId: Id, requestId: Id)

  datatype Store = Store(
    userLock: map<Id, Id>,
    pairLock: map<Pair, Id>,
    userState: map<Id, UserState>,
    pending: map<Pair, Pending>,
    finalize: set<Pair>,
    attempts: map<Id, Attempt>,
    last: map<Id, Id>,
    pool: set<Id>,
    queue: seq<Job>,
    roomCalls: seq<Id>)

  const EMPTY := Store(map[], map[], map[], map[], {}, map[], map[], {}, [], [])

  datatype FindMatchResult =
    | MatchedWith(roomId: Id, peer: Id, matchScore: real)
    | ProposedTo(requestId: Id, peer: Id, matchScore: real, isFallback: bool)
    | StillSearching(requestId: Id)
    | NotMatched(reason: string)

  datatype Decision = Connect | Skip

  datatype RespondResult = Ok | InvalidAttempt | NotInProposal | ProposalExpired | RoomCreateFailed

  // ---------- attempts ----------

  function ToResult(a: Attempt, attemptId: Id): FindMatchResult {
    var score := if a.matchScore.Some? then a.matchScore.value else 0.0;
    if a.status == Matched && a.roomId.Some? && a.peer.Some? then MatchedWith(a.roomId.value, a.peer.value, score)
    else if a.status == Proposed && a.peer.Some? then ProposedTo(attemptId, a.peer.value, score, a.isFallback)
    else if a.status == Ended then NotMatched(if a.reason.Some? then a.reason.value else "no_match")
    else StillSearching(attemptId)
  }

  /** The hash that a partial write starts from: fields that it does not name keep their old values. */
  function Fields(s: Store, a: Id, u: Id): Attempt {
    if a in s.attempts then s.attempts[a].(userId := u)
    else Attempt(u, Seeking, None, None, None, false, None)
  }

  function WriteAttempt(s: Store, a: Id, x: Attempt): Store {
    s.(attempts := s.attempts[a := x], last := s.last[x.userId := a])
  }

  function SetSearching(s: Store, a: Id, u: Id): Store {
    WriteAttempt(s, a, Fields(s, a, u).(status := Seeking))
  }

  function MarkProposed(s: Store, a: Id, u: Id, peer: Id, score: real, isFallback: bool): Store {
    WriteAttempt(s, a,
        Fields(s, a, u).(status := Proposed, peer := Some(peer), matchScore := Some(score), isFallback := isFallback))
  }

  function MarkMatched(s: Store, a: Id, u: Id, peer: Id, room: Id, score: real): Store {
    WriteAttempt(s, a,
        Fields(s, a, u).(status := Matched, peer := Some(peer), roomId := Some(room), matchScore := Some(score)))
  }

  function MarkNoMatch(s: Store, a: Id, u: Id, reason: string): Store {
    WriteAttempt(s, a, Fields(s, a, u).(status := Ended, reason := Some(reason)))
  }

  // ---------- pool ----------

  function StripFromPool(s: Store, u: Id): Store {
    s.(pool := s.pool - {u})
  }

  function EnqueueInPool(s: Store, u: Id): Store {
    s.(pool := s.pool + {u}, userState := s.userState[u := Searching])
  }

  function RemoveFromPool(s: Store, u: Id): Store {
    StripFromPool(s, u).(userState := s.userState - {u})
  }

  // ---------- pair locks ----------

  predicate InState(s: Store, u: Id, state: UserState) {
    u in s.userState && s.userState[u] == state
  }

  /** Exactly when the lock script answers 1. */
  predicate CanLock(s: Store, a: Id, b: Id) {
    && a != b
    && PairOf(a, b) !in s.pairLock
    && a !in s.userLock && b !in s.userLock
    && InState(s, a, Searching) && InState(s, b, Searching)
  }

  function WithLock(s: Store, a: Id, b: Id, r: Id): Store {
    s.(userLock := s.userLock[a := r][b := r],
       pairLock := s.pairLock[PairOf(a, b) := r],
       userState := s.userState[a := Locked][b := Locked])
  }

  function ReleasePair(s: Store, a: Id, b: Id): Store {
    s.(userLock := s.userLock - {a, b},
       pairLock := s.pairLock - {PairOf(a, b)},
       userState := s.userState[a := Searching][b := Searching])
  }

  // ---------- proposals ----------

  function DeletePending(s: Store, a: Id, b: Id): Store {
    s.(pending := s.pending - {PairOf(a, b)}, finalize := s.finalize - {PairOf(a, b)})
  }

  /** The attempt of user `u` in a proposal. */
  function SideAttempt(p: Pending, u: Id): Id {
    if u == p.userLow then p.attemptLow else p.attemptHigh
  }

  function SetConnect(p: Pending, low: bool): Pending {
    if low then p.(connectLow := true) else p.(connectHigh := true)
  }

  /** The connect script on a proposal that exists: 0 wait, 1 the other call creates the room, 2 this one does. */
  function RecordConnect(s: Store, k: Pair, u: Id): (Store, nat)
    requires k in s.pending
  {
    var p := SetConnect(s.pending[k], u == k.low);
    var s' := s.(pending := s.pending[k := p]);
    if !(p.connectLow && p.connectHigh) then (s', 0)
    else if k in s.finalize then (s', 1)
    else (s'.(finalize := s.finalize + {k}), 2)
  }

  // ---------- startFindMatch ----------

  function Coalesce(s: Store, u: Id): Option<FindMatchResult> {
    if u !in s.last || s.last[u] !in s.attempts then None
    else
      var a := s.attempts[s.last[u]];
      if a.status == Seeking then Some(StillSearching(s.last[u]))
      else if a.status == Proposed && a.peer.Some? then Some(ToResult(a, s.last[u]))
      else None
  }

  function CommitSearching(s: Store, job: Job): Store {
    var s1 := EnqueueInPool(SetSearching(s, job.requestId, job.userId), job.userId);
    s1.(queue := s1.queue + [job])
  }

  function Refuse(s: Store, job: Job, reason: string): (Store, FindMatchResult) {
    (MarkNoMatch(s, job.requestId, job.userId, reason), NotMatched(reason))
  }

  /** What a call does that is free to search: join what is active, or else begin. */
  function JoinOrCommit(s: Store, job: Job): (Store, FindMatchResult) {
    match Coalesce(s, job.userId)
    case Some(res) => (s, res)
    case None => (CommitSearching(s, job), StillSearching(job.requestId))
  }

  function StartFindMatch(s: Store, job: Job, hasSnapshot: bool): (Store, FindMatchResult) {
    var u := job.userId;
    if job.requestId in s.attempts then (s, ToResult(s.attempts[job.requestId], job.requestId))
    else if !hasSnapshot then Refuse(s, job, "snapshot_not_found")
    else if InState(s, u, Locked) then
      if u in s.last && s.last[u] in s.attempts && s.attempts[s.last[u]].status == Proposed
          && s.attempts[s.last[u]].peer.Some?
      then (s, ToResult(s.attempts[s.last[u]], s.last[u]))
      else Refuse(s, job, "user_unavailable")
    else if InState(s, u, InRoom) then Refuse(s, job, "user_unavailable")
    else JoinOrCommit(s, job)
  }

  /** The first checks of a start let it go on, and it finds nothing active to join. */
  predicate MayCommit(s: Store, job: Job, hasSnapshot: bool) {
    && job.requestId !in s.attempts && hasSnapshot
    && !InState(s, job.userId, Locked) && !InState(s, job.userId, InRoom) && Coalesce(s, job.userId).None?
  }

  // ---------- processMatchRequest ----------

  /** The lock is free and the peer's last attempt is another one, its own, and still searching. */
  predicate Pairable(s: Store, job: Job, c: Id) {
    && CanLock(s, job.userId, c)
    && c in s.last && s.last[c] != job.requestId && s.last[c] in s.attempts
    && s.attempts[s.last[c]].userId == c && s.attempts[s.last[c]].status == Seeking
  }

  /** A lockable candidate without any attempt: the one kind that a scan evicts from the pool. */
  predicate Stale(s: Store, job: Job, c: Id) {
    CanLock(s, job.userId, c) && c !in s.last
  }

  function EvictStale(s: Store, job: Job, tried: seq<Candidate>): Store {
    s.(pool := s.pool - (set c <- tried | Stale(s, job, c.userId) :: c.userId))
  }

  /** Index of the first candidate that can be paired, or the length of the list. */
  function FirstPairable(s: Store, job: Job, cands: seq<Candidate>): (i: nat)
    ensures i <= |cands|
    ensures i < |cands| ==> Pairable(s, job, cands[i].userId)
    ensures forall j :: 0 <= j < i ==> !Pairable(s, job, cands[j].userId)
  {
    if cands == [] then 0
    else if Pairable(s, job, cands[0].userId) then 0
    else 1 + FirstPairable(s, job, cands[1..])
  }

  function NewPending(job: Job, c: Candidate, peerAttempt: Id, isFallback: bool): Pending {
    var k := PairOf(job.userId, c.userId);
    Pending(k.low, k.high,
            if k.low == job.userId then job.requestId else peerAttempt,
            if k.high == job.userId then job.requestId else peerAttempt,
            c.matchScore, isFallback, job.requestId, false, false)
  }

  /** Everything a successful pairing writes: three locks, both states, the pending record, both attempts. */
  function Propose(s: Store, job: Job, c: Candidate, isFallback: bool): Store
    requires Pairable(s, job, c.userId)
  {
    var k := PairOf(job.userId, c.userId);
    var peerAttempt := s.last[c.userId];
    var s1 := WithLock(s, job.userId, c.userId, job.requestId);
    var s2 := s1.(pending := s1.pending[k := NewPending(job, c, peerAttempt, isFallback)]);
    var s3 := MarkProposed(s2, job.requestId, job.userId, c.userId, c.matchScore, isFallback);
    MarkProposed(s3, peerAttempt, c.userId, job.userId, c.matchScore, isFallback)
  }

  /** One pass over a ranked list: pair with the first candidate that can be paired, evicting stale ones before it. */
  function Scan(s: Store, job: Job, cands: seq<Candidate>, isFallback: bool): (Store, Option<Candidate>) {
    var i := FirstPairable(s, job, cands);
    var s' := EvictStale(s, job, cands[..i]);
    if i == |cands| then (s', None)
    else (Propose(s', job, cands[i], isFallback), Some(cands[i]))
  }

  /** The checks before the first pass; the flag says whether the job goes on to scan. */
  function BeginJob(s: Store, job: Job, hasSnapshot: bool): (Store, bool) {
    if job.requestId !in s.attempts || s.attempts[job.requestId].status != Seeking then (s, false)
    else if !hasSnapshot then (FinishJob(s, job, "snapshot_not_found"), false)
    else if InState(s, job.userId, InRoom) then (FinishJob(s, job, "user_unavailable"), false)
    else if InState(s, job.userId, Locked) then (s, false)
    else (s, true)
  }

  function FinishJob(s: Store, job: Job, reason: string): Store {
    RemoveFromPool(MarkNoMatch(s, job.requestId, job.userId, reason), job.userId)
  }

  // ---------- respondToMatchProposal, cancelMatch, leaveRoom ----------

  function EndBoth(s: Store, p: Pending, reasonLow: string, reasonHigh: string): Store {
    var s1 := DeletePending(s, p.userLow, p.userHigh);
    var s2 := ReleasePair(s1, p.userLow, p.userHigh);
    var s3 := MarkNoMatch(s2, p.attemptLow, p.userLow, reasonLow);
    MarkNoMatch(s3, p.attemptHigh, p.userHigh, reasonHigh)
  }

  function MarkPairInRoom(s: Store, a: Id, b: Id): Store {
    s.(pool := s.pool - {a, b},
       userLock := s.userLock - {a, b},
       pairLock := s.pairLock - {PairOf(a, b)},
       userState := s.userState[a := InRoom][b := InRoom])
  }

  function EnterRoom(s: Store, p: Pending, room: Id): Store {
    var s1 := MarkPairInRoom(s, p.userLow, p.userHigh);
    var s2 := MarkMatched(s1, p.attemptLow, p.userLow, p.userHigh, room, p.matchScore);
    var s3 := MarkMatched(s2, p.attemptHigh, p.userHigh, p.userLow, room, p.matchScore);
    DeletePending(s3, p.userLow, p.userHigh)
  }

  /** The call that completes a proposal has been elected, and asks the room service. */
  function Elect(s: Store, k: Pair, u: Id): Store
    requires k in s.pending
  {
    var s1 := RecordConnect(s, k, u).0;
    s1.(roomCalls := s1.roomCalls + [s.pending[k].roomAttemptId])
  }

  /** The answer of the room service has arrived, and the record `p` that the call read at first is acted on. */
  function Land(s: Store, p: Pending, room: Option<Id>): Store {
    match room
    case None => EndBoth(s, p, "room_create_failed", "room_create_failed")
    case Some(id) => EnterRoom(s, p, id)
  }

  /** Ends a proposal because user `u` has skipped it. */
  function EndBySkip(s: Store, p: Pending, u: Id): Store {
    EndBoth(s, p, if u == p.userLow then "you_skipped" else "peer_skipped",
                  if u == p.userHigh then "you_skipped" else "peer_skipped")
  }

  /** Ends a proposal because user `u` has cancelled. */
  function EndByCancel(s: Store, p: Pending, u: Id): Store {
    EndBoth(s, p, if u == p.userLow then "cancelled_by_user" else "proposal_peer_cancelled",
                  if u == p.userHigh then "cancelled_by_user" else "proposal_peer_cancelled")
  }

  /** `room` is the answer of the room service, should this call be the one that asks it. */
  function Respond(s: Store, u: Id, a: Id, decision: Decision, room: Option<Id>): (Store, RespondResult) {
    if a !in s.attempts || s.attempts[a].userId != u then (s, InvalidAttempt)
    else if s.attempts[a].status != Proposed || s.attempts[a].peer.None? then (s, NotInProposal)
    else
      var k := PairOf(u, s.attempts[a].peer.value);
      if k !in s.pending then (s, ProposalExpired)
      else
        var p := s.pending[k];
        if decision == Skip then (EndBySkip(s, p, u), Ok)
        else if RecordConnect(s, k, u).1 != 2 then (RecordConnect(s, k, u).0, Ok)
        else (Land(Elect(s, k, u), p, room), if room.Some? then Ok else RoomCreateFailed)
  }

  function CancelMatch(s: Store, u: Id): Store {
    var s1 := RemoveFromPool(s, u);
    if u !in s.last then s1
    else
      var r := s.last[u];
      if r in s.attempts && s.attempts[r].status == Proposed && s.attempts[r].peer.Some?
          && PairOf(u, s.attempts[r].peer.value) in s.pending then
        EndByCancel(s1, s.pending[PairOf(u, s.attempts[r].peer.value)], u)
      else MarkNoMatch(s1, r, u, "cancelled_by_user")
  }

  function LeaveRoom(s: Store, u: Id): Store {
    var s1 :=
      if u in s.last && s.last[u] in s.attempts && s.attempts[s.last[u]].status == Matched
      then MarkNoMatch(s, s.last[u], u, "left_room") else s;
    StripFromPool(s1, u).(userLock := s1.userLock - {u}, userState := s1.userState - {u})
  }

  // ---------- runs ----------

  /** The store and the job that the single worker is busy with, if any. */
  datatype System = System(store: Store, working: Option<Job>)

  /**
   * One atomic step. A worker job is split at its passes, so that handlers may run
   * between any two of them; the last two kinds are keys whose time to live has run out.
   */
  datatype Event =
    | Start(job: Job, hasSnapshot: bool)
    | Begin(hasSnapshot: bool)
    | Pass(cands: seq<Candidate>, isFallback: bool)
    | Finish(reason: string)
    | RespondTo(user: Id, attempt: Id, decision: Decision, room: Option<Id>)
    | Cancel(user: Id)
    | Leave(user: Id)
    | RoomStateExpires(user: Id)
    | LocksExpire(pair: Pair)
    | PendingExpires(pair: Pair)

  /** An event that is not enabled leaves the system as it is. */
  function Step(m: System, e: Event): System {
    var s := m.store;
    match e
    case Start(job, hasSnapshot) => m.(store := StartFindMatch(s, job, hasSnapshot).0)
    case Begin(hasSnapshot) =>
      if m.working.Some? || s.queue == [] then m
      else
        var (s', proceed) := BeginJob(s.(queue := s.queue[1..]), s.queue[0], hasSnapshot);
        System(s', if proceed then Some(s.queue[0]) else None)
    case Pass(cands, isFallback) =>
      if m.working.None? then m
      else
        var (s', paired) := Scan(s, m.working.value, cands, isFallback);
        System(s', if paired.Some? then None else m.working)
    case Finish(reason) =>
      if m.working.None? then m else System(FinishJob(s, m.working.value, reason), None)
    case RespondTo(u, a, decision, room) => m.(store := Respond(s, u, a, decision, room).0)
    case Cancel(u) => m.(store := CancelMatch(s, u))
    case Leave(u) => m.(store := LeaveRoom(s, u))
    case RoomStateExpires(u) => if InState(s, u, InRoom) then m.(store := s.(userState := s.userState - {u})) else m
    case LocksExpire(k) =>
      if k !in s.pairLock then m
      else m.(store := s.(pairLock := s.pairLock - {k}, userLock := s.userLock - {k.low, k.high}))
    case PendingExpires(k) => m.(store := s.(pending := s.pending - {k}))
  }

  function Run(m: System, es: seq<Event>): System
    decreases |es|
  {
    if es == [] then m else Run(Step(m, es[0]), es[1..])
  }

  const INITIAL := System(EMPTY, None)
}
