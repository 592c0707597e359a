/** What the handlers write and answer, on the fields of the store and with the literal reasons. */
module MatchEffects {
  import opened RedisKeys
  import opened Ranking
  import opened MatchModel
  import opened Types
  import opened MatchInvariants

  // ---------- answers that report an attempt ----------

  /** The answer says what the fields of attempt `a` say; fields that are missing have their defaults. */
  predicate Reports(res: FindMatchResult, a: Id, x: Attempt) {
    match res
    case MatchedWith(roomId, peer, score) =>
      x.status == Matched && x.roomId == Some(roomId) && x.peer == Some(peer) && IsScore(score, x.matchScore)
    case ProposedTo(requestId, peer, score, isFallback) =>
      && requestId == a && x.status == Proposed && x.peer == Some(peer)
      && IsScore(score, x.matchScore) && isFallback == x.isFallback
    case NotMatched(reason) =>
      x.status == Ended && (x.reason == Some(reason) || (x.reason.None? && reason == "no_match"))
    case StillSearching(requestId) =>
      && requestId == a && x.status != Ended
      && (x.status == Proposed ==> x.peer.None?)
      && (x.status == Matched ==> x.peer.None? || x.roomId.None?)
  }

  predicate IsScore(score: real, stored: Option<real>) {
    stored == Some(score) || (stored.None? && score == 0.0)
  }

  /** There is one such answer. */
  lemma ReportIsUnique(r: FindMatchResult, q: FindMatchResult, a: Id, x: Attempt)
    requires Reports(r, a, x) && Reports(q, a, x)
    ensures r == q
  {
  }

  /** A repeated request id is answered from its attempt, and nothing is written. */
  lemma RepeatedStart(s: Store, job: Job, hasSnapshot: bool)
    requires job.requestId in s.attempts
    ensures var (s', res) := StartFindMatch(s, job, hasSnapshot);
      s' == s && Reports(res, job.requestId, s.attempts[job.requestId])
  {
  }

  // ---------- starts ----------

  /** The user's last attempt is searching, or proposed to someone. */
  predicate IsJoinable(s: Store, u: Id) {
    && u in s.last && s.last[u] in s.attempts
    && (s.attempts[s.last[u]].status == Seeking
        || (s.attempts[s.last[u]].status == Proposed && s.attempts[s.last[u]].peer.Some?))
  }

  /** A new start that finds the user's last attempt active answers with that one, and writes nothing. */
  lemma JoiningStart(s: Store, job: Job)
    requires job.requestId !in s.attempts && IsJoinable(s, job.userId) && !InState(s, job.userId, InRoom)
    requires InState(s, job.userId, Locked) ==> s.attempts[s.last[job.userId]].status == Proposed
    ensures var (s', res) := StartFindMatch(s, job, true);
      && s' == s && Reports(res, s.last[job.userId], s.attempts[s.last[job.userId]])
      && (res.ProposedTo? || res.StillSearching?)
  {
  }

  /** Without a snapshot, in a room, or locked without a proposal, the new attempt ends at once, with the reason. */
  lemma RefusedStart(s: Store, job: Job, hasSnapshot: bool)
    requires job.requestId !in s.attempts
    requires !hasSnapshot || InState(s, job.userId, InRoom)
      || (InState(s, job.userId, Locked)
          && (IsJoinable(s, job.userId) ==> s.attempts[s.last[job.userId]].status == Seeking))
    ensures var reason := if hasSnapshot then "user_unavailable" else "snapshot_not_found";
      StartFindMatch(s, job, hasSnapshot) ==
        (s.(attempts := s.attempts[job.requestId := Attempt(job.userId, Ended, None, None, None, false, Some(reason))],
            last := s.last[job.userId := job.requestId]), NotMatched(reason))
  {
  }

  /** Any other new start begins a search: an attempt, a place in the pool, a state and a job. */
  lemma CommittingStart(s: Store, job: Job)
    requires job.requestId !in s.attempts && !IsJoinable(s, job.userId)
    requires !InState(s, job.userId, InRoom) && !InState(s, job.userId, Locked)
    ensures StartFindMatch(s, job, true) ==
        (s.(attempts := s.attempts[job.requestId := Attempt(job.userId, Seeking, None, None, None, false, None)],
            last := s.last[job.userId := job.requestId], pool := s.pool + {job.userId},
            userState := s.userState[job.userId := Searching], queue := s.queue + [job]),
         StillSearching(job.requestId))
  {
  }

  // ---------- pairing ----------

  /** `a` is the attempt of `u` in the record, and `b` that of `v`. */
  predicate Sides(p: Pending, u: Id, v: Id, a: Id, b: Id) {
    || (p.userLow == u && p.userHigh == v && p.attemptLow == a && p.attemptHigh == b)
    || (p.userLow == v && p.userHigh == u && p.attemptLow == b && p.attemptHigh == a)
  }

  /** A proposal to a candidate: locks under the job's request id, the record, and an attempt on either side. */
  lemma ProposalWrites(s: Store, job: Job, c: Candidate, isFallback: bool)
    requires Pairable(s, job, c.userId) && Belongs(s.attempts, job.requestId, job.userId)
    ensures var u, v, r, q, k := job.userId, c.userId, job.requestId, s.last[c.userId], PairOf(job.userId, c.userId);
      var s' := Propose(s, job, c, isFallback);
      && k in s'.pending && Sides(s'.pending[k], u, v, r, q) && s'.pending[k].roomAttemptId == r
      && s'.pending[k].matchScore == c.matchScore && s'.pending[k].isFallback == isFallback
      && !s'.pending[k].connectLow && !s'.pending[k].connectHigh
      && s' == s.(
           userLock := s.userLock[u := r][v := r], pairLock := s.pairLock[k := r],
           userState := s.userState[u := Locked][v := Locked], pending := s.pending[k := s'.pending[k]],
           attempts := s.attempts
             [r := s.attempts[r].(status := Proposed, peer := Some(v), matchScore := Some(c.matchScore),
                                  isFallback := isFallback)]
             [q := s.attempts[q].(status := Proposed, peer := Some(u), matchScore := Some(c.matchScore),
                                  isFallback := isFallback)],
           last := s.last[u := r][v := q])
  {
    PairOfSymmetric(job.userId, c.userId);
  }

  /** Two different users, both unlocked and searching, and no lock on the pair. */
  predicate AreLockable(s: Store, u: Id, c: Id) {
    && c != u && c !in s.userLock && u !in s.userLock && PairOf(u, c) !in s.pairLock
    && InState(s, c, Searching) && InState(s, u, Searching)
  }

  /** The candidate's last attempt is theirs, is still searching, and is not the job's own. */
  predicate IsSearching(s: Store, r: Id, c: Id) {
    && c in s.last && s.last[c] != r && s.last[c] in s.attempts
    && s.attempts[s.last[c]].userId == c && s.attempts[s.last[c]].status == Seeking
  }

  predicate MayBePaired(s: Store, job: Job, c: Id) {
    AreLockable(s, job.userId, c) && IsSearching(s, job.requestId, c)
  }

  /** A scan pairs the first candidate that can be locked and is still searching, if there is one. */
  lemma ScanPairsFirst(s: Store, job: Job, cands: seq<Candidate>, isFallback: bool)
    ensures var paired := Scan(s, job, cands, isFallback).1;
      match paired
      case None => forall c <- cands :: !MayBePaired(s, job, c.userId)
      case Some(d) =>
        exists i :: 0 <= i < |cands| && cands[i] == d && MayBePaired(s, job, d.userId)
          && forall j :: 0 <= j < i ==> !MayBePaired(s, job, cands[j].userId)
  {
    var i := FirstPairable(s, job, cands);
    assert forall j :: 0 <= j < i ==> !Pairable(s, job, cands[j].userId);
    assert forall c: Id :: Pairable(s, job, c) <==> MayBePaired(s, job, c);
  }

  lemma EvictionIs(s: Store, job: Job, tried: seq<Candidate>, c: Id)
    ensures c in EvictStale(s, job, tried).pool <==>
      c in s.pool && !(AreLockable(s, job.userId, c) && c !in s.last && exists d <- tried :: d.userId == c)
  {
    assert Stale(s, job, c) <==> AreLockable(s, job.userId, c) && c !in s.last;
  }

  /** It evicts exactly the lockable candidates before that one which have no attempt at all. */
  lemma ScanEvicts(s: Store, job: Job, cands: seq<Candidate>, isFallback: bool, c: Id)
    ensures var i := FirstPairable(s, job, cands);
      c in Scan(s, job, cands, isFallback).0.pool <==>
        c in s.pool && !(AreLockable(s, job.userId, c) && c !in s.last && exists d <- cands[..i] :: d.userId == c)
  {
    var i := FirstPairable(s, job, cands);
    EvictionIs(s, job, cands[..i], c);
    if i < |cands| {
      ProposeKeepsPool(EvictStale(s, job, cands[..i]), job, cands[i], isFallback);
    }
  }

  lemma ProposeKeepsPool(s: Store, job: Job, c: Candidate, isFallback: bool)
    requires Pairable(s, job, c.userId)
    ensures Propose(s, job, c, isFallback).pool == s.pool
  {
  }

  /** A job that gives up ends its attempt with the reason, and takes its user out of the pool. */
  lemma FinishWrites(s: Store, job: Job, reason: string)
    requires Belongs(s.attempts, job.requestId, job.userId)
    ensures FinishJob(s, job, reason) ==
      s.(attempts := s.attempts
           [job.requestId := s.attempts[job.requestId].(status := Ended, reason := Some(reason))],
         last := s.last[job.userId := job.requestId],
         pool := s.pool - {job.userId}, userState := s.userState - {job.userId})
  {
  }

  // ---------- answers to a proposal ----------

  /** The three refusals, and that they write nothing. */
  lemma RefusedAnswer(s: Store, u: Id, a: Id, decision: Decision, room: Option<Id>)
    ensures var (s', res) := Respond(s, u, a, decision, room);
      && (res == InvalidAttempt <==> a !in s.attempts || s.attempts[a].userId != u)
      && (res == NotInProposal <==>
            Belongs(s.attempts, a, u) && !(s.attempts[a].status == Proposed && s.attempts[a].peer.Some?))
      && (res == ProposalExpired <==>
            && Belongs(s.attempts, a, u) && s.attempts[a].status == Proposed && s.attempts[a].peer.Some?
            && PairOf(u, s.attempts[a].peer.value) !in s.pending)
      && (res in {InvalidAttempt, NotInProposal, ProposalExpired} ==> s' == s)
  {
  }

  /** The proposal of two users ends with these reasons: record and locks gone, both searching again. */
  predicate EndsWith(s: Store, s': Store, u: Id, v: Id, a: Id, b: Id, reasonU: string, reasonV: string) {
    && a in s.attempts && b in s.attempts
    && s' == s.(
         userLock := s.userLock - {u, v}, pairLock := s.pairLock - {PairOf(u, v)},
         userState := s.userState[u := Searching][v := Searching],
         pending := s.pending - {PairOf(u, v)}, finalize := s.finalize - {PairOf(u, v)},
         attempts := s.attempts[a := s.attempts[a].(status := Ended, reason := Some(reasonU))]
                               [b := s.attempts[b].(status := Ended, reason := Some(reasonV))],
         last := s.last[u := a][v := b])
  }

  /** The two enter the room: out of the pool, unlocked, in the room, each attempt matched with the other user. */
  predicate EntersWith(s: Store, s': Store, u: Id, v: Id, a: Id, b: Id, room: Id, score: real) {
    && a in s.attempts && b in s.attempts
    && s' == s.(
         pool := s.pool - {u, v}, userLock := s.userLock - {u, v}, pairLock := s.pairLock - {PairOf(u, v)},
         userState := s.userState[u := InRoom][v := InRoom],
         pending := s.pending - {PairOf(u, v)}, finalize := s.finalize - {PairOf(u, v)},
         attempts := s.attempts
           [a := s.attempts[a].(status := Matched, peer := Some(v), roomId := Some(room), matchScore := Some(score))]
           [b := s.attempts[b].(status := Matched, peer := Some(u), roomId := Some(room), matchScore := Some(score))],
         last := s.last[u := a][v := b])
  }

  /** The record's attempts are those of two different users. */
  predicate IsOf(s: Store, p: Pending, u: Id, v: Id, a: Id, b: Id) {
    u != v && Sides(p, u, v, a, b) && Belongs(s.attempts, a, u) && Belongs(s.attempts, b, v)
  }

  lemma Commute<K, V>(m: map<K, V>, i: K, x: V, j: K, y: V)
    requires i != j
    ensures m[i := x][j := y] == m[j := y][i := x]
  {
  }

  /** It does not matter which of the two users is named first. */
  lemma EndsEitherWay(s: Store, s': Store, u: Id, v: Id, a: Id, b: Id, reasonU: string, reasonV: string)
    requires u != v && a != b && EndsWith(s, s', v, u, b, a, reasonV, reasonU)
    ensures EndsWith(s, s', u, v, a, b, reasonU, reasonV)
  {
    PairOfSymmetric(u, v);
    Commute(s.userState, u, Searching, v, Searching);
    Commute(s.attempts, a, s'.attempts[a], b, s'.attempts[b]);
    Commute(s.last, u, a, v, b);
    assert {u, v} == {v, u};
  }

  lemma EntersEitherWay(s: Store, s': Store, u: Id, v: Id, a: Id, b: Id, room: Id, score: real)
    requires u != v && a != b && EntersWith(s, s', v, u, b, a, room, score)
    ensures EntersWith(s, s', u, v, a, b, room, score)
  {
    PairOfSymmetric(u, v);
    Commute(s.userState, u, InRoom, v, InRoom);
    Commute(s.attempts, a, s'.attempts[a], b, s'.attempts[b]);
    Commute(s.last, u, a, v, b);
    assert {u, v} == {v, u};
  }

  predicate HasOwners(s: Store, p: Pending) {
    && p.userLow != p.userHigh
    && Belongs(s.attempts, p.attemptLow, p.userLow) && Belongs(s.attempts, p.attemptHigh, p.userHigh)
  }

  lemma LowEndsFirst(s: Store, p: Pending, reasonLow: string, reasonHigh: string)
    requires HasOwners(s, p)
    ensures EndsWith(s, EndBoth(s, p, reasonLow, reasonHigh), p.userLow, p.userHigh, p.attemptLow, p.attemptHigh,
                     reasonLow, reasonHigh)
  {
  }

  lemma LowEntersFirst(s: Store, p: Pending, room: Id)
    requires HasOwners(s, p)
    ensures EntersWith(s, EnterRoom(s, p, room), p.userLow, p.userHigh, p.attemptLow, p.attemptHigh, room,
                       p.matchScore)
  {
  }

  lemma EndBothWrites(s: Store, p: Pending, u: Id, v: Id, a: Id, b: Id, reasonLow: string, reasonHigh: string)
    requires IsOf(s, p, u, v, a, b)
    ensures var (ru, rv) := if u == p.userLow then (reasonLow, reasonHigh) else (reasonHigh, reasonLow);
      EndsWith(s, EndBoth(s, p, reasonLow, reasonHigh), u, v, a, b, ru, rv)
  {
    LowEndsFirst(s, p, reasonLow, reasonHigh);
    if u != p.userLow {
      EndsEitherWay(s, EndBoth(s, p, reasonLow, reasonHigh), u, v, a, b, reasonHigh, reasonLow);
    }
  }

  lemma EnterRoomWrites(s: Store, p: Pending, u: Id, v: Id, a: Id, b: Id, room: Id)
    requires IsOf(s, p, u, v, a, b)
    ensures EntersWith(s, EnterRoom(s, p, room), u, v, a, b, room, p.matchScore)
  {
    LowEntersFirst(s, p, room);
    if u != p.userLow {
      EntersEitherWay(s, EnterRoom(s, p, room), u, v, a, b, room, p.matchScore);
    }
  }

  /** A skip ends both attempts, each with its own reason. */
  lemma SkipWrites(s: Store, u: Id, v: Id, mine: Id, a: Id, b: Id, room: Option<Id>)
    requires Finds(s, u, mine, PairOf(u, v)) && IsOf(s, s.pending[PairOf(u, v)], u, v, a, b)
    ensures var (s', res) := Respond(s, u, mine, Skip, room);
      res == Ok && EndsWith(s, s', u, v, a, b, "you_skipped", "peer_skipped")
  {
    var p := s.pending[PairOf(u, v)];
    SkipIs(s, PairOf(u, v), u, mine, room);
    EndBothWrites(s, p, u, v, a, b, if u == p.userLow then "you_skipped" else "peer_skipped",
                                    if u == p.userHigh then "you_skipped" else "peer_skipped");
  }

  /** A cancel by a user in a proposal takes them out of the pool and ends both attempts. */
  lemma CancelWrites(s: Store, u: Id, v: Id, a: Id, b: Id)
    requires u in s.last && Finds(s, u, s.last[u], PairOf(u, v)) && IsOf(s, s.pending[PairOf(u, v)], u, v, a, b)
    ensures EndsWith(s.(pool := s.pool - {u}), CancelMatch(s, u), u, v, a, b,
                     "cancelled_by_user", "proposal_peer_cancelled")
  {
    var p, s1 := s.pending[PairOf(u, v)], RemoveFromPool(s, u);
    CancelIs(s, PairOf(u, v), u);
    EndBothWrites(s1, p, u, v, a, b, if u == p.userLow then "cancelled_by_user" else "proposal_peer_cancelled",
                                     if u == p.userHigh then "cancelled_by_user" else "proposal_peer_cancelled");
    StateIsForgotten(s, CancelMatch(s, u), u, v, a, b);
  }

  /** Ending the proposal sets the user's state, so removing it before makes no difference. */
  lemma StateIsForgotten(s: Store, s': Store, u: Id, v: Id, a: Id, b: Id)
    requires EndsWith(s.(pool := s.pool - {u}, userState := s.userState - {u}), s', u, v, a, b,
                      "cancelled_by_user", "proposal_peer_cancelled")
    ensures EndsWith(s.(pool := s.pool - {u}), s', u, v, a, b, "cancelled_by_user", "proposal_peer_cancelled")
  {
    assert (s.userState - {u})[u := Searching][v := Searching] == s.userState[u := Searching][v := Searching];
  }

  /** Any other cancel removes the user, and ends the last attempt if there is one. */
  lemma CancelOutsideWrites(s: Store, u: Id)
    requires u in s.last ==> Belongs(s.attempts, s.last[u], u)
    requires u in s.last && s.attempts[s.last[u]].status == Proposed && s.attempts[s.last[u]].peer.Some? ==>
      PairOf(u, s.attempts[s.last[u]].peer.value) !in s.pending
    ensures CancelMatch(s, u) ==
      s.(pool := s.pool - {u}, userState := s.userState - {u},
         attempts := if u in s.last then
             s.attempts[s.last[u] := s.attempts[s.last[u]].(status := Ended, reason := Some("cancelled_by_user"))]
           else s.attempts)
  {
    if u in s.last {
      assert s.last[u := s.last[u]] == s.last;
    }
  }

  /** The flag of the other side, which tells whether they have said yes. */
  predicate PeerSaidYes(p: Pending, u: Id) {
    if u == p.userLow then p.connectHigh else p.connectLow
  }

  /** The answer of the room service, whenever it comes: both attempts end for want of a room, or both are matched. */
  lemma LandWrites(s: Store, p: Pending, u: Id, v: Id, a: Id, b: Id, room: Option<Id>)
    requires IsOf(s, p, u, v, a, b)
    ensures match room
      case None => EndsWith(s, Land(s, p, None), u, v, a, b, "room_create_failed", "room_create_failed")
      case Some(id) => EntersWith(s, Land(s, p, Some(id)), u, v, a, b, id, p.matchScore)
  {
    match room
    case None => EndBothWrites(s, p, u, v, a, b, "room_create_failed", "room_create_failed");
    case Some(id) => EnterRoomWrites(s, p, u, v, a, b, id);
  }

  /** The Connect that completes a proposal asks for one room, and then both enter it or both attempts end. */
  lemma ConnectWrites(s: Store, u: Id, v: Id, mine: Id, a: Id, b: Id, room: Option<Id>)
    requires var k := PairOf(u, v);
      && Finds(s, u, mine, k) && IsOf(s, s.pending[k], u, v, a, b) && s.pending[k].userLow == k.low
      && PeerSaidYes(s.pending[k], u) && k !in s.finalize
    ensures var p := s.pending[PairOf(u, v)];
      var (s', res) := Respond(s, u, mine, Connect, room);
      var asked := s.(roomCalls := s.roomCalls + [p.roomAttemptId]);
      match room
      case None => res == RoomCreateFailed
        && EndsWith(asked, s', u, v, a, b, "room_create_failed", "room_create_failed")
      case Some(id) => res == Ok && EntersWith(asked, s', u, v, a, b, id, p.matchScore)
  {
    var k := PairOf(u, v);
    ConnectIs(s, k, u, mine, room);
    ElectTouches(s, k, u);
    LandWrites(Elect(s, k, u), s.pending[k], u, v, a, b, room);
    assert Elect(s, k, u).finalize - {k} == s.finalize - {k} && Elect(s, k, u).pending - {k} == s.pending - {k};
  }

  /** Any other Connect sets the flag of its side and nothing else, and is told that it worked. */
  lemma WaitingConnect(s: Store, u: Id, v: Id, mine: Id, room: Option<Id>)
    requires var k := PairOf(u, v);
      && Finds(s, u, mine, k) && s.pending[k].userLow == k.low && (PeerSaidYes(s.pending[k], u) ==> k in s.finalize)
    ensures var k, p := PairOf(u, v), s.pending[PairOf(u, v)];
      Respond(s, u, mine, Connect, room) ==
        (s.(pending := s.pending
             [k := p.(connectLow := p.connectLow || u == k.low, connectHigh := p.connectHigh || u != k.low)]), Ok)
  {
    ConnectIs(s, PairOf(u, v), u, mine, room);
  }

  // ---------- leaving ----------

  /** Leaving ends a matched last attempt, and removes the user from pool, locks and states. */
  lemma LeaveWrites(s: Store, u: Id)
    requires u in s.last ==> Belongs(s.attempts, s.last[u], u)
    ensures LeaveRoom(s, u) ==
      s.(pool := s.pool - {u}, userLock := s.userLock - {u}, userState := s.userState - {u},
         attempts := if u in s.last && s.attempts[s.last[u]].status == Matched then
             s.attempts[s.last[u] := s.attempts[s.last[u]].(status := Ended, reason := Some("left_room"))]
           else s.attempts)
  {
    if u in s.last {
      assert s.last[u := s.last[u]] == s.last;
    }
  }
}
