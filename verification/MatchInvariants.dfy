/** What every run of the matching protocol keeps. */
module MatchInvariants {
  import opened RedisKeys
  import opened Ranking
  import opened MatchModel
  import opened Types

  // ---------- invariants ----------

  type Attempts = map<Id, Attempt>

  predicate Belongs(attempts: Attempts, a: Id, u: Id) {
    a in attempts && attempts[a].userId == u
  }

  /** Last attempts, queued jobs and the job in progress all belong to the user that they are kept for. */
  ghost predicate Owned(attempts: Attempts, last: map<Id, Id>, queue: seq<Job>, working: Option<Job>) {
    && (forall u :: u in last ==> Belongs(attempts, last[u], u))
    && (forall j :: j in queue ==> Belongs(attempts, j.requestId, j.userId))
    && (working.Some? ==> Belongs(attempts, working.value.requestId, working.value.userId))
  }

  predicate IsProposed(attempts: Attempts, a: Id, u: Id, peer: Id) {
    Belongs(attempts, a, u) && attempts[a].status == Proposed && attempts[a].peer == Some(peer)
  }

  predicate Canonical(k: Pair) {
    k.low != k.high && k == PairOf(k.low, k.high)
  }

  /** The attempt has the score of the record, and its fallback flag. */
  predicate Carries(attempts: Attempts, a: Id, p: Pending) {
    a in attempts && attempts[a].matchScore == Some(p.matchScore) && attempts[a].isFallback == p.isFallback
  }

  /** The record at a pair names that pair's users and two attempts that propose them to each other, with its score. */
  predicate Sound(attempts: Attempts, k: Pair, p: Pending) {
    && Canonical(k) && p.userLow == k.low && p.userHigh == k.high
    && IsProposed(attempts, p.attemptLow, k.low, k.high) && Carries(attempts, p.attemptLow, p)
    && IsProposed(attempts, p.attemptHigh, k.high, k.low) && Carries(attempts, p.attemptHigh, p)
    && (p.roomAttemptId == p.attemptLow || p.roomAttemptId == p.attemptHigh)
  }

  ghost predicate RecordsSound(attempts: Attempts, pending: map<Pair, Pending>) {
    forall k {:trigger Sound(attempts, k, pending[k])} :: k in pending ==> Sound(attempts, k, pending[k])
  }

  /** The attempt is proposed only if there is a record that names it as its owner's attempt. */
  predicate HasRecord(x: Attempt, a: Id, pending: map<Pair, Pending>) {
    x.status == Proposed ==>
      && x.peer.Some?
      && PairOf(x.userId, x.peer.value) in pending
      && SideAttempt(pending[PairOf(x.userId, x.peer.value)], x.userId) == a
  }

  ghost predicate AllRecorded(attempts: Attempts, pending: map<Pair, Pending>) {
    forall a {:trigger HasRecord(attempts[a], a, pending)} :: a in attempts ==> HasRecord(attempts[a], a, pending)
  }

  ghost predicate InSome(ks: set<Pair>, u: Id) {
    exists k :: k in ks && Involves(k, u)
  }

  /** No two of these pairs have a user in common. */
  ghost predicate Disjoint(ks: set<Pair>) {
    forall k, q, u :: k in ks && q in ks && Involves(k, u) && Involves(q, u) ==> k == q
  }

  /** The two users of a locked pair hold the same lock value as the pair. */
  predicate LockAgrees(userLock: map<Id, Id>, k: Pair, r: Id) {
    && Canonical(k)
    && k.low in userLock && userLock[k.low] == r
    && k.high in userLock && userLock[k.high] == r
  }

  /** Pair locks agree with user locks, each user lock belongs to a pair lock, and locked pairs are disjoint. */
  ghost predicate LocksAgree(userLock: map<Id, Id>, pairLock: map<Pair, Id>) {
    && PairsHoldUsers(userLock, pairLock)
    && UsersHavePairs(userLock.Keys, pairLock.Keys)
    && Disjoint(pairLock.Keys)
  }

  ghost predicate PairsHoldUsers(userLock: map<Id, Id>, pairLock: map<Pair, Id>) {
    forall k :: k in pairLock ==> LockAgrees(userLock, k, pairLock[k])
  }

  ghost predicate UsersHavePairs(users: set<Id>, ks: set<Pair>) {
    forall u {:trigger InSome(ks, u)} :: u in users ==> InSome(ks, u)
  }

  predicate Over(attempts: Attempts, a: Id) {
    a in attempts && (attempts[a].status == Matched || attempts[a].status == Ended)
  }

  predicate Unproposed(attempts: Attempts, a: Id) {
    a in attempts && (attempts[a].status == Seeking || attempts[a].status == Ended)
  }

  /** The room service was asked at most once per attempt id, and only about attempts that are over. */
  ghost predicate RoomsOnce(attempts: Attempts, roomCalls: seq<Id>, working: Option<Job>) {
    && (forall i, j :: 0 <= i < j < |roomCalls| ==> roomCalls[i] != roomCalls[j])
    && (forall a :: a in roomCalls ==> Over(attempts, a))
    && (working.Some? ==> working.value.requestId !in roomCalls && Unproposed(attempts, working.value.requestId))
  }

  ghost predicate Base(m: System) {
    var s := m.store;
    && Owned(s.attempts, s.last, s.queue, m.working)
    && RecordsSound(s.attempts, s.pending)
    && LocksAgree(s.userLock, s.pairLock)
    && s.finalize == {}
  }

  /** Symmetry of proposals: the invariant of runs in which no key expires. */
  ghost predicate Symmetric(m: System) {
    var s := m.store;
    && Base(m)
    && AllRecorded(s.attempts, s.pending)
    && s.pairLock.Keys == s.pending.Keys
    && RoomsOnce(s.attempts, s.roomCalls, m.working)
  }

  predicate IsEngaged(s: Store, u: Id, a: Id) {
    u in s.last && s.last[u] == a && InState(s, u, Locked)
  }

  /** Both users of the record are locked and have its attempts as their last ones. */
  predicate Engaged(s: Store, k: Pair, p: Pending) {
    IsEngaged(s, k.low, p.attemptLow) && IsEngaged(s, k.high, p.attemptHigh)
  }

  ghost predicate AllEngaged(s: Store) {
    forall k {:trigger Engaged(s, k, s.pending[k])} :: k in s.pending ==> Engaged(s, k, s.pending[k])
  }

  /** Only users in `changed` may have another state in `s'` than in `s`. */
  ghost predicate SameStates(s: Store, s': Store, changed: set<Id>) {
    forall u, state :: u !in changed ==> (InState(s', u, state) <==> InState(s, u, state))
  }

  /** A lock held by a user in a proposal is the lock of that proposal. */
  ghost predicate LocksAreOwn(s: Store) {
    forall k :: k in s.pending && (k.low in s.userLock || k.high in s.userLock) ==> k in s.pairLock
  }

  /** Exclusivity of proposals: the invariant of runs in which locks and records may expire at any time. */
  ghost predicate Exclusive(m: System) {
    && Base(m)
    && AllEngaged(m.store)
    && LocksAreOwn(m.store)
    && (m.working.Some? ==> !InSome(m.store.pending.Keys, m.working.value.userId))
  }

  // ---------- writes to attempts ----------

  /** A write that neither changes an attempt's owner nor makes or unmakes a proposal. */
  predicate QuietWrite(attempts: Attempts, a: Id, x: Attempt) {
    x.status != Proposed && (a in attempts ==> attempts[a].userId == x.userId && attempts[a].status != Proposed)
  }

  lemma OwnedAfterWrite(attempts: Attempts, last: map<Id, Id>, queue: seq<Job>, working: Option<Job>, a: Id, x: Attempt)
    requires Owned(attempts, last, queue, working)
    requires a in attempts ==> attempts[a].userId == x.userId
    ensures Owned(attempts[a := x], last[x.userId := a], queue, working)
  {
  }

  lemma QuietWriteKeepsRecords(attempts: Attempts, pending: map<Pair, Pending>, a: Id, x: Attempt)
    requires RecordsSound(attempts, pending) && QuietWrite(attempts, a, x)
    ensures RecordsSound(attempts[a := x], pending)
    ensures AllRecorded(attempts, pending) ==> AllRecorded(attempts[a := x], pending)
  {
    forall k | k in pending
      ensures Sound(attempts[a := x], k, pending[k])
    {
      assert Sound(attempts, k, pending[k]);
    }
    forall b | b in attempts && AllRecorded(attempts, pending)
      ensures HasRecord(attempts[a := x][b], b, pending)
    {
      assert HasRecord(attempts[b], b, pending);
    }
  }

  lemma QuietWriteKeepsRooms(attempts: Attempts, roomCalls: seq<Id>, working: Option<Job>, a: Id, x: Attempt)
    requires RoomsOnce(attempts, roomCalls, working) && QuietWrite(attempts, a, x)
    requires x.status == Ended || (x.status == Seeking && a !in attempts)
    ensures RoomsOnce(attempts[a := x], roomCalls, working)
  {
  }

  // ---------- a proposal is made ----------

  lemma UsersHavePairsGrows(users: set<Id>, ks: set<Pair>, k: Pair)
    requires UsersHavePairs(users, ks)
    ensures UsersHavePairs(users + {k.low, k.high}, ks + {k})
  {
    forall u | u in users + {k.low, k.high}
      ensures InSome(ks + {k}, u)
    {
      if Involves(k, u) {
        assert k in ks + {k};
      } else {
        assert InSome(ks, u);
        var q :| q in ks && Involves(q, u);
        assert q in ks + {k};
      }
    }
  }

  lemma UsersHavePairsShrinks(users: set<Id>, ks: set<Pair>, k: Pair)
    requires UsersHavePairs(users, ks)
    ensures UsersHavePairs(users - {k.low, k.high}, ks - {k})
  {
    forall u | u in users - {k.low, k.high}
      ensures InSome(ks - {k}, u)
    {
      assert InSome(ks, u);
      var q :| q in ks && Involves(q, u);
      assert q in ks - {k};
    }
  }

  lemma LockKeepsAgreement(userLock: map<Id, Id>, pairLock: map<Pair, Id>, k: Pair, r: Id)
    requires LocksAgree(userLock, pairLock) && Canonical(k) && k.low !in userLock && k.high !in userLock
    ensures LocksAgree(userLock[k.low := r][k.high := r], pairLock[k := r])
  {
    UsersHavePairsGrows(userLock.Keys, pairLock.Keys, k);
    assert userLock[k.low := r][k.high := r].Keys == userLock.Keys + {k.low, k.high};
    assert pairLock[k := r].Keys == pairLock.Keys + {k};
    forall q | q in pairLock
      ensures LockAgrees(userLock, q, pairLock[q])
      ensures !Involves(k, q.low) && !Involves(k, q.high)
    {
    }
  }

  lemma ProposeKeepsRecords(attempts: Attempts, pending: map<Pair, Pending>, k: Pair, p: Pending, r: Id, x: Attempt,
      q: Id, y: Attempt)
    requires RecordsSound(attempts, pending)
    requires r in attempts && !InSome(pending.Keys, attempts[r].userId)
    requires q in attempts && !InSome(pending.Keys, attempts[q].userId)
    requires Sound(attempts[r := x][q := y], k, p)
    ensures RecordsSound(attempts[r := x][q := y], pending[k := p])
  {
    var attempts', pending' := attempts[r := x][q := y], pending[k := p];
    forall h | h in pending'
      ensures Sound(attempts', h, pending'[h])
    {
      if h != k {
        assert h in pending.Keys && Sound(attempts, h, pending[h]);
        assert Involves(h, h.low) && Involves(h, h.high);
      }
    }
  }

  lemma ProposeKeepsAllRecorded(attempts: Attempts, pending: map<Pair, Pending>, k: Pair, p: Pending, r: Id,
      x: Attempt, q: Id, y: Attempt)
    requires AllRecorded(attempts, pending) && k !in pending
    requires HasRecord(x, r, pending[k := p]) && HasRecord(y, q, pending[k := p])
    ensures AllRecorded(attempts[r := x][q := y], pending[k := p])
  {
    forall a | a in attempts
      ensures HasRecord(attempts[r := x][q := y][a], a, pending[k := p])
    {
      assert HasRecord(attempts[a], a, pending);
    }
  }

  lemma ProposeKeepsRooms(attempts: Attempts, roomCalls: seq<Id>, job: Job, r: Id, x: Attempt, q: Id, y: Attempt)
    requires RoomsOnce(attempts, roomCalls, Some(job)) && r == job.requestId
    requires q in attempts && attempts[q].status == Seeking
    ensures RoomsOnce(attempts[r := x][q := y], roomCalls, None)
  {
  }

  /** `s'` is `s` after users `v` and `w` have been locked and their attempts `a` and `b` written. */
  predicate PairChanges(s: Store, s': Store, v: Id, w: Id, a: Id, b: Id) {
    && a in s'.attempts && b in s'.attempts && PairOf(v, w) in s'.pending
    && s'.attempts == s.attempts[a := s'.attempts[a]][b := s'.attempts[b]]
    && s'.last == s.last[v := a][w := b]
    && s'.userState == s.userState[v := Locked][w := Locked]
    && s'.userLock == s.userLock[v := a][w := a]
    && s'.pairLock == s.pairLock[PairOf(v, w) := a]
    && s'.pending == s.pending[PairOf(v, w) := s'.pending[PairOf(v, w)]]
    && s'.finalize == s.finalize && s'.queue == s.queue && s'.roomCalls == s.roomCalls
  }

  lemma ProposeChanges(s: Store, job: Job, c: Candidate, isFallback: bool)
    requires Pairable(s, job, c.userId)
    ensures PairChanges(s, Propose(s, job, c, isFallback), job.userId, c.userId, job.requestId, s.last[c.userId])
  {
  }

  /** The two new attempts and the new record, as a proposal writes them. */
  lemma ProposeIsSound(s: Store, job: Job, c: Candidate, isFallback: bool)
    requires Pairable(s, job, c.userId) && Belongs(s.attempts, job.requestId, job.userId)
    ensures var k := PairOf(job.userId, c.userId);
      var p := NewPending(job, c, s.last[c.userId], isFallback);
      var s' := Propose(s, job, c, isFallback);
      && s'.attempts == s.attempts[job.requestId := s'.attempts[job.requestId]]
                                  [s.last[c.userId] := s'.attempts[s.last[c.userId]]]
      && s'.pending == s.pending[k := p]
      && Sound(s'.attempts, k, p)
      && SideAttempt(p, job.userId) == job.requestId && SideAttempt(p, c.userId) == s.last[c.userId]
  {
    PairOfSymmetric(job.userId, c.userId);
  }

  // ---------- a proposal ends ----------

  /** The two users of a proposal and their attempts belong to no other. */
  lemma SoundIsInjective(attempts: Attempts, k: Pair, p: Pending, h: Pair, q: Pending)
    requires Sound(attempts, k, p) && Sound(attempts, h, q) && k != h
    ensures p.attemptLow != q.attemptLow && p.attemptLow != q.attemptHigh
    ensures p.attemptHigh != q.attemptLow && p.attemptHigh != q.attemptHigh
  {
    PairOfSymmetric(k.low, k.high);
  }

  lemma CloseKeepsRecords(attempts: Attempts, pending: map<Pair, Pending>, k: Pair, x: Attempt, y: Attempt)
    requires RecordsSound(attempts, pending) && k in pending
    ensures RecordsSound(attempts[pending[k].attemptLow := x][pending[k].attemptHigh := y], pending - {k})
  {
    var attempts' := attempts[pending[k].attemptLow := x][pending[k].attemptHigh := y];
    forall h | h in pending - {k}
      ensures Sound(attempts', h, pending[h])
    {
      assert Sound(attempts, h, pending[h]) && Sound(attempts, k, pending[k]);
      SoundIsInjective(attempts, k, pending[k], h, pending[h]);
    }
  }

  lemma CloseKeepsAllRecorded(attempts: Attempts, pending: map<Pair, Pending>, k: Pair, x: Attempt, y: Attempt)
    requires AllRecorded(attempts, pending) && k in pending && x.status != Proposed && y.status != Proposed
    ensures AllRecorded(attempts[pending[k].attemptLow := x][pending[k].attemptHigh := y], pending - {k})
  {
    var attempts' := attempts[pending[k].attemptLow := x][pending[k].attemptHigh := y];
    forall a | a in attempts'
      ensures HasRecord(attempts'[a], a, pending - {k})
    {
      if a != pending[k].attemptLow && a != pending[k].attemptHigh {
        assert HasRecord(attempts[a], a, pending);
      }
    }
  }

  lemma UnlockKeepsAgreement(userLock: map<Id, Id>, pairLock: map<Pair, Id>, k: Pair)
    requires LocksAgree(userLock, pairLock)
    requires k in pairLock || (k.low !in userLock && k.high !in userLock)
    ensures LocksAgree(userLock - {k.low, k.high}, pairLock - {k})
  {
    UsersHavePairsShrinks(userLock.Keys, pairLock.Keys, k);
    assert (userLock - {k.low, k.high}).Keys == userLock.Keys - {k.low, k.high};
    assert (pairLock - {k}).Keys == pairLock.Keys - {k};
    assert Involves(k, k.low) && Involves(k, k.high);
    forall q | q in pairLock && q != k
      ensures LockAgrees(userLock - {k.low, k.high}, q, pairLock[q])
    {
      assert LockAgrees(userLock, q, pairLock[q]);
      assert Involves(q, q.low) && Involves(q, q.high);
    }
  }

  lemma CloseKeepsRooms(attempts: Attempts, roomCalls: seq<Id>, working: Option<Job>, a: Id, x: Attempt, b: Id,
      y: Attempt)
    requires RoomsOnce(attempts, roomCalls, working)
    requires a in attempts && attempts[a].status == Proposed && b in attempts && attempts[b].status == Proposed
    requires (x.status == Ended || x.status == Matched) && (y.status == Ended || y.status == Matched)
    ensures RoomsOnce(attempts[a := x][b := y], roomCalls, working)
    ensures RoomsOnce(attempts[a := x][b := y], roomCalls + [a], working)
    ensures RoomsOnce(attempts[a := x][b := y], roomCalls + [b], working)
  {
    assert a !in roomCalls && b !in roomCalls;
    assert forall i :: 0 <= i < |roomCalls| ==> roomCalls[i] in roomCalls;
  }

  lemma PairKeepsBase(m: System, s': Store, v: Id, w: Id, a: Id, b: Id)
    requires Base(m) && PairChanges(m.store, s', v, w, a, b)
    requires v != w && v !in m.store.userLock && w !in m.store.userLock
    requires Belongs(m.store.attempts, a, v) && Belongs(m.store.attempts, b, w) && a != b
    requires s'.attempts[a].userId == v && s'.attempts[b].userId == w
    requires !InSome(m.store.pending.Keys, v) && !InSome(m.store.pending.Keys, w)
    requires Sound(s'.attempts, PairOf(v, w), s'.pending[PairOf(v, w)])
    ensures Base(System(s', None))
  {
    var s, k := m.store, PairOf(v, w);
    var x, y := s'.attempts[a], s'.attempts[b];
    OwnedAfterWrite(s.attempts, s.last, s.queue, m.working, a, x);
    OwnedAfterWrite(s.attempts[a := x], s.last[v := a], s.queue, m.working, b, y);
    ProposeKeepsRecords(s.attempts, s.pending, k, s'.pending[k], a, x, b, y);
    LockKeepsAgreement(s.userLock, s.pairLock, k, a);
    assert s'.userLock == s.userLock[k.low := a][k.high := a];
  }

  lemma ProposeKeepsBase(m: System, c: Candidate, isFallback: bool)
    requires Base(m) && m.working.Some? && Pairable(m.store, m.working.value, c.userId)
    requires !InSome(m.store.pending.Keys, m.working.value.userId) && !InSome(m.store.pending.Keys, c.userId)
    ensures Base(System(Propose(m.store, m.working.value, c, isFallback), None))
  {
    var s, job := m.store, m.working.value;
    ProposeIsSound(s, job, c, isFallback);
    ProposeChanges(s, job, c, isFallback);
    PairKeepsBase(m, Propose(s, job, c, isFallback), job.userId, c.userId, job.requestId, s.last[c.userId]);
  }

  // ---------- ending a proposal ----------

  /** What every ending of a proposal does: both attempts are over, and its record and locks are gone. */
  ghost predicate Closes(s: Store, s': Store, k: Pair, p: Pending) {
    && Over(s'.attempts, p.attemptLow) && Over(s'.attempts, p.attemptHigh)
    && s'.attempts == s.attempts[p.attemptLow := s'.attempts[p.attemptLow]][p.attemptHigh := s'.attempts[p.attemptHigh]]
    && s'.attempts[p.attemptLow].userId == k.low && s'.attempts[p.attemptHigh].userId == k.high
    && s'.last == s.last[k.low := p.attemptLow][k.high := p.attemptHigh]
    && s'.pending == s.pending - {k} && s'.finalize == s.finalize - {k}
    && s'.userLock == s.userLock - {k.low, k.high} && s'.pairLock == s.pairLock - {k}
    && s'.queue == s.queue && SameStates(s, s', {k.low, k.high})
  }

  /** The record is about the users of the pair, and names two attempts; they may be over. */
  predicate IsAbout(p: Pending, k: Pair) {
    Canonical(k) && p.userLow == k.low && p.userHigh == k.high && p.attemptLow != p.attemptHigh
  }

  lemma EndBothCloses(s: Store, k: Pair, p: Pending, reasonLow: string, reasonHigh: string)
    requires IsAbout(p, k)
    ensures Closes(s, EndBoth(s, p, reasonLow, reasonHigh), k, p)
    ensures EndBoth(s, p, reasonLow, reasonHigh).roomCalls == s.roomCalls
    ensures EndBoth(s, p, reasonLow, reasonHigh).attempts[p.attemptLow].status == Ended
    ensures EndBoth(s, p, reasonLow, reasonHigh).attempts[p.attemptHigh].status == Ended
  {
  }

  lemma EnterRoomCloses(s: Store, k: Pair, p: Pending, room: Id)
    requires IsAbout(p, k)
    ensures Closes(s, EnterRoom(s, p, room), k, p)
    ensures EnterRoom(s, p, room).roomCalls == s.roomCalls && BothMatched(EnterRoom(s, p, room).attempts, p, room)
  {
  }

  predicate IsMatched(attempts: Attempts, a: Id, room: Id) {
    a in attempts && attempts[a].status == Matched && attempts[a].roomId == Some(room)
  }

  lemma CloseKeepsBase(m: System, s': Store, k: Pair)
    requires Base(m) && k in m.store.pending && Closes(m.store, s', k, m.store.pending[k])
    requires (k.low in m.store.userLock || k.high in m.store.userLock) ==> k in m.store.pairLock
    ensures Base(m.(store := s'))
  {
    var s, p := m.store, m.store.pending[k];
    var x, y := s'.attempts[p.attemptLow], s'.attempts[p.attemptHigh];
    assert Sound(s.attempts, k, p);
    OwnedAfterWrite(s.attempts, s.last, s.queue, m.working, p.attemptLow, x);
    OwnedAfterWrite(s.attempts[p.attemptLow := x], s.last[k.low := p.attemptLow], s.queue, m.working, p.attemptHigh, y);
    CloseKeepsRecords(s.attempts, s.pending, k, x, y);
    UnlockKeepsAgreement(s.userLock, s.pairLock, k);
  }

  lemma FlagKeepsRecords(attempts: Attempts, pending: map<Pair, Pending>, k: Pair, low: bool)
    requires RecordsSound(attempts, pending) && k in pending
    ensures RecordsSound(attempts, pending[k := SetConnect(pending[k], low)])
    ensures AllRecorded(attempts, pending) ==> AllRecorded(attempts, pending[k := SetConnect(pending[k], low)])
  {
    var pending' := pending[k := SetConnect(pending[k], low)];
    forall h | h in pending'
      ensures Sound(attempts, h, pending'[h])
    {
      assert Sound(attempts, h, pending[h]);
    }
    forall a | a in attempts && AllRecorded(attempts, pending)
      ensures HasRecord(attempts[a], a, pending')
    {
      assert HasRecord(attempts[a], a, pending);
    }
  }

  /** The user's attempt is an open proposal to the other user of the pair, which has a record. */
  predicate MayRespond(s: Store, u: Id, a: Id, k: Pair) {
    Finds(s, u, a, k) && Sound(s.attempts, k, s.pending[k])
  }

  /** The record that an answer under this attempt finds. */
  predicate Finds(s: Store, u: Id, a: Id, k: Pair) {
    && Belongs(s.attempts, a, u) && s.attempts[a].status == Proposed && s.attempts[a].peer.Some?
    && k == PairOf(u, s.attempts[a].peer.value) && k in s.pending
  }

  lemma LandCloses(s: Store, k: Pair, p: Pending, room: Option<Id>)
    requires IsAbout(p, k)
    ensures Closes(s, Land(s, p, room), k, p) && Land(s, p, room).roomCalls == s.roomCalls
    ensures match room
      case None => BothEnded(Land(s, p, room).attempts, p)
      case Some(id) => BothMatched(Land(s, p, room).attempts, p, id)
  {
    match room
    case None => EndBothCloses(s, k, p, "room_create_failed", "room_create_failed");
    case Some(id) => EnterRoomCloses(s, k, p, id);
  }

  predicate HasEnded(attempts: Attempts, a: Id) {
    a in attempts && attempts[a].status == Ended
  }

  predicate BothEnded(attempts: Attempts, p: Pending) {
    HasEnded(attempts, p.attemptLow) && HasEnded(attempts, p.attemptHigh)
  }

  /** The attempt is matched with this user, in this room and with this score. */
  predicate IsMatchedWith(attempts: Attempts, a: Id, peer: Id, room: Id, score: real) {
    IsMatched(attempts, a, room) && attempts[a].peer == Some(peer) && attempts[a].matchScore == Some(score)
  }

  /** Each attempt of the record is matched with the other one's user, with the score of the record. */
  predicate BothMatched(attempts: Attempts, p: Pending, room: Id) {
    && IsMatchedWith(attempts, p.attemptLow, p.userHigh, room, p.matchScore)
    && IsMatchedWith(attempts, p.attemptHigh, p.userLow, room, p.matchScore)
  }

  /** What the handlers do for a user in an open proposal. */
  lemma SkipIs(s: Store, k: Pair, u: Id, a: Id, room: Option<Id>)
    requires Finds(s, u, a, k)
    ensures Respond(s, u, a, Skip, room) == (EndBySkip(s, s.pending[k], u), Ok)
  {
  }

  lemma ConnectIs(s: Store, k: Pair, u: Id, a: Id, room: Option<Id>)
    requires Finds(s, u, a, k)
    ensures Respond(s, u, a, Connect, room) ==
      if RecordConnect(s, k, u).1 != 2 then (RecordConnect(s, k, u).0, Ok)
      else (Land(Elect(s, k, u), s.pending[k], room), if room.Some? then Ok else RoomCreateFailed)
  {
  }

  lemma CancelIs(s: Store, k: Pair, u: Id)
    requires u in s.last && Finds(s, u, s.last[u], k)
    ensures CancelMatch(s, u) == EndByCancel(RemoveFromPool(s, u), s.pending[k], u)
  {
  }

  lemma SkipCloses(s: Store, k: Pair, u: Id, a: Id, room: Option<Id>)
    requires MayRespond(s, u, a, k)
    ensures var s' := Respond(s, u, a, Skip, room).0;
      && Closes(s, s', k, s.pending[k]) && s'.roomCalls == s.roomCalls
      && HasEnded(s'.attempts, s.pending[k].attemptLow) && HasEnded(s'.attempts, s.pending[k].attemptHigh)
  {
    var p := s.pending[k];
    SkipIs(s, k, u, a, room);
    EndBothCloses(s, k, p, if u == p.userLow then "you_skipped" else "peer_skipped",
                           if u == p.userHigh then "you_skipped" else "peer_skipped");
  }

  /** The connect script touches one record and one finalize key. */
  lemma FlagTouches(s: Store, k: Pair, u: Id)
    requires k in s.pending
    ensures var s' := RecordConnect(s, k, u).0;
      && s' == s.(pending := s'.pending, finalize := s'.finalize)
      && s'.pending == s.pending[k := SetConnect(s.pending[k], u == k.low)]
      && s'.finalize - {k} == s.finalize - {k}
  {
  }

  lemma ElectTouches(s: Store, k: Pair, u: Id)
    requires k in s.pending
    ensures var s' := Elect(s, k, u);
      && s' == s.(pending := s'.pending, finalize := s'.finalize, roomCalls := s'.roomCalls)
      && s'.pending - {k} == s.pending - {k} && s'.finalize - {k} == s.finalize - {k}
      && s'.roomCalls == s.roomCalls + [s.pending[k].roomAttemptId]
  {
    FlagTouches(s, k, u);
  }

  lemma ClosesAfter(s: Store, s1: Store, s': Store, k: Pair, p: Pending)
    requires Closes(s1, s', k, p)
    requires s1.attempts == s.attempts && s1.last == s.last && s1.userLock == s.userLock && s1.pairLock == s.pairLock
    requires SameStates(s, s1, {k.low, k.high}) && s1.queue == s.queue
    requires s1.pending - {k} == s.pending - {k} && s1.finalize - {k} == s.finalize - {k}
    ensures Closes(s, s', k, p)
  {
  }

  lemma ConnectCloses(s: Store, k: Pair, u: Id, a: Id, room: Option<Id>)
    requires MayRespond(s, u, a, k) && RecordConnect(s, k, u).1 == 2
    ensures var s' := Respond(s, u, a, Connect, room).0;
      Closes(s, s', k, s.pending[k]) && s'.roomCalls == s.roomCalls + [s.pending[k].roomAttemptId]
  {
    var p := s.pending[k];
    ConnectIs(s, k, u, a, room);
    LandCloses(Elect(s, k, u), k, p, room);
    ElectTouches(s, k, u);
    ClosesAfter(s, Elect(s, k, u), Land(Elect(s, k, u), p, room), k, p);
  }

  lemma CancelCloses(s: Store, k: Pair, u: Id)
    requires u in s.last && MayRespond(s, u, s.last[u], k) && Involves(k, u)
    ensures Closes(s, CancelMatch(s, u), k, s.pending[k]) && CancelMatch(s, u).roomCalls == s.roomCalls
  {
    var p, s1 := s.pending[k], RemoveFromPool(s, u);
    CancelIs(s, k, u);
    EndBothCloses(s1, k, p, if u == p.userLow then "cancelled_by_user" else "proposal_peer_cancelled",
                            if u == p.userHigh then "cancelled_by_user" else "proposal_peer_cancelled");
    ClosesAfter(s, s1, CancelMatch(s, u), k, p);
  }

  lemma ProposedHasSoundRecord(m: System, a: Id)
    requires RecordsSound(m.store.attempts, m.store.pending)
    requires a in m.store.attempts && m.store.attempts[a].status == Proposed && m.store.attempts[a].peer.Some?
    requires PairOf(m.store.attempts[a].userId, m.store.attempts[a].peer.value) in m.store.pending
    ensures var x := m.store.attempts[a];
      var k := PairOf(x.userId, x.peer.value);
      Sound(m.store.attempts, k, m.store.pending[k]) && x.peer.value == if x.userId == k.low then k.high else k.low
  {
    var x := m.store.attempts[a];
    var k := PairOf(x.userId, x.peer.value);
    assert Sound(m.store.attempts, k, m.store.pending[k]);
  }

  // ---------- starts ----------

  /** A start changes nothing, writes an ended attempt, or commits a new search. */
  lemma StartIsOneOf(s: Store, job: Job, hasSnapshot: bool)
    ensures var s' := StartFindMatch(s, job, hasSnapshot).0;
      || s' == s
      || (job.requestId !in s.attempts && s' == MarkNoMatch(s, job.requestId, job.userId, "snapshot_not_found"))
      || (job.requestId !in s.attempts && s' == MarkNoMatch(s, job.requestId, job.userId, "user_unavailable"))
      || (job.requestId !in s.attempts && s' == CommitSearching(s, job))
  {
  }

  // ---------- runs ----------

  lemma {:induction false} RunConcat(m: System, es: seq<Event>, fs: seq<Event>)
    ensures Run(m, es + fs) == Run(Run(m, es), fs)
    decreases |es|
  {
    if es == [] {
      assert es + fs == fs;
    } else {
      assert (es + fs)[0] == es[0] && (es + fs)[1..] == es[1..] + fs;
      RunConcat(Step(m, es[0]), es[1..], fs);
    }
  }

  lemma RunOne(m: System, e: Event)
    ensures Run(m, [e]) == Step(m, e)
  {
    assert Run(Step(m, e), [e][1..]) == Step(m, e);
  }

  lemma RunTwo(m: System, e: Event, f: Event)
    ensures Run(m, [e, f]) == Step(Step(m, e), f)
  {
    RunConcat(m, [e], [f]);
    RunOne(m, e);
    RunOne(Step(m, e), f);
    assert [e] + [f] == [e, f];
  }
}
