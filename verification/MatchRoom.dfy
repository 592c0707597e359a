/** Room creation takes a while: its two halves, `Elect` and `Land`, with any run in between. */
module MatchRoom {
  import opened RedisKeys
  import opened Ranking
  import opened MatchModel
  import opened Types
  import opened MatchInvariants
  import opened MatchExclusivity
  import opened MatchFinalize
  import MatchActive

  /** A room is being created for the proposal of `k`, which is still open. */
  ghost predicate Creating(m: System, k: Pair) {
    && Exclusive(Settled(m)) && m.store.finalize == {k}
    && k in m.store.pending && m.store.pending[k].connectLow && m.store.pending[k].connectHigh
  }

  lemma ElectionCreates(m: System, k: Pair, u: Id)
    requires Exclusive(m) && k in m.store.pending && RecordConnect(m.store, k, u).1 == 2
    ensures Creating(m.(store := Elect(m.store, k, u)), k)
    ensures MatchActive.Core(m) ==> MatchActive.Core(m.(store := Elect(m.store, k, u)))
  {
    var s, s' := m.store, Elect(m.store, k, u);
    var m' := Settled(m.(store := s'));
    FlagKeepsRecords(s.attempts, s.pending, k, u == k.low);
    assert s'.pending.Keys == s.pending.Keys;
    forall h | h in s'.pending
      ensures Engaged(m'.store, h, s'.pending[h])
    {
      assert Engaged(s, h, s.pending[h]);
    }
  }

  /** The user skips the proposal, or cancels during it. */
  predicate TearsDown(m: System, e: Event, k: Pair) {
    match e
    case RespondTo(u, a, decision, _) => decision == Skip && MayRespond(m.store, u, a, k)
    case Cancel(u) => Involves(k, u)
    case PendingExpires(h) => h == k
    case _ => false
  }

  lemma ConnectAgainChangesNothing(m: System, e: Event, k: Pair)
    requires Creating(m, k) && ConnectsAgain(m, e, k)
    ensures Step(m, e) == m
  {
    assert m.store.pending[k := m.store.pending[k]] == m.store.pending;
  }

  // ---------- the proposal stays open until someone tears it down ----------

  /** Everything about the proposal of `k` is as it was. */
  predicate SameProposal(s: Store, s': Store, k: Pair) {
    k in s.pending && k in s'.pending && s'.pending[k] == s.pending[k] && s'.finalize == s.finalize
  }

  lemma PassKeepsProposal(m: System, cands: seq<Candidate>, isFallback: bool, k: Pair)
    requires Creating(m, k)
    ensures SameProposal(m.store, Step(m, Pass(cands, isFallback)).store, k)
  {
    if m.working.Some? {
      var s, job := m.store, m.working.value;
      var i := FirstPairable(s, job, cands);
      if i < |cands| {
        assert Engaged(Settled(m).store, k, s.pending[k]);
        assert InState(s, job.userId, MatchModel.Searching);
        assert Involves(PairOf(job.userId, cands[i].userId), job.userId);
      }
    }
  }

  /** The proposal of `k` is gone and both its attempts have ended. */
  predicate IsTornDown(s: Store, s': Store, k: Pair) {
    && k in s.pending && k !in s'.pending
    && BothEnded(s'.attempts, s.pending[k])
  }

  /** Ending the proposal of `h` tears down that one and spares the others. */
  lemma EndTearsDown(s: Store, h: Pair, p: Pending, reasonLow: string, reasonHigh: string, k: Pair)
    requires Sound(s.attempts, h, p) && k in s.pending
    ensures var s' := EndBoth(s, p, reasonLow, reasonHigh);
      && (h != k ==> k in s'.pending && s'.pending[k] == s.pending[k] && s'.finalize == s.finalize - {h})
      && (h == k && p == s.pending[k] ==> IsTornDown(s, s', k))
  {
    EndBothCloses(s, h, p, reasonLow, reasonHigh);
  }

  lemma LandSpares(s: Store, h: Pair, p: Pending, room: Option<Id>, k: Pair)
    requires Sound(s.attempts, h, p) && k in s.pending && h != k
    ensures var s' := Land(s, p, room);
      k in s'.pending && s'.pending[k] == s.pending[k] && s'.finalize == s.finalize - {h}
  {
    LandCloses(s, h, p, room);
  }

  lemma SkipOutcome(s: Store, u: Id, a: Id, h: Pair, room: Option<Id>, k: Pair)
    requires MayRespond(s, u, a, h) && k in s.pending && s.finalize == {k}
    ensures var s' := Respond(s, u, a, Skip, room).0;
      if h == k then IsTornDown(s, s', k) else SameProposal(s, s', k)
  {
    SkipCloses(s, h, u, a, room);
  }

  lemma OtherConnectOutcome(s: Store, u: Id, a: Id, h: Pair, room: Option<Id>, k: Pair)
    requires MayRespond(s, u, a, h) && k in s.pending && s.finalize == {k} && h != k
    ensures SameProposal(s, Respond(s, u, a, Connect, room).0, k)
  {
    ConnectIs(s, h, u, a, room);
    FlagTouches(s, h, u);
    if RecordConnect(s, h, u).1 == 2 {
      LandSpares(Elect(s, h, u), h, s.pending[h], room, k);
    }
  }

  lemma RespondKeepsProposalIff(m: System, e: Event, k: Pair)
    requires Creating(m, k) && e.RespondTo? && !ConnectsAgain(m, e, k)
    ensures if TearsDown(m, e, k) then IsTornDown(m.store, Step(m, e).store, k)
        else SameProposal(m.store, Step(m, e).store, k)
  {
    var s, u, a := m.store, e.user, e.attempt;
    if Belongs(s.attempts, a, u) && s.attempts[a].status == Proposed && s.attempts[a].peer.Some? {
      var h := PairOf(u, s.attempts[a].peer.value);
      if h in s.pending {
        assert Sound(Settled(m).store.attempts, h, s.pending[h]);
        assert MayRespond(s, u, a, h);
        if e.decision == Skip {
          SkipOutcome(s, u, a, h, e.room, k);
        } else {
          OtherConnectOutcome(s, u, a, h, e.room, k);
        }
      }
    }
  }

  lemma CancelOutcome(s: Store, u: Id, h: Pair, k: Pair)
    requires u in s.last && MayRespond(s, u, s.last[u], h) && k in s.pending && s.finalize == {k}
    ensures var s' := CancelMatch(s, u);
      if h == k then IsTornDown(s, s', k) else SameProposal(s, s', k)
  {
    var p := s.pending[h];
    CancelIs(s, h, u);
    var reasonLow := if u == p.userLow then "cancelled_by_user" else "proposal_peer_cancelled";
    var reasonHigh := if u == p.userHigh then "cancelled_by_user" else "proposal_peer_cancelled";
    EndTearsDown(RemoveFromPool(s, u), h, p, reasonLow, reasonHigh, k);
  }

  lemma InProposalMayRespond(m: System, u: Id, h: Pair)
    requires Exclusive(Settled(m)) && h in m.store.pending && Involves(h, u)
    ensures u in m.store.last && MayRespond(m.store, u, m.store.last[u], h)
  {
    var s := Settled(m).store;
    assert Sound(s.attempts, h, s.pending[h]) && Engaged(s, h, s.pending[h]);
    PairOfSymmetric(h.low, h.high);
  }

  lemma CancelKeepsProposalIff(m: System, u: Id, k: Pair)
    requires Creating(m, k)
    ensures Involves(k, u) ==> IsTornDown(m.store, Step(m, Cancel(u)).store, k)
    ensures !Involves(k, u) ==> SameProposal(m.store, Step(m, Cancel(u)).store, k)
  {
    var s := m.store;
    if Involves(k, u) {
      InProposalMayRespond(m, u, k);
      CancelOutcome(s, u, k, k);
    } else if InSome(s.pending.Keys, u) {
      var h :| h in s.pending.Keys && Involves(h, u);
      InProposalMayRespond(m, u, h);
      CancelOutcome(s, u, h, k);
    } else {
      CancelOutsideKeepsProposals(s, u);
    }
  }

  lemma CancelOutsideKeepsProposals(s: Store, u: Id)
    requires !InSome(s.pending.Keys, u)
    ensures CancelMatch(s, u).pending == s.pending && CancelMatch(s, u).finalize == s.finalize
  {
    if u in s.last && s.last[u] in s.attempts && s.attempts[s.last[u]].peer.Some? {
      var h := PairOf(u, s.attempts[s.last[u]].peer.value);
      assert h in s.pending.Keys ==> !Involves(h, u);
    }
  }

  /** Only the two users, or expiry, close the proposal meanwhile; skipping and cancelling end both attempts. */
  lemma StepKeepsProposalIff(m: System, e: Event, k: Pair)
    requires Creating(m, k)
    ensures TearsDown(m, e, k) ==> k !in Step(m, e).store.pending
    ensures TearsDown(m, e, k) && !e.PendingExpires? ==> IsTornDown(m.store, Step(m, e).store, k)
    ensures !TearsDown(m, e, k) ==> SameProposal(m.store, Step(m, e).store, k)
  {
    if ConnectsAgain(m, e, k) {
      ConnectAgainChangesNothing(m, e, k);
    } else if e.RespondTo? {
      RespondKeepsProposalIff(m, e, k);
    } else if e.Cancel? {
      CancelKeepsProposalIff(m, e.user, k);
    } else if e.Pass? {
      PassKeepsProposal(m, e.cands, e.isFallback, k);
    } else if Quiet(e) {
      QuietKeepsProposals(m, e);
    }
  }

  lemma StepKeepsCreating(m: System, e: Event, k: Pair)
    requires Creating(m, k) && KeepsExclusivity(m, e) && !TearsDown(m, e, k)
    ensures Creating(Step(m, e), k) && Step(m, e).store.pending[k] == m.store.pending[k]
  {
    StepKeepsProposalIff(m, e, k);
    if ConnectsAgain(m, e, k) {
      ConnectAgainChangesNothing(m, e, k);
    } else {
      StepSettles(m, e, k);
      assert KeepsExclusivity(Settled(m), e);
      StepKeepsExclusivityIff(Settled(m), e);
      assert Settled(Step(Settled(m), e)) == Step(Settled(m), e);
    }
  }

  // ---------- runs while the room is being created ----------

  /** At some point of the run the proposal is skipped or cancelled, or its record expires. */
  predicate TornDown(m: System, es: seq<Event>, k: Pair)
    decreases |es|
  {
    es != [] && (TearsDown(m, es[0], k) || TornDown(Step(m, es[0]), es[1..], k))
  }

  /** At every point of the run its record is there. */
  predicate StaysOpen(m: System, es: seq<Event>, k: Pair)
    decreases |es|
  {
    k in m.store.pending && (es == [] || StaysOpen(Step(m, es[0]), es[1..], k))
  }

  lemma {:induction false} OpenUnlessTornDown(m: System, es: seq<Event>, k: Pair)
    requires Creating(m, k) && RunKeepsExclusivity(m, es)
    ensures StaysOpen(m, es, k) <==> !TornDown(m, es, k)
    ensures !TornDown(m, es, k) ==> Creating(Run(m, es), k) && Run(m, es).store.pending[k] == m.store.pending[k]
    decreases |es|
  {
    if es != [] {
      StepKeepsProposalIff(m, es[0], k);
      if !TearsDown(m, es[0], k) {
        StepKeepsCreating(m, es[0], k);
        OpenUnlessTornDown(Step(m, es[0]), es[1..], k);
      }
    }
  }

  /** Whatever has happened since, a room that has been created takes in both users and both attempts. */
  lemma LandingMatches(s: Store, p: Pending, id: Id)
    requires p.userLow != p.userHigh && p.attemptLow != p.attemptHigh
    ensures var s' := Land(s, p, Some(id));
      && BothMatched(s'.attempts, p, id)
      && InState(s', p.userLow, InRoom) && InState(s', p.userHigh, InRoom)
  {
  }

  /**
   * Both attempts end up matched in any case; so the attempts of a proposal that was torn down are
   * matched exactly if one of its users skipped or cancelled, or its record expired, while the room
   * was being created. Otherwise the proposal ends as it does without the delay.
   */
  lemma MatchedAfterTearDownIff(m: System, es: seq<Event>, k: Pair, id: Id)
    requires Creating(m, k) && RunKeepsExclusivity(m, es)
    ensures var p, s := m.store.pending[k], Run(m, es).store;
      var s' := Land(s, p, Some(id));
      && BothMatched(s'.attempts, p, id)
      && InState(s', k.low, InRoom) && InState(s', k.high, InRoom)
      && (!StaysOpen(m, es, k) <==> TornDown(m, es, k))
      && (!TornDown(m, es, k) ==> Closes(s, s', k, p) && Exclusive(Run(m, es).(store := s')))
  {
    var p, m' := m.store.pending[k], Run(m, es);
    assert Sound(Settled(m).store.attempts, k, p);
    LandingMatches(m'.store, p, id);
    OpenUnlessTornDown(m, es, k);
    if !TornDown(m, es, k) {
      LandingCloses(m', k, id);
    }
  }

  lemma LandingCloses(m: System, k: Pair, id: Id)
    requires Creating(m, k)
    ensures var s, p := m.store, m.store.pending[k];
      Closes(s, Land(s, p, Some(id)), k, p) && Exclusive(m.(store := Land(s, p, Some(id))))
  {
    var s, p := m.store, m.store.pending[k];
    assert Sound(Settled(m).store.attempts, k, p);
    EnterRoomCloses(s, k, p, id);
    EnterRoomCloses(Unset(s), k, p, id);
    CloseKeepsExclusivity(Settled(m), Land(Unset(s), p, Some(id)), k);
    LandSettles(s, Unset(s), p, Some(id));
    assert Land(s, p, Some(id)) == Land(Unset(s), p, Some(id));
  }

  // ---------- the room of a proposal that is gone ----------

  /** Neither user of the pair is in another proposal or under another pair lock. */
  predicate IsFreeOfOthers(s: Store, k: Pair) {
    forall h <- s.pending.Keys + s.pairLock.Keys :: h != k ==> !Involves(h, k.low) && !Involves(h, k.high)
  }

  /** An answer of the room service may arrive for the record `p` of `k`, whatever has become of that proposal. */
  predicate MayLand(m: System, k: Pair, p: Pending) {
    && IsAbout(p, k) && m.store.finalize <= {k}
    && Belongs(m.store.attempts, p.attemptLow, k.low) && Belongs(m.store.attempts, p.attemptHigh, k.high)
  }

  lemma UnlockBreaksOthers(userLock: map<Id, Id>, pairLock: map<Pair, Id>, k: Pair, h: Pair)
    requires h in pairLock && h != k && (Involves(h, k.low) || Involves(h, k.high))
    ensures !LocksAgree(userLock - {k.low, k.high}, pairLock - {k})
  {
    assert h in pairLock - {k} && !LockAgrees(userLock - {k.low, k.high}, h, (pairLock - {k})[h]);
  }

  lemma UnlockSparesOthers(userLock: map<Id, Id>, pairLock: map<Pair, Id>, k: Pair)
    requires LocksAgree(userLock, pairLock)
    requires forall h <- pairLock.Keys :: h != k ==> !Involves(h, k.low) && !Involves(h, k.high)
    ensures LocksAgree(userLock - {k.low, k.high}, pairLock - {k})
  {
    assert k.low in userLock ==> InSome(pairLock.Keys, k.low);
    assert k.high in userLock ==> InSome(pairLock.Keys, k.high);
    UnlockKeepsAgreement(userLock, pairLock, k);
  }

  lemma ClosingKeepsOther(s: Store, s': Store, k: Pair, p: Pending, h: Pair)
    requires LocksAreOwn(s) && Closes(s, s', k, p)
    requires IsFreeOfOthers(s, k) && h in s.pending && h != k
    ensures Engaged(s', h, s.pending[h]) <==> Engaged(s, h, s.pending[h])
    ensures (h.low in s'.userLock || h.high in s'.userLock) ==> h in s'.pairLock
  {
    assert h in s.pending.Keys + s.pairLock.Keys;
    assert Involves(h, h.low) && Involves(h, h.high);
  }

  lemma ClosingKeepsRecord(s: Store, s': Store, k: Pair, p: Pending, h: Pair)
    requires Closes(s, s', k, p)
    requires Belongs(s.attempts, p.attemptLow, k.low) && Belongs(s.attempts, p.attemptHigh, k.high)
    requires IsFreeOfOthers(s, k) && h in s.pending && h != k
    ensures Sound(s'.attempts, h, s.pending[h]) <==> Sound(s.attempts, h, s.pending[h])
  {
    assert h in s.pending.Keys + s.pairLock.Keys;
    assert Involves(h, h.low) && Involves(h, h.high);
  }

  lemma ClosingKeepsOwned(m: System, s': Store, k: Pair, p: Pending)
    requires Owned(m.store.attempts, m.store.last, m.store.queue, m.working) && Closes(m.store, s', k, p)
    requires Belongs(m.store.attempts, p.attemptLow, k.low) && Belongs(m.store.attempts, p.attemptHigh, k.high)
    requires k.low != k.high
    ensures Owned(s'.attempts, s'.last, s'.queue, m.working)
  {
    var s, x, y := m.store, s'.attempts[p.attemptLow], s'.attempts[p.attemptHigh];
    OwnedAfterWrite(s.attempts, s.last, s.queue, m.working, p.attemptLow, x);
    OwnedAfterWrite(s.attempts[p.attemptLow := x], s.last[k.low := p.attemptLow], s.queue, m.working, p.attemptHigh, y);
  }

  lemma ClosingKeepsExclusivity(m: System, s': Store, k: Pair, p: Pending)
    requires Exclusive(Settled(m)) && MayLand(m, k, p) && Closes(m.store, s', k, p) && IsFreeOfOthers(m.store, k)
    ensures Exclusive(m.(store := s'))
  {
    var s := m.store;
    ClosingKeepsOwned(m, s', k, p);
    assert AllEngaged(Unset(s)) && Closes(Unset(s), s', k, p) && IsFreeOfOthers(Unset(s), k);
    UnlockSparesOthers(s.userLock, s.pairLock, k);
    forall h | h in s'.pending
      ensures Sound(s'.attempts, h, s'.pending[h]) && Engaged(s', h, s'.pending[h])
      ensures (h.low in s'.userLock || h.high in s'.userLock) ==> h in s'.pairLock
    {
      assert Engaged(Unset(s), h, s.pending[h]) && Sound(s.attempts, h, s.pending[h]);
      ClosingKeepsOther(Unset(s), s', k, p, h);
      ClosingKeepsRecord(Unset(s), s', k, p, h);
    }
    assert s'.pending.Keys <= s.pending.Keys;
  }

  /** Whichever way the room service answers, neither user is locked afterwards. */
  lemma LandingUnlocks(s: Store, p: Pending, room: Option<Id>)
    ensures !InState(Land(s, p, room), p.userLow, Locked) && !InState(Land(s, p, room), p.userHigh, Locked)
  {
  }

  lemma LandingBreaksOther(m: System, k: Pair, p: Pending, room: Option<Id>, h: Pair)
    requires MayLand(m, k, p) && (h in m.store.pending || h in m.store.pairLock)
    requires h != k && (Involves(h, k.low) || Involves(h, k.high))
    ensures !Exclusive(m.(store := Land(m.store, p, room)))
  {
    var s, s' := m.store, Land(m.store, p, room);
    LandCloses(s, k, p, room);
    LandingUnlocks(s, p, room);
    if h in s.pending {
      assert h in s'.pending && !Engaged(s', h, s'.pending[h]);
    } else {
      UnlockBreaksOthers(s.userLock, s.pairLock, k, h);
    }
  }

  /**
   * A room answer, successful or not, that comes after its proposal is gone keeps proposals exclusive
   * exactly if neither user has got into another proposal, or under another lock, meanwhile.
   */
  lemma LandKeepsExclusivityIff(m: System, k: Pair, p: Pending, room: Option<Id>)
    requires Exclusive(Settled(m)) && MayLand(m, k, p)
    ensures Exclusive(m.(store := Land(m.store, p, room))) <==> IsFreeOfOthers(m.store, k)
  {
    var s := m.store;
    if IsFreeOfOthers(s, k) {
      LandCloses(s, k, p, room);
      ClosingKeepsExclusivity(m, Land(s, p, room), k, p);
    } else {
      var h :| h in s.pending.Keys + s.pairLock.Keys && h != k && (Involves(h, k.low) || Involves(h, k.high));
      LandingBreaksOther(m, k, p, room, h);
    }
  }

  // ---------- any run while the answer is in flight ----------

  /**
   * Whatever run the creation of the room has taken, with the proposal torn down, expired or still open:
   * its answer keeps proposals exclusive exactly if neither user is in another proposal, or under
   * another pair lock, by then.
   */
  lemma LandAfterRunKeepsExclusivityIff(m: System, es: seq<Event>, k: Pair, room: Option<Id>)
    requires Creating(m, k) && MatchActive.Core(m) && RunKeepsExclusivity(m, es)
    ensures var p, m' := m.store.pending[k], Run(m, es);
      Exclusive(m'.(store := Land(m'.store, p, room))) <==> IsFreeOfOthers(m'.store, k)
  {
    var p := m.store.pending[k];
    assert Sound(Settled(m).store.attempts, k, p);
    RunsKeepInFlight(m, es, k);
    MatchActive.RunsKeepCore(m, es);
    LandKeepsExclusivityIff(Run(m, es), k, p, room);
  }
}
