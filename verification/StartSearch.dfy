/**
 * Concurrent `startFindMatch` calls of one user, interleaved between any two Redis commands.
 * The start lock does not expire and no call reaches the wait limit.
 */
module StartSearch {
  import opened RedisKeys
  import opened Types
  import MatchEffects
  import MatchModel

  datatype Status = Seeking | Proposed | Ended

  datatype Answer = Existing | Found(attempt: Id) | Created(attempt: Id)

  /** The next command of a call; inside the lock from `Recheck` to `Unlock`. */
  datatype Pc =
    | CheckDuplicate
    | ReadLast
    | ReadAttempt(id: Id)
    | TryLock
    | Recheck
    | RecheckAttempt(id: Id)
    | WriteAttempt
    | WriteLast
    | ReadLock(answer: Answer)
    | Unlock(answer: Answer)
    | Finished(answer: Answer)

  datatype Call = Call(requestId: Id, pc: Pc)

  /** Attempts and last attempt of the user, the start lock, and all calls so far. */
  datatype System = System(attempts: map<Id, Status>, last: Option<Id>, lock: Option<Id>, calls: map<nat, Call>)

  /**
   * A new call, one command of a call, an attempt proposed or ended by someone else, the last one or not,
   * or a call turned away as unavailable or without a profile snapshot.
   */
  datatype Event =
    | Arrive(call: nat, requestId: Id)
    | Act(call: nat)
    | Propose(attempt: Id)
    | End(attempt: Id)
    | Refuse(requestId: Id)

  predicate Active(m: System, a: Id) {
    a in m.attempts && m.attempts[a] != Ended
  }

  predicate LastIsActive(m: System) {
    m.last.Some? && Active(m, m.last.value)
  }

  function At(m: System, c: nat, pc: Pc): System
    requires c in m.calls
  {
    m.(calls := m.calls[c := m.calls[c].(pc := pc)])
  }

  /** Every write to an attempt also makes it the last one. */
  function Write(m: System, a: Id, status: Status): System {
    m.(attempts := m.attempts[a := status], last := Some(a))
  }

  /** One command of call `c`. */
  function Command(m: System, c: nat): System
    requires c in m.calls
  {
    var r := m.calls[c].requestId;
    match m.calls[c].pc
    case CheckDuplicate => At(m, c, if r in m.attempts then Finished(Existing) else ReadLast)
    case ReadLast => At(m, c, if m.last.Some? then ReadAttempt(m.last.value) else TryLock)
    case ReadAttempt(id) => At(m, c, if Active(m, id) then Finished(Found(id)) else TryLock)
    case TryLock => if m.lock.None? then At(m.(lock := Some(r)), c, Recheck) else At(m, c, ReadLast)
    case Recheck => At(m, c, if m.last.Some? then RecheckAttempt(m.last.value) else WriteAttempt)
    case RecheckAttempt(id) => At(m, c, if Active(m, id) then ReadLock(Found(id)) else WriteAttempt)
    case WriteAttempt => At(m.(attempts := m.attempts[r := Seeking]), c, WriteLast)
    case WriteLast => At(m.(last := Some(r)), c, ReadLock(Created(r)))
    case ReadLock(answer) => At(m, c, if m.lock == Some(r) then Unlock(answer) else Finished(answer))
    case Unlock(answer) => At(m.(lock := None), c, Finished(answer))
    case Finished(answer) => m
  }

  /** An event that is not enabled changes nothing. */
  function Step(m: System, e: Event): System {
    match e
    case Arrive(c, r) => if c in m.calls then m else m.(calls := m.calls[c := Call(r, CheckDuplicate)])
    case Act(c) => if c in m.calls then Command(m, c) else m
    case Propose(a) => if a in m.attempts then Write(m, a, Proposed) else m
    case End(a) => if a in m.attempts then Write(m, a, Ended) else m
    case Refuse(r) => if r in m.attempts then m else Write(m, r, Ended)
  }

  function Run(m: System, es: seq<Event>): System
    decreases |es|
  {
    if es == [] then m else Run(Step(m, es[0]), es[1..])
  }

  const INITIAL := System(map[], None, None, map[])

  // ---------- the invariant ----------

  predicate Inside(pc: Pc) {
    pc.Recheck? || pc.RecheckAttempt? || pc.WriteAttempt? || pc.WriteLast? || pc.ReadLock? || pc.Unlock?
  }

  /** The call that is inside the lock holds it, and it is alone there. */
  ghost predicate Exclusion(m: System) {
    && (forall c :: c in m.calls && Inside(m.calls[c].pc) ==> m.lock == Some(m.calls[c].requestId))
    && (forall c, d :: c in m.calls && d in m.calls && Inside(m.calls[c].pc) && Inside(m.calls[d].pc) ==> c == d)
  }

  /** The attempt is written but not yet the user's last one. */
  ghost predicate Committing(m: System, a: Id) {
    exists c :: c in m.calls && m.calls[c] == Call(a, WriteLast)
  }

  ghost predicate OnlyActive(m: System, a: Id) {
    forall b :: Active(m, b) ==> b == a
  }

  /** What the call inside the lock knows about active attempts. */
  ghost predicate Knows(m: System, call: Call) {
    match call.pc
    case RecheckAttempt(id) => OnlyActive(m, id)
    case WriteAttempt => forall b :: !Active(m, b)
    case WriteLast => OnlyActive(m, call.requestId)
    case _ => true
  }

  ghost predicate Inv(m: System) {
    && Exclusion(m)
    && (forall a :: Active(m, a) ==> m.last == Some(a) || Committing(m, a))
    && (forall c :: c in m.calls ==> Knows(m, m.calls[c]))
  }

  /** At any time at most one attempt of the user is searching or proposed. */
  lemma AtMostOneActive(m: System, a: Id, b: Id)
    requires Inv(m) && Active(m, a) && Active(m, b)
    ensures a == b
  {
    if m.last != Some(a) {
      var c :| c in m.calls && m.calls[c] == Call(a, WriteLast);
      assert Knows(m, m.calls[c]);
    }
    if m.last != Some(b) {
      var c :| c in m.calls && m.calls[c] == Call(b, WriteLast);
      assert Knows(m, m.calls[c]);
    }
  }

  /** No attempt but `a` is active, except one that is still being committed. */
  ghost predicate HidesNone(m: System, a: Id) {
    forall b :: Active(m, b) && b != a ==> Committing(m, b)
  }

  /** The call has not yet seen that no attempt but `a` is active. */
  predicate Admits(call: Call, a: Id) {
    match call.pc
    case RecheckAttempt(id) => id == a
    case WriteAttempt => false
    case WriteLast => call.requestId == a
    case _ => true
  }

  /**
   * Turning a call away, and ending an attempt, is harmless exactly when it hides no active attempt behind
   * the written one; reviving an attempt by proposing it, when none is active and no call relies on that.
   */
  ghost predicate Harmless(m: System, e: Event) {
    match e
    case Refuse(r) => r in m.attempts || HidesNone(m, r)
    case End(a) => a !in m.attempts || HidesNone(m, a)
    case Propose(a) =>
      || a !in m.attempts || Active(m, a)
      || ((forall b :: !Active(m, b)) && forall c :: c in m.calls ==> Admits(m.calls[c], a))
    case _ => true
  }

  // ---------- steps ----------

  lemma CommandKeepsExclusion(m: System, c: nat)
    requires Inv(m) && c in m.calls
    ensures Exclusion(Command(m, c))
  {
    var m' := Command(m, c);
    assert m'.calls == m.calls[c := m'.calls[c]] && m'.calls[c].requestId == m.calls[c].requestId;
    assert Inside(m'.calls[c].pc) ==> Inside(m.calls[c].pc) || m.lock.None?;
    assert m.calls[c].pc.Unlock? ==> Inside(m.calls[c].pc) && !Inside(m'.calls[c].pc);
    forall d | d in m.calls && d != c && Inside(m.calls[d].pc)
      ensures m'.lock == Some(m.calls[d].requestId) && !Inside(m'.calls[c].pc)
    {
      assert m.lock == Some(m.calls[d].requestId) && !Inside(m.calls[c].pc);
    }
  }

  lemma CommandKeepsCommitting(m: System, c: nat, a: Id)
    requires Inv(m) && c in m.calls && Active(Command(m, c), a)
    ensures Command(m, c).last == Some(a) || Committing(Command(m, c), a)
  {
    var m', r := Command(m, c), m.calls[c].requestId;
    if m.calls[c].pc.WriteAttempt? {
      assert Knows(m, m.calls[c]);
      assert m'.calls[c] == Call(r, WriteLast);
    } else if m.calls[c].pc.WriteLast? {
      assert Knows(m, m.calls[c]) && Active(m, a);
    } else if m.last != Some(a) {
      var d :| d in m.calls && m.calls[d] == Call(a, WriteLast);
      assert m'.calls[d] == Call(a, WriteLast);
    }
  }

  lemma CommandKeepsKnowledge(m: System, c: nat, d: nat)
    requires Inv(m) && c in m.calls && d in Command(m, c).calls
    ensures Knows(Command(m, c), Command(m, c).calls[d])
  {
    var m' := Command(m, c);
    assert d in m.calls && Knows(m, m.calls[d]) && Knows(m, m.calls[c]);
    if m.calls[c].pc.Recheck? {
      assert Inside(m.calls[c].pc);
      forall a | Active(m, a)
        ensures m.last == Some(a)
      {
        if Committing(m, a) {
          var h :| h in m.calls && m.calls[h] == Call(a, WriteLast);
          assert Inside(m.calls[h].pc);
        }
      }
    }
    if m.calls[c].pc.WriteAttempt? {
      assert Inside(m.calls[c].pc) && (d != c ==> !Inside(m.calls[d].pc));
      forall b | Active(m', b)
        ensures b == m.calls[c].requestId
      {
        assert b != m.calls[c].requestId ==> Active(m, b);
      }
    }
    assert !m.calls[c].pc.WriteAttempt? ==> forall b :: Active(m', b) <==> Active(m, b);
  }

  lemma CommandKeepsInv(m: System, c: nat)
    requires Inv(m) && c in m.calls
    ensures Inv(Command(m, c))
  {
    CommandKeepsExclusion(m, c);
    forall a | Active(Command(m, c), a)
      ensures Command(m, c).last == Some(a) || Committing(Command(m, c), a)
    {
      CommandKeepsCommitting(m, c, a);
    }
    forall d | d in Command(m, c).calls
      ensures Knows(Command(m, c), Command(m, c).calls[d])
    {
      CommandKeepsKnowledge(m, c, d);
    }
  }

  lemma StepKeepsInvIff(m: System, e: Event)
    requires Inv(m)
    ensures Inv(Step(m, e)) <==> Harmless(m, e)
  {
    var m' := Step(m, e);
    match e
    case Act(c) =>
      if c in m.calls {
        CommandKeepsInv(m, c);
      }
    case Arrive(c, r) =>
      if c !in m.calls {
        forall a | Active(m', a)
          ensures m'.last == Some(a) || Committing(m', a)
        {
          if Committing(m, a) {
            var d :| d in m.calls && m.calls[d] == Call(a, WriteLast);
            assert m'.calls[d] == Call(a, WriteLast);
          }
        }
        KnowledgeShrinks(m, m');
      }
    case Propose(a) =>
      if a in m.attempts && Active(m, a) {
        ProposeKeepsInv(m, a);
      } else if a in m.attempts {
        RevivalKeepsInvIff(m, a);
      }
    case End(a) =>
      if a in m.attempts {
        EndKeepsInvIff(m, a);
      }
    case Refuse(r) =>
      if r !in m.attempts {
        EndKeepsInvIff(m, r);
      }
  }

  lemma EndKeepsInvIff(m: System, a: Id)
    requires Inv(m)
    ensures Inv(Write(m, a, Ended)) <==> HidesNone(m, a)
  {
    var m' := Write(m, a, Ended);
    assert forall b :: Active(m', b) <==> Active(m, b) && b != a;
    assert forall b :: Committing(m', b) <==> Committing(m, b);
    KnowledgeShrinks(m, m');
  }

  lemma ProposeKeepsInv(m: System, a: Id)
    requires Inv(m) && Active(m, a)
    ensures Inv(Write(m, a, Proposed))
  {
    var m' := Write(m, a, Proposed);
    assert forall b :: Active(m', b) <==> Active(m, b);
    KnowledgeShrinks(m, m');
    forall b | Active(m', b)
      ensures m'.last == Some(b)
    {
      AtMostOneActive(m, a, b);
    }
  }

  lemma RevivalKeepsInvIff(m: System, a: Id)
    requires Inv(m) && a in m.attempts && !Active(m, a)
    ensures Inv(Write(m, a, Proposed)) <==>
      (forall b :: !Active(m, b)) && forall c :: c in m.calls ==> Admits(m.calls[c], a)
  {
    var m' := Write(m, a, Proposed);
    assert forall b :: Active(m', b) <==> Active(m, b) || b == a;
    if Inv(m') {
      forall b
        ensures !Active(m, b)
      {
        if Active(m, b) {
          AtMostOneActive(m', a, b);
        }
      }
      forall c | c in m.calls
        ensures Admits(m.calls[c], a)
      {
        assert Knows(m', m'.calls[c]) && Active(m', a);
      }
    } else if forall b :: !Active(m, b) {
      assert Exclusion(m');
      var c :| c in m'.calls && !Knows(m', m'.calls[c]);
      assert !Admits(m.calls[c], a);
    }
  }

  /** What calls know stays true when no attempt becomes active. */
  lemma KnowledgeShrinks(m: System, m': System)
    requires Inv(m) && forall a :: Active(m', a) ==> Active(m, a)
    requires forall c :: c in m'.calls && Inside(m'.calls[c].pc) ==> c in m.calls && m.calls[c] == m'.calls[c]
    ensures forall c :: c in m'.calls ==> Knows(m', m'.calls[c])
  {
    forall c | c in m'.calls
      ensures Knows(m', m'.calls[c])
    {
      if Inside(m'.calls[c].pc) {
        assert Knows(m, m.calls[c]);
      }
    }
  }

  ghost predicate AllHarmless(m: System, es: seq<Event>)
    decreases |es|
  {
    es == [] || (Harmless(m, es[0]) && AllHarmless(Step(m, es[0]), es[1..]))
  }

  /** Any number of calls, interleaved in any way with each other and with the lives of the attempts. */
  lemma {:induction false} RunsKeepInv(m: System, es: seq<Event>)
    requires Inv(m) && AllHarmless(m, es)
    ensures Inv(Run(m, es))
    decreases |es|
  {
    if es != [] {
      StepKeepsInvIff(m, es[0]);
      RunsKeepInv(Step(m, es[0]), es[1..]);
    }
  }

  lemma MutualExclusion(es: seq<Event>, a: Id, b: Id)
    requires AllHarmless(INITIAL, es) && Active(Run(INITIAL, es), a) && Active(Run(INITIAL, es), b)
    ensures a == b
  {
    RunsKeepInv(INITIAL, es);
    AtMostOneActive(Run(INITIAL, es), a, b);
  }

  /** A call that decides to answer with an attempt that it found answers with the one active attempt of that moment. */
  lemma FoundIsTheActiveOne(m: System, c: nat, id: Id)
    requires Inv(m) && c in m.calls
    requires m.calls[c].pc == ReadAttempt(id) || m.calls[c].pc == RecheckAttempt(id)
    ensures var pc := Command(m, c).calls[c].pc;
      (pc == Finished(Found(id)) || pc == ReadLock(Found(id))) <==> Active(m, id)
    ensures Active(m, id) ==> OnlyActive(m, id)
  {
    if Active(m, id) {
      forall b | Active(m, b)
        ensures b == id
      {
        AtMostOneActive(m, id, b);
      }
    }
  }

  /**
   * Only the holder of the lock makes an attempt active, or a proposal under an attempt that is over;
   * and only when none is active, if the step is harmless.
   */
  lemma OnlyHolderActivates(m: System, e: Event, a: Id)
    requires Inv(m) && !Active(m, a) && Active(Step(m, e), a)
    ensures e == Propose(a) ||
      (e.Act? && e.call in m.calls && m.calls[e.call] == Call(a, WriteAttempt) && m.lock == Some(a))
    ensures e.Act? || Harmless(m, e) ==> forall b :: !Active(m, b)
  {
    if e.Act? {
      assert Knows(m, m.calls[e.call]);
    }
  }

  // ---------- a call that nobody disturbs ----------

  function Acts(c: nat, n: nat): seq<Event> {
    if n == 0 then [] else [Act(c)] + Acts(c, n - 1)
  }

  lemma {:induction false} RunConcat(m: System, es: seq<Event>, fs: seq<Event>)
    ensures Run(m, es + fs) == Run(Run(m, es), fs)
    decreases |es|
  {
    if es == [] {
      assert es + fs == fs;
    } else {
      assert (es + fs)[0] == es[0] && (es + fs)[1..] == es[1..] + fs;
      RunConcat(Step(m, es[0]), es[1..], fs);
    }
  }

  lemma ActsNext(m: System, c: nat, n: nat)
    requires c in m.calls && n > 0
    ensures Run(m, Acts(c, n)) == Run(Command(m, c), Acts(c, n - 1))
  {
    assert Acts(c, n)[1..] == Acts(c, n - 1);
  }

  lemma {:induction false} FinishedStays(m: System, c: nat, n: nat)
    requires c in m.calls && m.calls[c].pc.Finished?
    ensures Run(m, Acts(c, n)) == m
    decreases n
  {
    if n > 0 {
      ActsNext(m, c, n);
      FinishedStays(m, c, n - 1);
    }
  }

  lemma AtTwice(m: System, c: nat, p: Pc, q: Pc)
    requires c in m.calls
    ensures At(At(m, c, p), c, q) == At(m, c, q)
  {
    assert m.calls[c := m.calls[c].(pc := p)][c := m.calls[c].(pc := q)] == m.calls[c := m.calls[c].(pc := q)];
  }

  /** Looking for an active attempt and finding none takes at most three commands. */
  lemma FindsNone(m: System, c: nat, r: Id, n: nat) returns (left: nat)
    requires c in m.calls && m.calls[c] == Call(r, CheckDuplicate) && r !in m.attempts && !LastIsActive(m) && n >= 3
    ensures left >= n - 3 && Run(m, Acts(c, n)) == Run(At(m, c, TryLock), Acts(c, left))
  {
    ActsNext(m, c, n);
    ActsNext(At(m, c, ReadLast), c, n - 1);
    AtTwice(m, c, ReadLast, TryLock);
    left := n - 2;
    if m.last.Some? {
      AtTwice(m, c, ReadLast, ReadAttempt(m.last.value));
      ActsNext(At(m, c, ReadAttempt(m.last.value)), c, n - 2);
      AtTwice(m, c, ReadAttempt(m.last.value), TryLock);
      left := n - 3;
    }
  }

  /** So does taking the free lock and looking again. */
  lemma TakesLock(m: System, c: nat, r: Id, n: nat) returns (left: nat)
    requires c in m.calls && m.calls[c] == Call(r, TryLock) && m.lock.None? && !LastIsActive(m) && n >= 3
    ensures left >= n - 3 && Run(m, Acts(c, n)) == Run(At(m.(lock := Some(r)), c, WriteAttempt), Acts(c, left))
  {
    var m1 := m.(lock := Some(r));
    ActsNext(m, c, n);
    ActsNext(At(m1, c, Recheck), c, n - 1);
    AtTwice(m1, c, Recheck, WriteAttempt);
    left := n - 2;
    if m.last.Some? {
      AtTwice(m1, c, Recheck, RecheckAttempt(m.last.value));
      ActsNext(At(m1, c, RecheckAttempt(m.last.value)), c, n - 2);
      AtTwice(m1, c, RecheckAttempt(m.last.value), WriteAttempt);
      left := n - 3;
    }
  }

  /** What the call has done once it has written its attempt and given the lock back. */
  function Committed(m: System, c: nat, r: Id): System
    requires c in m.calls
  {
    At(System(m.attempts[r := Seeking], Some(r), None, m.calls), c, Finished(Created(r)))
  }

  /** Writing the attempt and making it the last one. */
  lemma Writes(m: System, c: nat, r: Id, n: nat)
    requires c in m.calls && m.calls[c] == Call(r, WriteAttempt) && n >= 2
    ensures var m2 := m.(attempts := m.attempts[r := Seeking], last := Some(r));
      Run(m, Acts(c, n)) == Run(At(m2, c, ReadLock(Answer.Created(r))), Acts(c, n - 2))
  {
    var m1 := m.(attempts := m.attempts[r := Seeking]);
    var m2 := m1.(last := Some(r));
    ActsNext(m, c, n);
    ActsNext(At(m1, c, WriteLast), c, n - 1);
    AtTwice(m2, c, WriteLast, ReadLock(Answer.Created(r)));
  }

  /** Giving the lock back. */
  lemma Unlocks(m: System, c: nat, r: Id, answer: Answer, n: nat)
    requires c in m.calls && m.calls[c] == Call(r, ReadLock(answer)) && m.lock == Some(r) && n >= 2
    ensures Run(m, Acts(c, n)) == At(m.(lock := None), c, Finished(answer))
  {
    var m1 := m.(lock := None);
    ActsNext(m, c, n);
    ActsNext(At(m, c, Unlock(answer)), c, n - 1);
    AtTwice(m1, c, Unlock(answer), Finished(answer));
    FinishedStays(At(m1, c, Finished(answer)), c, n - 2);
  }

  lemma CommittedIs(m: System, c: nat, r: Id, pc: Pc)
    requires c in m.calls
    ensures var m2 := m.(attempts := m.attempts[r := Seeking], last := Some(r));
      At(At(m2, c, pc).(lock := None), c, Finished(Answer.Created(r))) == Committed(m, c, r)
  {
    var m2 := m.(attempts := m.attempts[r := Seeking], last := Some(r));
    AtTwice(m2.(lock := None), c, pc, Finished(Answer.Created(r)));
  }

  lemma Commits(m: System, c: nat, r: Id, n: nat)
    requires c in m.calls && m.calls[c] == Call(r, WriteAttempt) && m.lock == Some(r) && n >= 4
    ensures Run(m, Acts(c, n)) == Committed(m, c, r)
  {
    var answer := Answer.Created(r);
    var m2 := m.(attempts := m.attempts[r := Seeking], last := Some(r));
    Writes(m, c, r, n);
    Unlocks(At(m2, c, ReadLock(answer)), c, r, answer, n - 2);
    CommittedIs(m, c, r, ReadLock(answer));
  }

  /** What an undisturbed call does from its first command to its answer, the lock being free. */
  lemma UndisturbedCall(m: System, c: nat, r: Id)
    requires c in m.calls && m.calls[c] == Call(r, CheckDuplicate) && m.lock.None?
    ensures Run(m, Acts(c, 10)) ==
      if r in m.attempts then At(m, c, Finished(Existing))
      else if LastIsActive(m) then At(m, c, Finished(Found(m.last.value)))
      else Committed(m, c, r)
  {
    if r in m.attempts {
      ActsNext(m, c, 10);
      FinishedStays(At(m, c, Finished(Existing)), c, 9);
    } else if LastIsActive(m) {
      ActsNext(m, c, 10);
      ActsNext(At(m, c, ReadLast), c, 9);
      AtTwice(m, c, ReadLast, ReadAttempt(m.last.value));
      ActsNext(At(m, c, ReadAttempt(m.last.value)), c, 8);
      AtTwice(m, c, ReadAttempt(m.last.value), Finished(Found(m.last.value)));
      FinishedStays(At(m, c, Finished(Found(m.last.value))), c, 7);
    } else {
      var left := FindsNone(m, c, r, 10);
      var still := TakesLock(At(m, c, TryLock), c, r, left);
      var m1 := m.(lock := Some(r));
      AtTwice(m1, c, TryLock, WriteAttempt);
      Commits(At(m1, c, WriteAttempt), c, r, still);
      AtTwice(Committed(m, c, r), c, WriteAttempt, Finished(Answer.Created(r)));
    }
  }

  // ---------- the same call as one step of the protocol ----------

  function StatusOf(a: MatchModel.Attempt): Status {
    if a.status.Seeking? then Seeking else if a.status.Proposed? && a.peer.Some? then Proposed else Ended
  }

  /** The user's part of the store. */
  predicate IsPartOf(m: System, s: MatchModel.Store, u: Id) {
    && m.attempts == (map a | a in s.attempts && s.attempts[a].userId == u :: StatusOf(s.attempts[a]))
    && m.last == (if u in s.last then Some(s.last[u]) else None)
    && (u in s.last ==> s.last[u] in m.attempts)
  }

  /** The call goes on to search, or joins the proposal that the user is locked for. */
  predicate IsAdmitted(s: MatchModel.Store, u: Id) {
    && !MatchModel.InState(s, u, MatchModel.InRoom)
    && (MatchModel.InState(s, u, MatchModel.Locked) ==>
          u in s.last && s.last[u] in s.attempts && s.attempts[s.last[u]].status.Proposed?
              && s.attempts[s.last[u]].peer.Some?)
  }

  /** What the answer of a call says. */
  predicate Says(answer: Answer, res: MatchModel.FindMatchResult, s: MatchModel.Store, r: Id) {
    match answer
    case Existing => r in s.attempts && MatchEffects.Reports(res, r, s.attempts[r])
    case Found(id) => id in s.attempts && MatchEffects.Reports(res, id, s.attempts[id])
    case Created(id) => id == r && res == MatchModel.StillSearching(r)
  }

  /** Writing one attempt of the user and making it the last one does the same to the user's part. */
  lemma PartAfterWrite(m: System, s: MatchModel.Store, s': MatchModel.Store, u: Id, a: Id)
    requires IsPartOf(m, s, u) && a in s'.attempts && s'.attempts[a].userId == u
    requires s'.attempts == s.attempts[a := s'.attempts[a]] && s'.last == s.last[u := a]
    ensures IsPartOf(m.(attempts := m.attempts[a := StatusOf(s'.attempts[a])], last := Some(a)), s', u)
  {
  }

  /** The effect of a call on the user's part of the store. */
  lemma CommitIsPart(m: System, s: MatchModel.Store, job: MatchModel.Job)
    requires IsPartOf(m, s, job.userId) && job.requestId !in s.attempts
    ensures IsPartOf(m.(attempts := m.attempts[job.requestId := Seeking], last := Some(job.requestId)),
                     MatchModel.CommitSearching(s, job), job.userId)
  {
    PartAfterWrite(m, s, MatchModel.CommitSearching(s, job), job.userId, job.requestId);
  }

  lemma NoMatchIsPart(m: System, s: MatchModel.Store, job: MatchModel.Job, reason: string)
    requires IsPartOf(m, s, job.userId) && job.requestId !in s.attempts
    ensures IsPartOf(m.(attempts := m.attempts[job.requestId := Ended], last := Some(job.requestId)),
                     MatchModel.MarkNoMatch(s, job.requestId, job.userId, reason), job.userId)
  {
    PartAfterWrite(m, s, MatchModel.MarkNoMatch(s, job.requestId, job.userId, reason), job.userId, job.requestId);
  }

  /** What a call finds active is what the service would answer with. */
  lemma CoalesceIsLast(m: System, s: MatchModel.Store, u: Id)
    requires IsPartOf(m, s, u)
    ensures MatchModel.Coalesce(s, u) ==
      if LastIsActive(m) then Some(MatchModel.ToResult(s.attempts[m.last.value], m.last.value)) else None
  {
  }

  /** An undisturbed call has the effect and the answer of the atomic start step. */
  lemma UndisturbedCallIsStart(m: System, c: nat, s: MatchModel.Store, job: MatchModel.Job)
    requires c in m.calls && m.calls[c] == Call(job.requestId, CheckDuplicate) && m.lock.None?
    requires IsPartOf(m, s, job.userId) && IsAdmitted(s, job.userId)
    requires job.requestId in s.attempts ==> s.attempts[job.requestId].userId == job.userId
    ensures var (s', res) := MatchModel.StartFindMatch(s, job, true);
      var m' := Run(m, Acts(c, 10));
      && IsPartOf(m', s', job.userId) && m'.lock.None? && c in m'.calls
      && m'.calls[c].pc.Finished? && Says(m'.calls[c].pc.answer, res, s, job.requestId)
  {
    UndisturbedCall(m, c, job.requestId);
    CoalesceIsLast(m, s, job.userId);
    if job.requestId !in s.attempts {
      CommitIsPart(m, s, job);
    }
  }

  /** A start that is turned away is the refusal step. */
  lemma RefusalIsStart(m: System, s: MatchModel.Store, job: MatchModel.Job, hasSnapshot: bool)
    requires IsPartOf(m, s, job.userId) && job.requestId !in s.attempts
    requires !hasSnapshot || !IsAdmitted(s, job.userId)
    ensures IsPartOf(Step(m, Refuse(job.requestId)), MatchModel.StartFindMatch(s, job, hasSnapshot).0, job.userId)
    ensures MatchModel.StartFindMatch(s, job, hasSnapshot).1.NotMatched?
  {
    NoMatchIsPart(m, s, job, "snapshot_not_found");
    NoMatchIsPart(m, s, job, "user_unavailable");
  }

  /** What the other handlers write about an attempt of the user are the other two steps. */
  lemma WritesAreSteps(m: System, s: MatchModel.Store, u: Id, a: Id, peer: Id, room: Id, score: real, isFallback: bool,
      reason: string)
    requires IsPartOf(m, s, u) && a in s.attempts && s.attempts[a].userId == u
    ensures IsPartOf(Step(m, Propose(a)), MatchModel.MarkProposed(s, a, u, peer, score, isFallback), u)
    ensures IsPartOf(Step(m, End(a)), MatchModel.MarkMatched(s, a, u, peer, room, score), u)
    ensures IsPartOf(Step(m, End(a)), MatchModel.MarkNoMatch(s, a, u, reason), u)
  {
    PartAfterWrite(m, s, MatchModel.MarkProposed(s, a, u, peer, score, isFallback), u, a);
    PartAfterWrite(m, s, MatchModel.MarkMatched(s, a, u, peer, room, score), u, a);
    PartAfterWrite(m, s, MatchModel.MarkNoMatch(s, a, u, reason), u, a);
  }

  // ---------- the guard is needed ----------

  /** An active attempt that is not the last one is not seen by the next call, which creates a second one. */
  lemma HiddenAttemptIsDoubled(m: System, a: Id, c: nat, q: Id)
    requires Active(m, a) && !LastIsActive(m) && m.lock.None? && q !in m.attempts && c !in m.calls
    ensures var m' := Run(m, [Arrive(c, q)] + Acts(c, 10));
      Active(m', a) && Active(m', q) && a != q
  {
    var m1 := Step(m, Arrive(c, q));
    RunConcat(m, [Arrive(c, q)], Acts(c, 10));
    assert [Arrive(c, q)][1..] == [] && Run(m1, []) == m1;
    assert Run(m, [Arrive(c, q)]) == m1;
    UndisturbedCall(m1, c, q);
  }

  /** Turning a call away, or ending an older attempt, while one is active lets the next call create a second one. */
  lemma EndingHidesAttempt(m: System, a: Id, e: Event, c: nat, q: Id)
    requires Active(m, a) && m.lock.None? && q !in m.attempts && c !in m.calls
    requires (e.Refuse? && e.requestId !in m.attempts && e.requestId != q)
      || (e.End? && e.attempt in m.attempts && e.attempt != a)
    ensures var m' := Run(m, [e] + ([Arrive(c, q)] + Acts(c, 10)));
      Active(m', a) && Active(m', q) && a != q
  {
    var m1 := Step(m, e);
    RunConcat(m, [e], [Arrive(c, q)] + Acts(c, 10));
    assert [e][1..] == [] && Run(m1, []) == m1;
    assert Run(m, [e]) == m1;
    HiddenAttemptIsDoubled(m1, a, c, q);
  }

  /**
   * From the empty store: one call that commits, a call turned away because the profile snapshot is
   * missing, and a third call; then two attempts of the user are active.
   */
  lemma TwoSearchesAtOnce(c: nat, a: Id, r: Id, d: nat, q: Id)
    requires a != r && q !in {a, r} && c != d
    ensures var m := Run(INITIAL, [Arrive(c, a)] + Acts(c, 10) + ([Refuse(r)] + ([Arrive(d, q)] + Acts(d, 10))));
      Active(m, a) && Active(m, q)
  {
    var es := [Arrive(c, a)] + Acts(c, 10);
    var m1 := INITIAL.(calls := map[c := Call(a, CheckDuplicate)]);
    RunConcat(INITIAL, [Arrive(c, a)], Acts(c, 10));
    assert [Arrive(c, a)][1..] == [] && Run(m1, []) == m1;
    assert Run(INITIAL, [Arrive(c, a)]) == m1;
    UndisturbedCall(m1, c, a);
    RunConcat(INITIAL, es, [Refuse(r)] + ([Arrive(d, q)] + Acts(d, 10)));
    EndingHidesAttempt(Committed(m1, c, a), a, Refuse(r), d, q);
  }
}
