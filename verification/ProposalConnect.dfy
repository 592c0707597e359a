/** The connect script under any interleaving of calls: who is elected to create the room. */
module ProposalConnect {
  import opened RedisKeys
  import MatchModel

  /** The two connect flags of a pending record, and whether the finalize key exists. */
  datatype Flags = Flags(low: bool, high: bool, finalize: bool)

  const FRESH := Flags(false, false, false)

  /**
   * `Connect` is one call of the script by one side. `Cleanup` deletes record and finalize key;
   * the other two events are the record written anew or expired, and the finalize key expired.
   */
  datatype Event = Connect(low: bool) | Cleanup | FlagsCleared | FinalizeExpires

  function Script(f: Flags, low: bool): (Flags, nat) {
    var g := if low then f.(low := true) else f.(high := true);
    if !(g.low && g.high) then (g, 0)
    else if g.finalize then (g, 1)
    else (g.(finalize := true), 2)
  }

  function Step(f: Flags, e: Event): Flags {
    match e
    case Connect(low) => Script(f, low).0
    case Cleanup => FRESH
    case FlagsCleared => f.(low := false, high := false)
    case FinalizeExpires => f.(finalize := false)
  }

  function After(es: seq<Event>): Flags {
    if es == [] then FRESH else Step(After(es[..|es| - 1]), es[|es| - 1])
  }

  /** The answer to the call at index `i`. */
  function Answer(es: seq<Event>, i: nat): nat
    requires i < |es| && es[i].Connect?
  {
    Script(After(es[..i]), es[i].low).1
  }

  predicate Elects(es: seq<Event>, i: nat)
    requires i < |es|
  {
    es[i].Connect? && Answer(es, i) == 2
  }

  function Elections(es: seq<Event>): nat {
    if es == [] then 0
    else Elections(es[..|es| - 1]) + if Elects(es, |es| - 1) then 1 else 0
  }

  /** The handler's step on a proposal is this script on the flags of its record. */
  lemma HandlerRunsScript(s: MatchModel.Store, k: Pair, u: Id)
    requires k in s.pending
    ensures var p := s.pending[k];
      var (s', rc) := MatchModel.RecordConnect(s, k, u);
      var q := s'.pending[k];
      Script(Flags(p.connectLow, p.connectHigh, k in s.finalize), u == k.low)
        == (Flags(q.connectLow, q.connectHigh, k in s'.finalize), rc)
  {
  }

  // ---------- the answers, from the history of calls alone ----------

  predicate KeepsFlags(e: Event) {
    e.Connect? || e.FinalizeExpires?
  }

  predicate KeepsFinalize(e: Event) {
    e.Connect? || e.FlagsCleared?
  }

  /** This side has called since the flags were last cleared. */
  ghost predicate Called(es: seq<Event>, low: bool) {
    exists j :: 0 <= j < |es| && CalledSince(es, low, j)
  }

  /** Event `j` is a call of this side, and nothing has cleared the flags since. */
  predicate CalledSince(es: seq<Event>, low: bool, j: nat)
    requires j < |es|
  {
    es[j] == Connect(low) && forall k :: j < k < |es| ==> KeepsFlags(es[k])
  }

  /** Some call was elected, and the finalize key that it set is still there. */
  ghost predicate ElectionLives(es: seq<Event>) {
    exists j :: 0 <= j < |es| && LivesSince(es, j)
  }

  /** Call `j` was elected, and nothing has removed the finalize key since. */
  predicate LivesSince(es: seq<Event>, j: nat)
    requires j < |es|
  {
    Elects(es, j) && forall k :: j < k < |es| ==> KeepsFinalize(es[k])
  }

  lemma CalledSinceNext(es: seq<Event>, e: Event, low: bool, j: nat)
    requires j < |es|
    ensures CalledSince(es + [e], low, j) <==> CalledSince(es, low, j) && KeepsFlags(e)
  {
    var fs := es + [e];
    assert fs[|es|] == e && forall k :: j <= k < |es| ==> fs[k] == es[k];
    if CalledSince(fs, low, j) {
      forall k | j < k < |es|
        ensures KeepsFlags(es[k])
      {
        assert KeepsFlags(fs[k]);
      }
    }
  }

  lemma CalledNext(es: seq<Event>, e: Event, low: bool)
    ensures Called(es + [e], low) <==> e == Connect(low) || (KeepsFlags(e) && Called(es, low))
  {
    var fs := es + [e];
    if j :| 0 <= j < |fs| && CalledSince(fs, low, j) {
      if j < |es| {
        CalledSinceNext(es, e, low, j);
      }
    }
    if j :| 0 <= j < |es| && CalledSince(es, low, j) {
      CalledSinceNext(es, e, low, j);
    }
    assert e == Connect(low) ==> CalledSince(fs, low, |es|);
  }

  lemma ElectsSame(es: seq<Event>, e: Event, i: nat)
    requires i < |es|
    ensures Elects(es + [e], i) <==> Elects(es, i)
  {
    assert (es + [e])[..i] == es[..i];
  }

  lemma LivesNext(es: seq<Event>, e: Event, j: nat)
    requires j < |es|
    ensures LivesSince(es + [e], j) <==> LivesSince(es, j) && KeepsFinalize(e)
  {
    var fs := es + [e];
    ElectsSame(es, e, j);
    assert fs[|es|] == e && forall k :: j < k < |es| ==> fs[k] == es[k];
    if LivesSince(fs, j) {
      forall k | j < k < |es|
        ensures KeepsFinalize(es[k])
      {
        assert KeepsFinalize(fs[k]);
      }
    }
  }

  lemma ElectionNext(es: seq<Event>, e: Event)
    ensures ElectionLives(es + [e]) <==> Elects(es + [e], |es|) || (KeepsFinalize(e) && ElectionLives(es))
  {
    var fs := es + [e];
    if j :| 0 <= j < |fs| && LivesSince(fs, j) {
      if j < |es| {
        LivesNext(es, e, j);
      }
    }
    if j :| 0 <= j < |es| && LivesSince(es, j) {
      LivesNext(es, e, j);
    }
    assert Elects(fs, |es|) ==> LivesSince(fs, |es|);
  }

  lemma {:induction false} FlagsTellHistory(es: seq<Event>)
    ensures After(es) == Flags(Called(es, true), Called(es, false), ElectionLives(es))
  {
    if es != [] {
      var front, e := es[..|es| - 1], es[|es| - 1];
      assert es == front + [e];
      FlagsTellHistory(front);
      CalledNext(front, e, true);
      CalledNext(front, e, false);
      ElectionNext(front, e);
      assert es[..|front|] == front;
    }
  }

  /**
   * A call waits exactly while the other side has not called since the flags were cleared;
   * otherwise it creates the room exactly when no earlier election is still alive.
   */
  lemma AnswerFromHistory(es: seq<Event>, low: bool)
    ensures var answer := Answer(es + [Connect(low)], |es|);
      && (answer == 0 <==> !Called(es, !low))
      && (answer == 2 <==> Called(es, !low) && !ElectionLives(es))
      && (answer == 1 <==> Called(es, !low) && ElectionLives(es))
  {
    FlagsTellHistory(es);
    assert (es + [Connect(low)])[..|es|] == es;
  }

  // ---------- how many rooms ----------

  predicate OnlyCalls(es: seq<Event>) {
    forall e <- es :: e.Connect?
  }

  predicate BothSides(es: seq<Event>) {
    Connect(true) in es && Connect(false) in es
  }

  lemma {:induction false} CallsSetFlags(es: seq<Event>)
    requires OnlyCalls(es)
    ensures After(es) == Flags(Connect(true) in es, Connect(false) in es, BothSides(es))
    ensures Elections(es) == if BothSides(es) then 1 else 0
  {
    if es != [] {
      var front, e := es[..|es| - 1], es[|es| - 1];
      assert es == front + [e];
      CallsSetFlags(front);
      assert es[..|front|] == front;
    }
  }

  /**
   * One proposal, any number of calls from either side in any order: calls before both sides
   * have called answer 0, the one that completes them answers 2, and all later ones answer 1.
   */
  lemma OneRoomPerProposal(es: seq<Event>, i: nat)
    requires OnlyCalls(es) && i < |es|
    ensures Answer(es, i) == if !BothSides(es[..i + 1]) then 0 else if !BothSides(es[..i]) then 2 else 1
    ensures Elections(es) == if BothSides(es) then 1 else 0
  {
    CallsSetFlags(es);
    CallsSetFlags(es[..i]);
    assert es[..i + 1] == es[..i] + [es[i]];
  }

  lemma {:induction false} CleanupStartsOver(es: seq<Event>, fs: seq<Event>)
    ensures After(es + [Cleanup] + fs) == After(fs)
    ensures Elections(es + [Cleanup] + fs) == Elections(es) + Elections(fs)
  {
    var hs := es + [Cleanup] + fs;
    if fs == [] {
      assert hs == es + [Cleanup] && hs[..|hs| - 1] == es;
    } else {
      var front, e := fs[..|fs| - 1], fs[|fs| - 1];
      assert hs[..|hs| - 1] == es + [Cleanup] + front && hs[|hs| - 1] == e;
      CleanupStartsOver(es, front);
    }
  }

  /**
   * Calls that pass the handler's checks before a clean-up but reach the script after it start over:
   * between any two clean-ups there is one room exactly when both sides call there. So, as long as the
   * finalize key does not expire, the room is created twice if, and only if, stale calls of both sides
   * arrive after the clean-up. (When it does expire `AnswerFromHistory` tells.)
   */
  lemma SecondRoomIff(es: seq<Event>, late: seq<Event>)
    requires OnlyCalls(es) && OnlyCalls(late) && BothSides(es)
    ensures Elections(es + [Cleanup] + late) == if BothSides(late) then 2 else 1
  {
    CleanupStartsOver(es, late);
    CallsSetFlags(es);
    CallsSetFlags(late);
  }
}
