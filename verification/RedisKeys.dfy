/** Redis key building for unordered pairs of users, and the order on ids that it relies on. */
module RedisKeys {

  /** User and attempt ids. The controllers reject blank ids before any of the code modelled here runs. */
  type Id = s: string | s != "" witness "id"

  /** An unordered pair of users in the canonical order that every pair key uses. */
  datatype Pair = Pair(low: Id, high: Id)

  /** The order of `<=` and of the default `sort()` on strings: by code unit, a prefix first. */
  predicate Leq(a: string, b: string) {
    if a == "" then true
    else if b == "" then false
    else a[0] < b[0] || (a[0] == b[0] && Leq(a[1..], b[1..]))
  }

  /** `i` is the first place where the two texts differ, and the character of `a` there is the smaller one. */
  predicate IsLessAt(a: string, b: string, i: nat) {
    i < |a| && i < |b| && a[..i] == b[..i] && a[i] < b[i]
  }

  /** The order is that of dictionaries: a prefix first, otherwise the first difference decides. */
  lemma {:induction false} LeqIsLexicographic(a: string, b: string)
    ensures Leq(a, b) <==> a <= b || exists i: nat :: IsLessAt(a, b, i)
  {
    if a != "" && b != "" {
      LeqIsLexicographic(a[1..], b[1..]);
      if a[0] < b[0] {
        assert IsLessAt(a, b, 0);
      } else if a[0] == b[0] {
        assert a <= b <==> a[1..] <= b[1..];
        if i: nat :| IsLessAt(a[1..], b[1..], i) {
          assert a[..i + 1] == [a[0]] + a[1..][..i] && b[..i + 1] == [b[0]] + b[1..][..i];
          assert IsLessAt(a, b, i + 1);
        }
        if i: nat :| IsLessAt(a, b, i) {
          assert i > 0;
          assert a[1..][..i - 1] == a[..i][1..] && b[1..][..i - 1] == b[..i][1..];
          assert IsLessAt(a[1..], b[1..], i - 1);
        }
      }
    }
  }

  function PairOf(a: Id, b: Id): Pair {
    if Leq(a, b) then Pair(a, b) else Pair(b, a)
  }

  predicate Involves(k: Pair, u: Id) {
    u == k.low || u == k.high
  }

  /** The key string shared by `pairLock`, `pairPending` and `pairConnectFinalize`, each with its own prefix. */
  function PairKey(prefix: string, a: Id, b: Id): string {
    prefix + PairOf(a, b).low + ":" + PairOf(a, b).high
  }

  lemma {:induction false} LeqTotal(a: string, b: string)
    ensures Leq(a, b) || Leq(b, a)
  {
    if a != "" && b != "" && a[0] == b[0] {
      LeqTotal(a[1..], b[1..]);
    }
  }

  lemma {:induction false} LeqAntisymmetric(a: string, b: string)
    requires Leq(a, b) && Leq(b, a)
    ensures a == b
  {
    if a != "" && b != "" {
      LeqAntisymmetric(a[1..], b[1..]);
      assert a == [a[0]] + a[1..] && b == [b[0]] + b[1..];
    }
  }

  /** Both callers of a pair key reach the same key, whichever user they name first; the smaller id leads. */
  lemma PairOfSymmetric(a: Id, b: Id)
    ensures PairOf(a, b) == PairOf(b, a)
    ensures PairOf(PairOf(a, b).low, PairOf(a, b).high) == PairOf(a, b)
    ensures Leq(PairOf(a, b).low, PairOf(a, b).high)
  {
    LeqTotal(a, b);
    if Leq(a, b) && Leq(b, a) {
      LeqAntisymmetric(a, b);
    }
  }

  /** Two pairs have the same canonical form exactly when they hold the same two users. */
  lemma PairOfInjective(a: Id, b: Id, c: Id, d: Id)
    ensures PairOf(a, b) == PairOf(c, d) <==> (a == c && b == d) || (a == d && b == c)
  {
    PairOfSymmetric(a, b);
    PairOfSymmetric(c, d);
  }

  /** Text split at its first colon is split in one way only. */
  lemma {:induction false} FirstColonSplit(x: string, y: string, x': string, y': string)
    requires ':' !in x && ':' !in x'
    ensures x + ":" + y == x' + ":" + y' <==> x == x' && y == y'
  {
    var s, s' := x + ":" + y, x' + ":" + y';
    assert s[|x|] == ':' && s'[|x'|] == ':';
    assert |x| < |x'| ==> s'[|x|] == x'[|x|];
    assert |x'| < |x| ==> s[|x'|] == x[|x'|];
    if s == s' {
      assert x == s[..|x|] && x' == s'[..|x'|];
      assert y == s[|x| + 1..] && y' == s'[|x'| + 1..];
    }
  }

  /** The second text takes over a part of the first one, around a colon: `x : m` and `y'` against `x` and `m : y'`. */
  predicate Shifted(x: string, y: string, x': string, y': string, m: string) {
    x' == x + ":" + m && y == m + ":" + y'
  }

  /** Two texts joined by a colon look the same exactly when they are the same or one is shifted into the other. */
  lemma JoinedSameIff(x: string, y: string, x': string, y': string)
    ensures x + ":" + y == x' + ":" + y' <==>
      (x == x' && y == y') || exists m :: Shifted(x, y, x', y', m) || Shifted(x', y', x, y, m)
  {
    if x + ":" + y == x' + ":" + y' {
      if |x| <= |x'| {
        JoinedIsShifted(x, y, x', y');
      } else {
        JoinedIsShifted(x', y', x, y);
      }
    }
    if m :| Shifted(x, y, x', y', m) {
      assert x + ":" + (m + ":" + y') == (x + ":" + m) + ":" + y';
    }
    if m :| Shifted(x', y', x, y, m) {
      assert x' + ":" + (m + ":" + y) == (x' + ":" + m) + ":" + y;
    }
  }

  lemma JoinedIsShifted(x: string, y: string, x': string, y': string)
    requires x + ":" + y == x' + ":" + y' && |x| <= |x'|
    ensures (x == x' && y == y') || exists m :: Shifted(x, y, x', y', m)
  {
    var s := x + ":" + y;
    assert x == s[..|x|] && y == s[|x| + 1..] && x' == s[..|x'|] && y' == s[|x'| + 1..] && s[|x|] == ':' == s[|x'|];
    if |x| < |x'| {
      var m := s[|x| + 1..|x'|];
      assert x' == x + ":" + m && y == m + ":" + y';
      assert Shifted(x, y, x', y', m);
    }
  }

  /**
   * Two pairs share a key exactly when they are one pair, or one's ids are the other's shifted around a
   * colon; so different pairs never do if no user id has a colon.
   */
  lemma PairKeysMeetIff(prefix: string, a: Id, b: Id, c: Id, d: Id)
    ensures var p, q := PairOf(a, b), PairOf(c, d);
      PairKey(prefix, a, b) == PairKey(prefix, c, d) <==>
        p == q || exists m :: Shifted(p.low, p.high, q.low, q.high, m) || Shifted(q.low, q.high, p.low, p.high, m)
    ensures ':' !in a && ':' !in b && ':' !in c && ':' !in d ==>
      (PairKey(prefix, a, b) == PairKey(prefix, c, d) <==> (a == c && b == d) || (a == d && b == c))
  {
    var p, q := PairOf(a, b), PairOf(c, d);
    var s, t := p.low + ":" + p.high, q.low + ":" + q.high;
    assert PairKey(prefix, a, b) == prefix + s && PairKey(prefix, c, d) == prefix + t;
    assert (prefix + s)[|prefix|..] == s && (prefix + t)[|prefix|..] == t;
    JoinedSameIff(p.low, p.high, q.low, q.high);
    if ':' !in a && ':' !in c && ':' !in b && ':' !in d {
      FirstColonSplit(p.low, p.high, q.low, q.high);
      PairOfInjective(a, b, c, d);
    }
  }

  /** With a colon in an id two different pairs do collide on one key. */
  lemma PairKeyCollides(prefix: string)
    ensures PairKey(prefix, "a:b", "c") == PairKey(prefix, "a", "b:c")
    ensures PairOf("a:b", "c") != PairOf("a", "b:c")
  {
    assert Leq("a:b", "c") && Leq("a", "b:c");
    assert prefix + "a:b" + ":" + "c" == prefix + "a" + ":" + "b:c";
  }
}
