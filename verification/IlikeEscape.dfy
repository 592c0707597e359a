/** Escaping of user text for `ILIKE` patterns, against the matching rules of PostgreSQL. */
module IlikeEscape {

  function ReplaceAll(s: string, c: char, text: string): string {
    if s == "" then "" else (if s[0] == c then text else [s[0]]) + ReplaceAll(s[1..], c, text)
  }

  /** The three replacements, in the order in which they are chained. */
  function EscapeIlikePattern(raw: string): string {
    ReplaceAll(ReplaceAll(ReplaceAll(raw, '\\', "\\\\"), '%', "\\%"), '_', "\\_")
  }

  // ---------- section 9.7.1 of the PostgreSQL manual ----------

  /**
   * Pattern matching with the default escape character: `%` stands for any text, `_` for any one
   * character, and a character after a backslash for itself. `fold` is the case folding of ILIKE.
   */
  predicate Matches(fold: char -> char, p: string, t: string)
    decreases |p| + |t|
  {
    if p == "" then t == ""
    else if p[0] == '%' then Matches(fold, p[1..], t) || (t != "" && Matches(fold, p, t[1..]))
    else if t == "" then false
    else if p[0] == '_' then Matches(fold, p[1..], t[1..])
    else if p[0] == '\\' then |p| > 1 && fold(p[1]) == fold(t[0]) && Matches(fold, p[2..], t[1..])
    else fold(p[0]) == fold(t[0]) && Matches(fold, p[1..], t[1..])
  }

  /** A pattern must not end in an escape character that escapes nothing. */
  predicate WellFormed(p: string) {
    if p == "" then true
    else if p[0] == '\\' then |p| > 1 && WellFormed(p[2..])
    else WellFormed(p[1..])
  }

  predicate SameText(fold: char -> char, a: string, b: string) {
    |a| == |b| && forall i :: 0 <= i < |a| ==> fold(a[i]) == fold(b[i])
  }

  // ---------- one escape per character ----------

  predicate Special(c: char) {
    c == '\\' || c == '%' || c == '_'
  }

  /** One character as it stands in a pattern. */
  function EscapeChar(c: char): string {
    if Special(c) then ['\\', c] else [c]
  }

  function EscapeEach(raw: string): string {
    if raw == "" then "" else EscapeChar(raw[0]) + EscapeEach(raw[1..])
  }

  lemma {:induction false} ReplaceConcat(a: string, b: string, c: char, text: string)
    ensures ReplaceAll(a + b, c, text) == ReplaceAll(a, c, text) + ReplaceAll(b, c, text)
  {
    if a == "" {
      assert a + b == b;
    } else {
      assert (a + b)[0] == a[0] && (a + b)[1..] == a[1..] + b;
      ReplaceConcat(a[1..], b, c, text);
    }
  }

  lemma ReplaceOne(c: char, x: char, text: string)
    ensures ReplaceAll([x], c, text) == if x == c then text else [x]
  {
    assert [x][1..] == "";
  }

  lemma ReplaceTwo(c: char, x: char, y: char, text: string)
    ensures ReplaceAll([x, y], c, text) == (if x == c then text else [x]) + (if y == c then text else [y])
  {
    ReplaceConcat([x], [y], c, text);
    ReplaceOne(c, x, text);
    ReplaceOne(c, y, text);
    assert [x, y] == [x] + [y];
  }

  lemma EscapeOne(x: char)
    ensures EscapeIlikePattern([x]) == EscapeChar(x)
  {
    ReplaceOne('\\', x, "\\\\");
    ReplaceOne('%', x, "\\%");
    ReplaceOne('_', x, "\\_");
    ReplaceTwo('%', '\\', '\\', "\\%");
    ReplaceTwo('_', '\\', '\\', "\\_");
    ReplaceTwo('_', '\\', '%', "\\_");
  }

  /** No replacement touches what an earlier one inserted: together they escape every special character once. */
  lemma {:induction false} ChainIsPerCharacter(raw: string)
    ensures EscapeIlikePattern(raw) == EscapeEach(raw)
  {
    if raw != "" {
      var a, b := [raw[0]], raw[1..];
      assert raw == a + b;
      ChainIsPerCharacter(b);
      EscapeOne(raw[0]);
      var a1, b1 := ReplaceAll(a, '\\', "\\\\"), ReplaceAll(b, '\\', "\\\\");
      ReplaceConcat(a, b, '\\', "\\\\");
      var a2, b2 := ReplaceAll(a1, '%', "\\%"), ReplaceAll(b1, '%', "\\%");
      ReplaceConcat(a1, b1, '%', "\\%");
      ReplaceConcat(a2, b2, '_', "\\_");
    }
  }

  // ---------- meaning is preserved ----------

  /** An escaped text at the start of a pattern matches that text and nothing else. */
  lemma {:induction false} EscapedThen(fold: char -> char, raw: string, rest: string, t: string)
    ensures Matches(fold, EscapeEach(raw) + rest, t) <==>
      |raw| <= |t| && SameText(fold, raw, t[..|raw|]) && Matches(fold, rest, t[|raw|..])
  {
    if raw == "" {
      assert EscapeEach(raw) + rest == rest && t[0..] == t;
    } else {
      EscapedHead(fold, raw[0], EscapeEach(raw[1..]) + rest, t);
      EscapeFirst(raw, rest);
      if t != "" {
        EscapedThen(fold, raw[1..], rest, t[1..]);
        if |raw| <= |t| {
          SameTextHead(fold, raw, t[..|raw|]);
          assert t[..|raw|][1..] == t[1..][..|raw| - 1] && t[1..][|raw| - 1..] == t[|raw|..];
        }
      }
    }
  }

  lemma EscapeFirst(raw: string, rest: string)
    requires raw != ""
    ensures EscapeEach(raw) + rest == EscapeChar(raw[0]) + (EscapeEach(raw[1..]) + rest)
  {
  }

  /** An escaped character matches that one character, up to case. */
  lemma EscapedHead(fold: char -> char, c: char, p: string, t: string)
    ensures Matches(fold, EscapeChar(c) + p, t) <==> t != "" && fold(c) == fold(t[0]) && Matches(fold, p, t[1..])
  {
    var q := EscapeChar(c) + p;
    if Special(c) {
      assert q[0] == '\\' && q[1] == c && q[2..] == p;
    } else {
      assert q[0] == c && q[1..] == p;
    }
  }

  lemma SameTextHead(fold: char -> char, a: string, b: string)
    requires a != "" && |a| == |b|
    ensures SameText(fold, a, b) <==> fold(a[0]) == fold(b[0]) && SameText(fold, a[1..], b[1..])
  {
    if fold(a[0]) == fold(b[0]) && SameText(fold, a[1..], b[1..]) {
      forall i | 0 <= i < |a|
        ensures fold(a[i]) == fold(b[i])
      {
        assert i > 0 ==> a[i] == a[1..][i - 1] && b[i] == b[1..][i - 1];
      }
    }
  }

  /** The escaped string matches exactly the raw string, up to case. */
  lemma EscapedMatchesItself(fold: char -> char, raw: string, t: string)
    ensures Matches(fold, EscapeIlikePattern(raw), t) <==> SameText(fold, raw, t)
  {
    ChainIsPerCharacter(raw);
    assert EscapeEach(raw) + "" == EscapeEach(raw);
    EscapedThen(fold, raw, "", t);
    assert |raw| == |t| ==> t[..|raw|] == t;
  }

  lemma {:induction false} PercentMatchesAll(fold: char -> char, t: string)
    ensures Matches(fold, "%", t)
  {
    if t != "" {
      PercentMatchesAll(fold, t[1..]);
    } else {
      assert "%"[1..] == "";
    }
  }

  /** The text occurs in `t` at position `i`, up to case. */
  predicate OccursAt(fold: char -> char, raw: string, t: string, i: nat) {
    i + |raw| <= |t| && SameText(fold, raw, t[i..i + |raw|])
  }

  lemma OccursShifts(fold: char -> char, raw: string, t: string, i: nat)
    requires t != ""
    ensures OccursAt(fold, raw, t, i + 1) <==> OccursAt(fold, raw, t[1..], i)
  {
    assert i + 1 + |raw| <= |t| ==> t[i + 1..i + 1 + |raw|] == t[1..][i..i + |raw|];
  }

  /** With `%` after it, exactly the texts that start with it match. */
  lemma EscapedPrefix(fold: char -> char, raw: string, t: string)
    ensures Matches(fold, EscapeIlikePattern(raw) + "%", t) <==> OccursAt(fold, raw, t, 0)
  {
    ChainIsPerCharacter(raw);
    EscapedThen(fold, raw, "%", t);
    if |raw| <= |t| {
      PercentMatchesAll(fold, t[|raw|..]);
      assert t[0..0 + |raw|] == t[..|raw|];
    }
  }

  /** Wrapped in `%`, exactly the texts that contain it match. */
  lemma {:induction false} EscapedContains(fold: char -> char, raw: string, t: string)
    ensures Matches(fold, "%" + EscapeIlikePattern(raw) + "%", t) <==> exists i: nat :: OccursAt(fold, raw, t, i)
    decreases |t|
  {
    var p := "%" + EscapeIlikePattern(raw) + "%";
    assert p[0] == '%' && p[1..] == EscapeIlikePattern(raw) + "%";
    EscapedPrefix(fold, raw, t);
    if t != "" {
      EscapedContains(fold, raw, t[1..]);
      if i: nat :| OccursAt(fold, raw, t, i) {
        OccursShifts(fold, raw, t, if i > 0 then i - 1 else 0);
        assert i > 0 ==> OccursAt(fold, raw, t[1..], i - 1);
      }
      if i: nat :| OccursAt(fold, raw, t[1..], i) {
        OccursShifts(fold, raw, t, i);
        assert OccursAt(fold, raw, t, i + 1);
      }
    } else {
      assert forall i: nat :: OccursAt(fold, raw, t, i) ==> i == 0;
    }
  }

  /** Escaped text never leaves an escape character hanging, whatever follows it. */
  lemma {:induction false} EscapedIsWellFormed(raw: string, rest: string)
    ensures WellFormed(EscapeIlikePattern(raw) + rest) <==> WellFormed(rest)
  {
    ChainIsPerCharacter(raw);
    if raw == "" {
      assert EscapeEach(raw) + rest == rest;
    } else {
      EscapedIsWellFormed(raw[1..], rest);
      ChainIsPerCharacter(raw[1..]);
      var p := EscapeEach(raw) + rest;
      if Special(raw[0]) {
        assert p[0] == '\\' && p[2..] == EscapeEach(raw[1..]) + rest;
      } else {
        assert p[0] == raw[0] && p[1..] == EscapeEach(raw[1..]) + rest;
      }
    }
  }
}
