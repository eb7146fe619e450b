/**
 * String operations the name transformer relies on: a case-insensitive search
 * for a literal pattern (what `re.findall(..., flags=re.IGNORECASE)[0]` yields
 * for a pattern without metacharacters) and `str.replace(old, "")`.
 */
module Text {
  import opened Wrappers

  /** Simple case folding of one character (ASCII letters only). */
  function Lower(c: char): (d: char)
    ensures !('A' <= d <= 'Z')
    ensures 'A' <= c <= 'Z' ==> 'a' <= d <= 'z' && d as int - c as int == 32
    ensures !('A' <= c <= 'Z') ==> d == c
  {
    if 'A' <= c <= 'Z' then (c as int - 'A' as int + 'a' as int) as char else c
  }

  /** `a` and `b` are equal up to letter case. */
  predicate SameIgnoringCase(a: string, b: string)
  {
    |a| == |b| && forall i :: 0 <= i < |a| ==> Lower(a[i]) == Lower(b[i])
  }

  /** The literal pattern `pat` matches `s` at position `i`, ignoring case. */
  predicate MatchesAt(s: string, pat: string, i: int)
  {
    0 <= i && i + |pat| <= |s| && SameIgnoringCase(s[i..i + |pat|], pat)
  }

  /** `m` occurs in `s` at position `j`, with exactly this letter case. */
  predicate Occurs(s: string, m: string, j: int)
  {
    0 <= j && j + |m| <= |s| && s[j..j + |m|] == m
  }

  /** The leftmost case-insensitive match of `pat` in `s` at or after `i`. */
  function LeftmostFrom(s: string, pat: string, i: nat): (r: Option<nat>)
    ensures r.Some? ==> i <= r.value && MatchesAt(s, pat, r.value)
    ensures r.Some? ==> forall j :: i <= j < r.value ==> !MatchesAt(s, pat, j)
    ensures r.None? ==> forall j :: i <= j ==> !MatchesAt(s, pat, j)
    decreases |s| - i
  {
    if i + |pat| > |s| then None
    else if MatchesAt(s, pat, i) then Some(i)
    else LeftmostFrom(s, pat, i + 1)
  }

  /**
   * The start of the first element of `re.findall(pat, s, flags=re.IGNORECASE)`:
   * the leftmost position at which `pat` matches, or None when the list is empty.
   */
  function LeftmostMatch(s: string, pat: string): (r: Option<nat>)
    ensures r.Some? ==> MatchesAt(s, pat, r.value)
    ensures r.Some? ==> forall j :: 0 <= j < r.value ==> !MatchesAt(s, pat, j)
    ensures r.None? <==> forall j :: !MatchesAt(s, pat, j)
  {
    LeftmostFrom(s, pat, 0)
  }

  /**
   * `s.replace(m, "")`: every non-overlapping exact-case occurrence of `m`,
   * scanning left to right, is removed. Replacing the empty string leaves `s` as it is.
   */
  function RemoveAll(s: string, m: string): (r: string)
    ensures |r| <= |s|
    decreases |s|
  {
    if m == [] || |s| < |m| then s
    else if s[..|m|] == m then RemoveAll(s[|m|..], m)
    else [s[0]] + RemoveAll(s[1..], m)
  }

  /**
   * The new name of one directory: the text of the leftmost case-insensitive match
   * of `pat` is removed everywhere it occurs in exactly that case. None stands for
   * the IndexError raised when there is no match at all.
   */
  function StripFirstMatch(name: string, pat: string): (r: Option<string>)
    ensures r.None? <==> forall j :: !MatchesAt(name, pat, j)
    ensures r.Some? ==> |r.value| <= |name|
  {
    match LeftmostMatch(name, pat)
    case None => None
    case Some(i) => Some(RemoveAll(name, name[i..i + |pat|]))
  }

  /** Removing a text that does not occur leaves the string unchanged. */
  lemma {:induction false} RemoveAbsent(s: string, m: string)
    requires forall j :: !Occurs(s, m, j)
    ensures RemoveAll(s, m) == s
    decreases |s|
  {
    if m == [] || |s| < |m| {
    } else {
      assert !Occurs(s, m, 0);
      assert s[..|m|] != m by { assert s[0..0 + |m|] == s[..|m|]; }
      forall j | Occurs(s[1..], m, j)
        ensures false
      {
        assert s[1..][j..j + |m|] == s[j + 1..j + 1 + |m|];
        assert Occurs(s, m, j + 1);
      }
      RemoveAbsent(s[1..], m);
      assert [s[0]] + s[1..] == s;
    }
  }

  /** Dropping the first character moves every occurrence one place left. */
  lemma OccursShift(s: string, m: string, j: nat)
    requires s != []
    ensures Occurs(s[1..], m, j) <==> Occurs(s, m, j + 1)
  {
    if j + 1 + |m| <= |s| {
      assert s[1..][j..j + |m|] == s[j + 1..j + 1 + |m|];
    }
  }

  /** A prefix in which no occurrence of `m` starts is passed through untouched. */
  lemma {:induction false} RemoveAfterPrefix(a: string, t: string, m: string)
    requires m != []
    requires forall j :: 0 <= j < |a| ==> !Occurs(a + t, m, j)
    ensures RemoveAll(a + t, m) == a + RemoveAll(t, m)
    decreases |a|
  {
    var s := a + t;
    if a == [] {
      assert s == t;
    } else if |s| < |m| {
      assert RemoveAll(t, m) == t;
      assert a + t == s;
    } else {
      assert !Occurs(s, m, 0);
      assert s[..|m|] != m by { assert s[0..0 + |m|] == s[..|m|]; }
      assert s[1..] == a[1..] + t;
      forall j | 0 <= j < |a[1..]|
        ensures !Occurs(a[1..] + t, m, j)
      {
        OccursShift(s, m, j);
      }
      RemoveAfterPrefix(a[1..], t, m);
      assert [s[0]] + (a[1..] + RemoveAll(t, m)) == a + RemoveAll(t, m);
    }
  }

  /** When `m` occurs exactly once, removing it leaves the text around it. */
  lemma {:induction false} RemoveSingle(a: string, m: string, b: string)
    requires m != []
    requires forall j :: Occurs(a + m + b, m, j) ==> j == |a|
    ensures RemoveAll(a + m + b, m) == a + b
  {
    var s := a + m + b;
    assert s == a + (m + b);
    RemoveAfterPrefix(a, m + b, m);
    assert (m + b)[..|m|] == m;
    assert (m + b)[|m|..] == b;
    assert RemoveAll(m + b, m) == RemoveAll(b, m);
    forall j | 0 <= j && j + |m| <= |b|
      ensures !Occurs(b, m, j)
    {
      assert s[|a| + |m| + j..|a| + |m| + j + |m|] == b[j..j + |m|];
      assert !Occurs(s, m, |a| + |m| + j);
    }
    RemoveAbsent(b, m);
  }

  /** A text occurring only at the very end is cut off. */
  lemma RemoveSingleAtEnd(a: string, m: string)
    requires m != []
    requires forall j :: 0 <= j < |a| ==> !Occurs(a + m, m, j)
    ensures RemoveAll(a + m, m) == a
  {
    RemoveAfterPrefix(a, m, m);
    assert m[..|m|] == m && m[|m|..] == [];
    assert a + [] == a;
  }

  /** An exact copy of a case-insensitive match is itself a case-insensitive match. */
  lemma OccurrenceMatches(s: string, m: string, pat: string, j: int)
    requires SameIgnoringCase(m, pat)
    requires Occurs(s, m, j)
    ensures MatchesAt(s, pat, j)
  {
  }

  /**
   * A name with a single case-insensitive occurrence of `pat` loses exactly that
   * occurrence: the result is the text before it followed by the text after it.
   */
  lemma StripSingleOccurrence(a: string, m: string, b: string, pat: string)
    requires pat != [] && SameIgnoringCase(m, pat)
    requires forall j :: MatchesAt(a + m + b, pat, j) ==> j == |a|
    ensures StripFirstMatch(a + m + b, pat) == Some(a + b)
    ensures |a + b| == |a + m + b| - |pat|
  {
    var s := a + m + b;
    assert s[|a|..|a| + |m|] == m;
    assert MatchesAt(s, pat, |a|);
    assert LeftmostMatch(s, pat) == Some(|a|);
    forall j | Occurs(s, m, j)
      ensures j == |a|
    {
      OccurrenceMatches(s, m, pat, j);
    }
    RemoveSingle(a, m, b);
  }

  /**
   * The general renaming: when the leftmost case-insensitive match has the text
   * `m`, the part before it stays, `m` goes, and every later exact-case copy of
   * `m` in the rest goes too.
   */
  lemma StripLeftmostOccurrence(a: string, m: string, t: string, pat: string)
    requires pat != [] && SameIgnoringCase(m, pat)
    requires forall j :: 0 <= j < |a| ==> !MatchesAt(a + m + t, pat, j)
    ensures StripFirstMatch(a + m + t, pat) == Some(a + RemoveAll(t, m))
  {
    var s := a + m + t;
    assert s[|a|..|a| + |m|] == m;
    assert MatchesAt(s, pat, |a|);
    assert LeftmostMatch(s, pat) == Some(|a|);
    forall j | 0 <= j < |a|
      ensures !Occurs(s, m, j)
    {
      if Occurs(s, m, j) {
        OccurrenceMatches(s, m, pat, j);
      }
    }
    assert s == a + (m + t);
    RemoveAfterPrefix(a, m + t, m);
    assert (m + t)[..|m|] == m;
    assert (m + t)[|m|..] == t;
  }

  /**
   * A new name can still contain the pattern: removing it once more is not a
   * no-op.
   */
  lemma StripAgainExample()
    ensures StripFirstMatch("ggameame", "game") == Some("game")
    ensures StripFirstMatch("game", "game") == Some("")
  {
    StripGgameame();
    StripGame();
  }

  lemma StripGgameame()
    ensures StripFirstMatch("ggameame", "game") == Some("game")
  {
    LeftmostInGgameame();
    assert "ggameame"[1..5] == "game";
    RemoveFromGgameame();
  }

  lemma LeftmostInGgameame()
    ensures LeftmostMatch("ggameame", "game") == Some(1)
  {
    assert MatchesAt("ggameame", "game", 1) by { assert "ggameame"[1..5] == "game"; }
    assert !MatchesAt("ggameame", "game", 0) by { assert "ggameame"[0..4][1] == 'g'; }
  }

  /** `"ggameame".replace("game", "")` is "game": the removal is a single pass. */
  lemma RemoveFromGgameame()
    ensures RemoveAll("ggameame", "game") == "game"
  {
    assert "ggameame" == "g" + ("game" + "ame");
    assert !Occurs("ggameame", "game", 0) by { assert "ggameame"[0..4][1] == 'g'; }
    RemoveAfterPrefix("g", "game" + "ame", "game");
    assert ("game" + "ame")[..4] == "game" && ("game" + "ame")[4..] == "ame";
    assert RemoveAll("ame", "game") == "ame";
  }


  lemma StripGame()
    ensures StripFirstMatch("game", "game") == Some("")
  {
    assert "game" == "" + "game" + "";
    StripLeftmostOccurrence("", "game", "", "game");
    assert RemoveAll("", "game") == "";
  }

  /**
   * Only the exact-case text of the first match is removed: every occurrence of
   * it goes, and occurrences in another letter case stay.
   */
  lemma StripExamples()
    ensures StripFirstMatch("GamegAME", "game") == Some("gAME")
    ensures StripFirstMatch("GameGame", "game") == Some("")
    ensures StripFirstMatch("g|me", "game") == None
  {
    assert MatchesAt("GamegAME", "game", 0);
    assert LeftmostMatch("GamegAME", "game") == Some(0);
    assert "GamegAME"[0..4] == "Game";
    assert RemoveAll("AME", "Game") == "AME";
    assert "gAME"[..4][0] != "Game"[0];
    assert RemoveAll("gAME", "Game") == "gAME";
    assert "GamegAME"[..4] == "Game" && "GamegAME"[4..] == "gAME";

    assert MatchesAt("GameGame", "game", 0);
    assert LeftmostMatch("GameGame", "game") == Some(0);
    assert "GameGame"[0..4] == "Game";
    assert "GameGame"[..4] == "Game" && "GameGame"[4..] == "Game";
    assert "Game"[..4] == "Game" && "Game"[4..] == "";

    forall j
      ensures !MatchesAt("g|me", "game", j)
    {
      if 0 <= j && j + 4 <= 4 {
        assert "g|me"[j..j + 4][1] == '|';
      }
    }
  }
}
