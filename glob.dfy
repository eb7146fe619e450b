/**
 * Shell-style name patterns as `pathlib` matches them against one directory
 * entry name on a POSIX host: `fnmatch.translate` turns the pattern into a
 * case-sensitive regular expression anchored at both ends of the name.
 */
module Glob {

  /** One element of a translated pattern. */
  datatype Token =
    | Star                     // `*`: any run of characters, possibly empty
    | OneOf(chars: string)     // `[...]`: one character listed between the brackets
    | Literal(c: char)         // any other character stands for itself

  /** `DIR_PATTERN = "*[g|G][a|A][m|M][e|E]*"`; inside brackets `|` is an ordinary member. */
  const DIR_PATTERN: seq<Token> :=
    [Star, OneOf("g|G"), OneOf("a|A"), OneOf("m|M"), OneOf("e|E"), Star]

  /** `FILE_EXTENSION = "*.go"`. */
  const FILE_EXTENSION: seq<Token> := [Star, Literal('.'), Literal('g'), Literal('o')]

  /** The single-character test of a token (a star is never asked). */
  predicate Admits(t: Token, c: char)
  {
    match t
    case Star => true
    case OneOf(cs) => c in cs
    case Literal(d) => c == d
  }

  /** Whole-name match, with backtracking over the stars. */
  predicate Matches(p: seq<Token>, s: string): (b: bool)
    ensures b && NoStar(p) ==> |s| == |p|
    ensures b && p != [] && !p[0].Star? ==> s != [] && Admits(p[0], s[0])
    decreases |p| + |s|
  {
    if p == [] then s == []
    else if p[0].Star? then Matches(p[1..], s) || (s != [] && Matches(p, s[1..]))
    else s != [] && Admits(p[0], s[0]) && Matches(p[1..], s[1..])
  }

  predicate NoStar(p: seq<Token>)
  {
    forall j :: 0 <= j < |p| ==> !p[j].Star?
  }

  /** The star-free pattern `p` accepts the characters of `s` starting at `i`. */
  predicate FitsAt(p: seq<Token>, s: string, i: int)
  {
    0 <= i && i + |p| <= |s| && forall j :: 0 <= j < |p| ==> Admits(p[j], s[i + j])
  }

  lemma {:induction false} StarMatchesAll(s: string)
    ensures Matches([Star], s)
    decreases |s|
  {
    assert [Star][1..] == [];
    if s != [] {
      StarMatchesAll(s[1..]);
    }
  }

  /** A leading star skips some prefix of the name. */
  lemma {:induction false} LeadingStar(q: seq<Token>, s: string)
    ensures Matches([Star] + q, s) <==> exists k :: 0 <= k <= |s| && Matches(q, s[k..])
    decreases |s|
  {
    var p := [Star] + q;
    assert p[0].Star? && p[1..] == q;
    if s == [] {
      assert s[0..] == s;
    } else {
      LeadingStar(q, s[1..]);
      if Matches(p, s) {
        if Matches(q, s) {
          assert s[0..] == s;
        } else {
          var k :| 0 <= k <= |s| - 1 && Matches(q, s[1..][k..]);
          assert s[1..][k..] == s[k + 1..];
        }
      }
      if exists k :: 0 <= k <= |s| && Matches(q, s[k..]) {
        var k :| 0 <= k <= |s| && Matches(q, s[k..]);
        if k == 0 {
          assert s[0..] == s;
        } else {
          assert s[1..][k - 1..] == s[k..];
        }
      }
    }
  }

  /** A star-free pattern accepts exactly the names of its length whose characters it admits. */
  lemma {:induction false} StarFreeExact(p: seq<Token>, s: string)
    requires NoStar(p)
    ensures Matches(p, s) <==> |s| == |p| && FitsAt(p, s, 0)
    decreases |p|
  {
    if p != [] {
      assert !p[0].Star?;
      if s != [] {
        StarFreeExact(p[1..], s[1..]);
      }
    }
  }

  /** A star-free pattern followed by a star accepts the names it fits at their start. */
  lemma {:induction false} StarFreeThenStar(p: seq<Token>, s: string)
    requires NoStar(p)
    ensures Matches(p + [Star], s) <==> FitsAt(p, s, 0)
    decreases |p|
  {
    if p == [] {
      assert p + [Star] == [Star];
      StarMatchesAll(s);
    } else {
      var q := p + [Star];
      assert !p[0].Star? && q[0] == p[0] && q[1..] == p[1..] + [Star];
      if s != [] {
        StarFreeThenStar(p[1..], s[1..]);
      }
    }
  }

  /** `*p*` with a star-free `p` is a substring test. */
  lemma Contains(p: seq<Token>, s: string)
    requires NoStar(p)
    ensures Matches([Star] + p + [Star], s) <==> exists i :: FitsAt(p, s, i)
  {
    assert [Star] + p + [Star] == [Star] + (p + [Star]);
    LeadingStar(p + [Star], s);
    forall k | 0 <= k <= |s|
      ensures Matches(p + [Star], s[k..]) <==> FitsAt(p, s, k)
    {
      StarFreeThenStar(p, s[k..]);
    }
    if exists i :: FitsAt(p, s, i) {
      var i :| FitsAt(p, s, i);
      assert Matches(p + [Star], s[i..]);
    }
  }

  /** Four consecutive characters drawn in order from {g,|,G}, {a,|,A}, {m,|,M}, {e,|,E}. */
  predicate GameWindowAt(s: string, i: int)
  {
    0 <= i && i + 4 <= |s|
    && s[i] in "g|G" && s[i + 1] in "a|A" && s[i + 2] in "m|M" && s[i + 3] in "e|E"
  }

  /** DIR_PATTERN accepts a name iff the name has a window of the four bracket classes. */
  lemma DirPatternAcceptance(s: string)
    ensures Matches(DIR_PATTERN, s) <==> exists i :: GameWindowAt(s, i)
  {
    var mid := [OneOf("g|G"), OneOf("a|A"), OneOf("m|M"), OneOf("e|E")];
    assert DIR_PATTERN == [Star] + mid + [Star];
    Contains(mid, s);
    forall i
      ensures FitsAt(mid, s, i) <==> GameWindowAt(s, i)
    {
      if FitsAt(mid, s, i) {
        assert Admits(mid[0], s[i + 0]) && Admits(mid[1], s[i + 1]);
        assert Admits(mid[2], s[i + 2]) && Admits(mid[3], s[i + 3]);
      }
      if GameWindowAt(s, i) {
        forall j | 0 <= j < 4
          ensures Admits(mid[j], s[i + j])
        {
          if j == 0 {} else if j == 1 {} else if j == 2 {} else {}
        }
      }
    }
  }

  /** The three literal characters after the star of FILE_EXTENSION. */
  lemma GoSuffixExact(t: string)
    ensures Matches(FILE_EXTENSION[1..], t) <==> t == ".go"
  {
    var tail := FILE_EXTENSION[1..];
    StarFreeExact(tail, t);
    if Matches(tail, t) {
      assert Admits(tail[0], t[0]) && Admits(tail[1], t[1]) && Admits(tail[2], t[2]);
      assert t == [t[0], t[1], t[2]];
    }
    if t == ".go" {
      assert FitsAt(tail, t, 0);
    }
  }

  /** FILE_EXTENSION accepts exactly the names that end in ".go". */
  lemma FileExtensionAcceptance(s: string)
    ensures Matches(FILE_EXTENSION, s) <==> |s| >= 3 && s[|s| - 3..] == ".go"
  {
    assert FILE_EXTENSION == [Star] + FILE_EXTENSION[1..];
    LeadingStar(FILE_EXTENSION[1..], s);
    forall k | 0 <= k <= |s|
      ensures Matches(FILE_EXTENSION[1..], s[k..]) <==> s[k..] == ".go"
    {
      GoSuffixExact(s[k..]);
    }
    if |s| >= 3 && s[|s| - 3..] == ".go" {
      assert Matches(FILE_EXTENSION[1..], s[|s| - 3..]);
    }
  }
}
