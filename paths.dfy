/**
 * Absolute POSIX paths as `pathlib.PurePosixPath` represents them: the list of
 * components below the root.
 */
module Paths {

  datatype Path = Path(parts: seq<string>)

  /** `path.name`: the last component, or "" for the root. */
  function Name(p: Path): (n: string)
    ensures p.parts == [] ==> n == ""
    ensures p.parts != [] ==> n in p.parts
  {
    if p.parts == [] then "" else p.parts[|p.parts| - 1]
  }

  /** `path.parent`: the path without its last component; the root is its own parent. */
  function Parent(p: Path): (q: Path)
    ensures p.parts != [] ==> |q.parts| == |p.parts| - 1 && q.parts <= p.parts
    ensures p.parts == [] ==> q == p
  {
    if p.parts == [] then p else Path(p.parts[..|p.parts| - 1])
  }

  /** The path of a directory entry named `name` inside `dir`. */
  function Child(dir: Path, name: string): (c: Path)
    ensures Name(c) == name && Parent(c) == dir
  {
    Path(dir.parts + [name])
  }

  /** A non-root path is its parent's child under its own name. */
  lemma ParentNameRoundTrip(p: Path)
    requires p.parts != []
    ensures Child(Parent(p), Name(p)) == p
  {
    assert p.parts[..|p.parts| - 1] + [p.parts[|p.parts| - 1]] == p.parts;
  }

  /** Index of the first '/' in `s`, or |s| when there is none. */
  function SlashIndex(s: string): (k: nat)
    ensures k <= |s| && '/' !in s[..k]
    ensures k < |s| ==> s[k] == '/'
  {
    if s == [] then 0
    else if s[0] == '/' then 0
    else
      var k := 1 + SlashIndex(s[1..]);
      assert s[..k] == [s[0]] + s[1..][..k - 1];
      k
  }

  /** The component a piece between slashes contributes: empty pieces and "." vanish. */
  function Keep(piece: string): seq<string>
  {
    if piece == "" || piece == "." then [] else [piece]
  }

  /** The components `pathlib` parses out of a relative string. */
  function Segments(s: string): (r: seq<string>)
    ensures forall k :: 0 <= k < |r| ==> r[k] != "" && r[k] != "." && '/' !in r[k]
    decreases |s|
  {
    var k := SlashIndex(s);
    Keep(s[..k]) + (if k < |s| then Segments(s[k + 1..]) else [])
  }

  /**
   * `dir.joinpath(s)` (also `dir / s`): an argument that starts with '/' replaces
   * the path; otherwise its components are appended.
   */
  function Join(dir: Path, s: string): (r: Path)
    ensures (|s| == 0 || s[0] != '/') ==> dir.parts <= r.parts
    ensures |s| > 0 && s[0] == '/' ==> r.parts == Segments(s)
  {
    if |s| > 0 && s[0] == '/' then Path(Segments(s)) else Path(dir.parts + Segments(s))
  }

  /**
   * Joining a single name (no '/') appends it as one component, except that ""
   * and "." leave the directory itself.
   */
  lemma JoinName(dir: Path, name: string)
    requires '/' !in name
    ensures Join(dir, name) == if name == "" || name == "." then dir else Child(dir, name)
  {
    assert SlashIndex(name) == |name|;
    assert name[..|name|] == name;
    if name == "" || name == "." {
      assert dir.parts + [] == dir.parts;
    }
  }
}
