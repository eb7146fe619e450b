/**
 * The harvesting steps of scripting/get_game_data.py: find the game directories
 * of a source directory, derive their new names, plan the copies into the
 * target directory and build the metadata record.
 */
module Harvest {
  import opened Wrappers
  import opened Text
  import opened Glob
  import opened Paths

  /** One entry of a directory listing: its name and whether it is a directory. */
  datatype Entry = Entry(name: string, isDir: bool)

  /** The substring `main` strips from every found directory name. */
  const TO_STRIP: string := "game"

  /** The file name of the manifest inside the target directory. */
  const METADATA_FILE: string := "metadata.json"

  /** An entry the finder keeps: a directory whose name DIR_PATTERN accepts. */
  predicate IsGameDir(e: Entry)
  {
    e.isDir && Matches(DIR_PATTERN, e.name)
  }

  // ---------------------------------------------------------------------------
  // Game directory finder

  /**
   * `find_all_game_paths`: the listing's entries that the glob accepts and that
   * are directories, as children of `sourceDir`, in enumeration order.
   */
  function FindAllGamePaths(sourceDir: Path, listing: seq<Entry>): (found: seq<Path>)
    ensures |found| <= |listing|
    ensures forall k :: 0 <= k < |found| ==> Parent(found[k]) == sourceDir
  {
    if listing == [] then []
    else
      var last := listing[|listing| - 1];
      FindAllGamePaths(sourceDir, listing[..|listing| - 1])
        + (if IsGameDir(last) then [Child(sourceDir, last.name)] else [])
  }

  /** The positions of the listing the finder keeps, in increasing order. */
  function GameIndices(listing: seq<Entry>): (idx: seq<nat>)
    ensures forall k :: 0 <= k < |idx| ==> idx[k] < |listing|
  {
    if listing == [] then []
    else
      GameIndices(listing[..|listing| - 1])
        + (if IsGameDir(listing[|listing| - 1]) then [|listing| - 1] else [])
  }

  predicate StrictlyIncreasing(idx: seq<nat>)
  {
    forall a, b :: 0 <= a < b < |idx| ==> idx[a] < idx[b]
  }

  /**
   * The finder returns exactly the accepted directories of the listing: one path
   * per kept position, positions strictly increasing (enumeration order kept),
   * and a position is kept iff its entry is a directory whose name is accepted.
   */
  lemma FinderSelects(sourceDir: Path, listing: seq<Entry>)
    ensures var found := FindAllGamePaths(sourceDir, listing);
            var idx := GameIndices(listing);
            && |found| == |idx|
            && StrictlyIncreasing(idx)
            && (forall k :: 0 <= k < |idx| ==> found[k] == Child(sourceDir, listing[idx[k]].name))
            && (forall j :: 0 <= j < |listing| ==> (j in idx <==> IsGameDir(listing[j])))
  {
    GameIndicesSelect(listing);
    FinderAtIndices(sourceDir, listing);
  }

  /** The kept positions increase, and a position is kept iff its entry is accepted. */
  lemma {:induction false} GameIndicesSelect(listing: seq<Entry>)
    ensures StrictlyIncreasing(GameIndices(listing))
    ensures forall j :: 0 <= j < |listing| ==> (j in GameIndices(listing) <==> IsGameDir(listing[j]))
    decreases |listing|
  {
    if listing != [] {
      var n := |listing| - 1;
      var init := listing[..n];
      GameIndicesSelect(init);
      var tail := if IsGameDir(listing[n]) then [n] else [];
      assert GameIndices(listing) == GameIndices(init) + tail;
      forall j | 0 <= j < n
        ensures listing[j] == init[j]
      {
      }
    }
  }

  /** The finder's k-th path is the child named by the k-th kept entry. */
  lemma {:induction false} FinderAtIndices(sourceDir: Path, listing: seq<Entry>)
    ensures |FindAllGamePaths(sourceDir, listing)| == |GameIndices(listing)|
    ensures forall k :: 0 <= k < |GameIndices(listing)| ==>
      FindAllGamePaths(sourceDir, listing)[k] == Child(sourceDir, listing[GameIndices(listing)[k]].name)
    decreases |listing|
  {
    if listing != [] {
      var n := |listing| - 1;
      var init := listing[..n];
      FinderAtIndices(sourceDir, init);
      var found := FindAllGamePaths(sourceDir, listing);
      var idx := GameIndices(listing);
      var prior := FindAllGamePaths(sourceDir, init);
      var priorIdx := GameIndices(init);
      forall k | 0 <= k < |idx|
        ensures found[k] == Child(sourceDir, listing[idx[k]].name)
      {
        if k < |priorIdx| {
          assert idx[k] == priorIdx[k];
          assert found[k] == prior[k];
          assert listing[idx[k]] == init[priorIdx[k]];
        }
      }
    }
  }

  /** When every entry is an accepted directory, the finder returns all of them, in order. */
  lemma {:induction false} FinderKeepsAllAccepted(sourceDir: Path, listing: seq<Entry>)
    requires forall j :: 0 <= j < |listing| ==> IsGameDir(listing[j])
    ensures |FindAllGamePaths(sourceDir, listing)| == |listing|
    ensures forall k :: 0 <= k < |listing| ==> FindAllGamePaths(sourceDir, listing)[k] == Child(sourceDir, listing[k].name)
    decreases |listing|
  {
    if listing != [] {
      var init := listing[..|listing| - 1];
      var last := listing[|listing| - 1];
      FinderKeepsAllAccepted(sourceDir, init);
      var found := FindAllGamePaths(sourceDir, listing);
      assert IsGameDir(last);
      assert found == FindAllGamePaths(sourceDir, init) + [Child(sourceDir, last.name)];
      forall k | 0 <= k < |listing|
        ensures found[k] == Child(sourceDir, listing[k].name)
      {
        var prior := FindAllGamePaths(sourceDir, init);
        if k < |init| {
          assert listing[k] == init[k];
          assert found[k] == prior[k];
        } else {
          assert k == |prior|;
          assert found[k] == Child(sourceDir, last.name);
        }
      }
    }
  }

  /** Files are never returned, and neither are directories the glob rejects. */
  lemma FinderKeepsOnlyGameDirs(sourceDir: Path, listing: seq<Entry>, p: Path)
    requires p in FindAllGamePaths(sourceDir, listing)
    ensures exists j :: 0 <= j < |listing| && IsGameDir(listing[j]) && p == Child(sourceDir, listing[j].name)
  {
    FinderSelects(sourceDir, listing);
    var found := FindAllGamePaths(sourceDir, listing);
    var idx := GameIndices(listing);
    var k :| 0 <= k < |found| && found[k] == p;
    assert idx[k] in idx;
  }

  // ---------------------------------------------------------------------------
  // Directory-name pattern versus the name transformer

  /** Every name containing "game" in any letter case passes the finder's glob. */
  lemma CaseInsensitiveGameAccepted(s: string, i: int)
    requires MatchesAt(s, TO_STRIP, i)
    ensures Matches(DIR_PATTERN, s)
  {
    DirPatternAcceptance(s);
    assert s[i..i + 4][0] == s[i] && s[i..i + 4][1] == s[i + 1];
    assert s[i..i + 4][2] == s[i + 2] && s[i..i + 4][3] == s[i + 3];
    assert Lower(s[i]) == 'g' && Lower(s[i + 1]) == 'a';
    assert Lower(s[i + 2]) == 'm' && Lower(s[i + 3]) == 'e';
    assert GameWindowAt(s, i);
  }

  /**
   * For names without '|', the finder's glob and the transformer's search agree:
   * the glob accepts the name iff it contains "game" in some letter case.
   */
  lemma BarFreeAgreement(s: string)
    requires '|' !in s
    ensures Matches(DIR_PATTERN, s) <==> exists i :: MatchesAt(s, TO_STRIP, i)
  {
    DirPatternAcceptance(s);
    if Matches(DIR_PATTERN, s) {
      var i :| GameWindowAt(s, i);
      assert s[i] != '|' && s[i + 1] != '|' && s[i + 2] != '|' && s[i + 3] != '|';
      var w := s[i..i + 4];
      assert w[0] == s[i] && w[1] == s[i + 1] && w[2] == s[i + 2] && w[3] == s[i + 3];
      assert forall k :: 0 <= k < 4 ==> Lower(w[k]) == Lower(TO_STRIP[k]);
      assert MatchesAt(s, TO_STRIP, i);
    }
    if exists i :: MatchesAt(s, TO_STRIP, i) {
      var i :| MatchesAt(s, TO_STRIP, i);
      CaseInsensitiveGameAccepted(s, i);
    }
  }

  /**
   * Because each bracket also admits '|', a directory named "g|me" is found, and
   * then has no case-insensitive "game" for the transformer to strip.
   */
  lemma BarDirectoryFoundButUnnamed(sourceDir: Path)
    ensures FindAllGamePaths(sourceDir, [Entry("g|me", true)]) == [Child(sourceDir, "g|me")]
    ensures StripFirstMatch(Name(Child(sourceDir, "g|me")), TO_STRIP).None?
  {
    DirPatternAcceptance("g|me");
    assert GameWindowAt("g|me", 0);
    assert [Entry("g|me", true)][..0] == [];
    StripExamples();
  }

  // ---------------------------------------------------------------------------
  // Name transformer

  /**
   * The IndexError of indexing an empty `re.findall` result. The Python error
   * ("list index out of range") does not name the directory; `name` is extra
   * information the model carries so that contracts can say which name failed.
   */
  datatype HarvestError = NoMatch(name: string)

  /** Every path's name contains a case-insensitive match of `toStrip`. */
  predicate AllNamed(paths: seq<Path>, toStrip: string)
  {
    forall k :: 0 <= k < |paths| ==> StripFirstMatch(Name(paths[k]), toStrip).Some?
  }

  /**
   * `get_names_from_paths`: the k-th new name is the k-th path's name with its
   * first case-insensitive match of `toStrip` stripped; the first name without a
   * match aborts the whole call.
   */
  method GetNamesFromPaths(paths: seq<Path>, toStrip: string) returns (r: Result<seq<string>, HarvestError>)
    ensures r.Success? <==> AllNamed(paths, toStrip)
    ensures r.Success? ==> |r.value| == |paths|
    ensures r.Success? ==>
      forall k :: 0 <= k < |paths| ==> StripFirstMatch(Name(paths[k]), toStrip) == Some(r.value[k])
    ensures r.Failure? ==>
      exists k :: (0 <= k < |paths| && StripFirstMatch(Name(paths[k]), toStrip).None?
                   && AllNamed(paths[..k], toStrip) && r.error == NoMatch(Name(paths[k])))
  {
    var newNames: seq<string> := [];
    var i := 0;
    while i < |paths|
      invariant 0 <= i <= |paths|
      invariant |newNames| == i
      invariant forall k :: 0 <= k < i ==> StripFirstMatch(Name(paths[k]), toStrip) == Some(newNames[k])
    {
      var dirname := Name(paths[i]);
      var stripped := StripFirstMatch(dirname, toStrip);
      if stripped.None? {
        assert AllNamed(paths[..i], toStrip);
        return Failure(NoMatch(dirname));
      }
      newNames := newNames + [stripped.value];
      i := i + 1;
    }
    return Success(newNames);
  }

  /**
   * The transformer's effect on a name with one case-insensitive occurrence of
   * "game": that occurrence is cut out and the name is four characters shorter.
   */
  lemma NewNameOfSingleOccurrence(dir: Path, before: string, word: string, after: string)
    requires SameIgnoringCase(word, TO_STRIP)
    requires forall j :: MatchesAt(before + word + after, TO_STRIP, j) ==> j == |before|
    ensures StripFirstMatch(Name(Child(dir, before + word + after)), TO_STRIP) == Some(before + after)
    ensures |before + after| == |before + word + after| - 4
  {
    StripSingleOccurrence(before, word, after, TO_STRIP);
  }

  // ---------------------------------------------------------------------------
  // Copy plan

  /** One `copy_and_overwrite(source, dest)` call. */
  datatype CopyRequest = CopyRequest(source: Path, dest: Path)

  /**
   * `create_new_dirs`: one copy per pair of `zip(oldDirs, newDirs)`, in order, so
   * the longer list is cut to the length of the shorter one.
   */
  method CreateNewDirs(oldDirs: seq<Path>, newDirpath: Path, newDirs: seq<string>) returns (plan: seq<CopyRequest>)
    ensures |plan| == if |oldDirs| <= |newDirs| then |oldDirs| else |newDirs|
    ensures forall k :: 0 <= k < |plan| ==> plan[k] == CopyRequest(oldDirs[k], Join(newDirpath, newDirs[k]))
  {
    plan := [];
    var i := 0;
    while i < |oldDirs| && i < |newDirs|
      invariant 0 <= i <= |oldDirs| && i <= |newDirs|
      invariant |plan| == i
      invariant forall k :: 0 <= k < i ==> plan[k] == CopyRequest(oldDirs[k], Join(newDirpath, newDirs[k]))
    {
      var destPath := Join(newDirpath, newDirs[i]);
      plan := plan + [CopyRequest(oldDirs[i], destPath)];
      i := i + 1;
    }
  }

  /**
   * Where a copy lands for a directory-derived name (no '/'): inside the target,
   * except that an empty name (a source directory called "Game", say) or "."
   * (one called ".game") targets the target directory itself.
   */
  lemma CopyDestination(newDirpath: Path, newDir: string)
    requires '/' !in newDir
    ensures newDir == "" || newDir == "." ==> Join(newDirpath, newDir) == newDirpath
    ensures newDir != "" && newDir != "." ==> Join(newDirpath, newDir) == Child(newDirpath, newDir)
  {
    JoinName(newDirpath, newDir);
  }

  // ---------------------------------------------------------------------------
  // Metadata record

  /** `{"game_names": dirs, "number_of_games": len(dirs)}`. */
  datatype Manifest = Manifest(gameNames: seq<string>, numberOfGames: int)

  /** The manifest together with the file it is written to. */
  datatype MetadataFile = MetadataFile(path: Path, data: Manifest)

  /** The count field agrees with the name list. */
  predicate WellFormed(m: Manifest)
  {
    m.numberOfGames == |m.gameNames|
  }

  /**
   * `make_json_metadata_file`: the record holds the names unchanged and in order,
   * its count is their number, and it goes to `path/metadata.json`.
   */
  function MakeJsonMetadataFile(path: Path, dirs: seq<string>): (f: MetadataFile)
    ensures WellFormed(f.data) && f.data.gameNames == dirs
    ensures f.path == Child(path, METADATA_FILE) && Parent(f.path) == path
  {
    JoinName(path, METADATA_FILE);
    MetadataFile(Join(path, METADATA_FILE), Manifest(dirs, |dirs|))
  }
}
