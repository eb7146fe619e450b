/**
 * `main` of scripting/get_game_data.py: find, rename, copy, write the manifest,
 * then compile. Resolving the two command-line paths and the directory listings
 * are inputs: `listing` is every entry of the source directory, which the glob
 * scans (the finder applies `DIR_PATTERN` itself), and `targetTree` every path
 * below the target once the copies are made, which `rglob` scans.
 */
module Pipeline {
  import opened Wrappers
  import opened Text
  import opened Paths
  import opened Harvest
  import opened Build

  /** What one successful run produces before the build step. */
  datatype HarvestPlan = HarvestPlan(
    gameDirs: seq<Path>,
    newNames: seq<string>,
    copies: seq<CopyRequest>,
    metadata: MetadataFile)

  /**
   * `h` is the run of `main` on this listing: the found directories, their new
   * names (one each, in order), one copy per directory to the target under its
   * new name, and a manifest listing exactly those names, written to
   * `target/metadata.json`.
   */
  predicate IsPlanOf(h: HarvestPlan, sourcePath: Path, listing: seq<Entry>, targetPath: Path)
  {
    && h.gameDirs == FindAllGamePaths(sourcePath, listing)
    && |h.newNames| == |h.gameDirs| && |h.copies| == |h.gameDirs|
    && (forall k :: 0 <= k < |h.gameDirs| ==>
          StripFirstMatch(Name(h.gameDirs[k]), TO_STRIP) == Some(h.newNames[k]))
    && WellFormed(h.metadata.data) && h.metadata.data.gameNames == h.newNames
    && (forall k :: 0 <= k < |h.copies| ==>
          h.copies[k] == CopyRequest(h.gameDirs[k], Join(targetPath, h.metadata.data.gameNames[k])))
    && h.metadata.path == Child(targetPath, METADATA_FILE)
  }

  /**
   * The file-system part of `main` up to the manifest. It fails exactly when a
   * found directory has no case-insensitive "game" in its name, and then the
   * error names the first such directory.
   */
  method PlanHarvest(sourcePath: Path, listing: seq<Entry>, targetPath: Path) returns (r: Result<HarvestPlan, HarvestError>)
    ensures r.Success? <==> AllNamed(FindAllGamePaths(sourcePath, listing), TO_STRIP)
    ensures r.Success? ==> IsPlanOf(r.value, sourcePath, listing, targetPath)
    ensures r.Failure? ==>
      var found := FindAllGamePaths(sourcePath, listing);
      exists k :: (0 <= k < |found| && StripFirstMatch(Name(found[k]), TO_STRIP).None?
                   && r.error == NoMatch(Name(found[k])))
  {
    var gameDirs := FindAllGamePaths(sourcePath, listing);
    var names := GetNamesFromPaths(gameDirs, TO_STRIP);
    if names.Failure? {
      return Failure(names.error);
    }
    var newGameDirs := names.value;
    var copies := CreateNewDirs(gameDirs, targetPath, newGameDirs);
    var metadata := MakeJsonMetadataFile(targetPath, newGameDirs);
    return Success(HarvestPlan(gameDirs, newGameDirs, copies, metadata));
  }

  /**
   * `main`: on a rename failure nothing further happens (no copy, no manifest,
   * no build); otherwise the build runner compiles the target tree and leaves
   * the working directory where it was.
   */
  method HarvestAndBuild(
    sourcePath: Path, listing: seq<Entry>, targetPath: Path, targetTree: seq<Path>,
    exitStatus: (Path, seq<string>) -> int, process: Process)
    returns (r: Result<HarvestPlan, HarvestError>)
    modifies process
    ensures r.Success? <==> AllNamed(FindAllGamePaths(sourcePath, listing), TO_STRIP)
    ensures r.Success? ==> IsPlanOf(r.value, sourcePath, listing, targetPath)
    ensures r.Failure? ==>
      var found := FindAllGamePaths(sourcePath, listing);
      exists k :: (0 <= k < |found| && StripFirstMatch(Name(found[k]), TO_STRIP).None?
                   && r.error == NoMatch(Name(found[k])))
    ensures r.Failure? ==>
      && process.invocations == old(process.invocations)
      && process.chdirs == old(process.chdirs)
    ensures r.Success? ==>
      process.invocations
        == old(process.invocations) + Builds(MatchedFiles(targetTree), old(process.compileCommand), exitStatus)
    ensures r.Success? ==>
      process.chdirs == old(process.chdirs) + ChdirTrace(MatchedFiles(targetTree), old(process.cwd))
    ensures process.cwd == old(process.cwd) && process.compileCommand == old(process.compileCommand)
  {
    r := PlanHarvest(sourcePath, listing, targetPath);
    if r.Success? {
      process.CompileCodeFiles(targetTree, exitStatus);
    }
  }

  /** A harvest that succeeds writes a manifest counting one name per copy. */
  lemma ManifestCountsCopies(h: HarvestPlan, sourcePath: Path, listing: seq<Entry>, targetPath: Path)
    requires IsPlanOf(h, sourcePath, listing, targetPath)
    ensures h.metadata.data.numberOfGames == |h.copies| == |FindAllGamePaths(sourcePath, listing)|
    ensures forall k :: 0 <= k < |h.copies| ==>
      h.copies[k].dest == Join(targetPath, h.metadata.data.gameNames[k])
  {
  }

  /** A listing whose names contain no '|' never makes the rename step fail. */
  lemma BarFreeListingHarvests(sourcePath: Path, listing: seq<Entry>)
    requires forall j :: 0 <= j < |listing| ==> '|' !in listing[j].name
    ensures AllNamed(FindAllGamePaths(sourcePath, listing), TO_STRIP)
  {
    var found := FindAllGamePaths(sourcePath, listing);
    forall k | 0 <= k < |found|
      ensures StripFirstMatch(Name(found[k]), TO_STRIP).Some?
    {
      FinderKeepsOnlyGameDirs(sourcePath, listing, found[k]);
      var j :| 0 <= j < |listing| && IsGameDir(listing[j]) && found[k] == Child(sourcePath, listing[j].name);
      BarFreeAgreement(listing[j].name);
    }
  }

  /** A directory called "g|me" in the source makes the whole run fail. */
  lemma BarDirectoryFailsRun(sourcePath: Path)
    ensures !AllNamed(FindAllGamePaths(sourcePath, [Entry("g|me", true)]), TO_STRIP)
  {
    BarDirectoryFoundButUnnamed(sourcePath);
    var found := FindAllGamePaths(sourcePath, [Entry("g|me", true)]);
    assert StripFirstMatch(Name(found[0]), TO_STRIP).None?;
  }

  /**
   * The source tree with directories GameOne, MyGameTwo and GAME3 and a file
   * notagame: the three directories are found, in listing order.
   */
  lemma ExampleFinder(sourcePath: Path, listing: seq<Entry>)
    requires listing == [Entry("GameOne", true), Entry("MyGameTwo", true), Entry("notagame", false), Entry("GAME3", true)]
    ensures FindAllGamePaths(sourcePath, listing)
            == [Child(sourcePath, "GameOne"), Child(sourcePath, "MyGameTwo"), Child(sourcePath, "GAME3")]
  {
    AcceptGameOne();
    AcceptMyGameTwo();
    AcceptGame3();
    assert listing[..1][..0] == [];
    assert FindAllGamePaths(sourcePath, listing[..1]) == [Child(sourcePath, "GameOne")];
    assert listing[..2][..1] == listing[..1];
    assert FindAllGamePaths(sourcePath, listing[..2]) == [Child(sourcePath, "GameOne"), Child(sourcePath, "MyGameTwo")];
    assert listing[..3][..2] == listing[..2];
    assert FindAllGamePaths(sourcePath, listing[..3]) == FindAllGamePaths(sourcePath, listing[..2]);
    assert listing[..4][..3] == listing[..3] && listing[..4] == listing;
  }

  lemma AcceptGameOne()
    ensures IsGameDir(Entry("GameOne", true))
  {
    assert MatchesAt("GameOne", TO_STRIP, 0);
    CaseInsensitiveGameAccepted("GameOne", 0);
  }

  lemma AcceptMyGameTwo()
    ensures IsGameDir(Entry("MyGameTwo", true))
  {
    assert MatchesAt("MyGameTwo", TO_STRIP, 2);
    CaseInsensitiveGameAccepted("MyGameTwo", 2);
  }

  lemma AcceptGame3()
    ensures IsGameDir(Entry("GAME3", true))
  {
    assert MatchesAt("GAME3", TO_STRIP, 0);
    CaseInsensitiveGameAccepted("GAME3", 0);
  }

  /** ... and renamed One, MyTwo and 3: the match is found in any letter case. */
  lemma ExampleRenames()
    ensures StripFirstMatch("GameOne", TO_STRIP) == Some("One")
    ensures StripFirstMatch("MyGameTwo", TO_STRIP) == Some("MyTwo")
    ensures StripFirstMatch("GAME3", TO_STRIP) == Some("3")
  {
    RenameGameOne();
    RenameMyGameTwo();
    RenameGame3();
  }

  lemma RenameGameOne()
    ensures StripFirstMatch("GameOne", TO_STRIP) == Some("One")
  {
    assert MatchesAt("GameOne", TO_STRIP, 0);
    assert LeftmostMatch("GameOne", TO_STRIP) == Some(0);
    assert "GameOne"[0..4] == "Game";
    assert RemoveAll("One", "Game") == "One";
    assert "GameOne"[..4] == "Game" && "GameOne"[4..] == "One";
  }

  lemma RenameMyGameTwo()
    ensures StripFirstMatch("MyGameTwo", TO_STRIP) == Some("MyTwo")
  {
    LeftmostInMyGameTwo();
    assert "MyGameTwo"[2..6] == "Game";
    RemoveFromMyGameTwo();
  }

  lemma LeftmostInMyGameTwo()
    ensures LeftmostMatch("MyGameTwo", TO_STRIP) == Some(2)
  {
    assert MatchesAt("MyGameTwo", TO_STRIP, 2);
    assert !MatchesAt("MyGameTwo", TO_STRIP, 0) by { assert "MyGameTwo"[0..4][0] == 'M'; }
    assert !MatchesAt("MyGameTwo", TO_STRIP, 1) by { assert "MyGameTwo"[1..5][0] == 'y'; }
  }

  lemma RemoveFromMyGameTwo()
    ensures RemoveAll("MyGameTwo", "Game") == "MyTwo"
  {
    assert RemoveAll("Two", "Game") == "Two";
    assert "GameTwo"[..4] == "Game" && "GameTwo"[4..] == "Two";
    assert "yGameTwo"[..4][0] != "Game"[0] && "yGameTwo"[1..] == "GameTwo";
    assert "MyGameTwo"[..4][0] != "Game"[0] && "MyGameTwo"[1..] == "yGameTwo";
  }

  lemma RenameGame3()
    ensures StripFirstMatch("GAME3", TO_STRIP) == Some("3")
  {
    assert MatchesAt("GAME3", TO_STRIP, 0);
    assert LeftmostMatch("GAME3", TO_STRIP) == Some(0);
    assert "GAME3"[0..4] == "GAME";
    assert "GAME3"[..4] == "GAME" && "GAME3"[4..] == "3";
  }

  /**
   * The same tree with notagame a directory rather than a file: the glob accepts
   * it too, so all four directories are found (RenameNotagame: it becomes nota).
   */
  lemma ExampleFinderNotagameDirectory(sourcePath: Path, listing: seq<Entry>)
    requires listing == [Entry("GameOne", true), Entry("MyGameTwo", true), Entry("notagame", true), Entry("GAME3", true)]
    ensures var found := FindAllGamePaths(sourcePath, listing);
            && |found| == 4
            && found[0] == Child(sourcePath, "GameOne") && found[1] == Child(sourcePath, "MyGameTwo")
            && found[2] == Child(sourcePath, "notagame") && found[3] == Child(sourcePath, "GAME3")
  {
    AcceptGameOne();
    AcceptMyGameTwo();
    AcceptNotagame();
    AcceptGame3();
    forall j | 0 <= j < |listing|
      ensures IsGameDir(listing[j])
    {
      if j == 0 {} else if j == 1 {} else if j == 2 {} else {}
    }
    FinderKeepsAllAccepted(sourcePath, listing);
  }

  lemma AcceptNotagame()
    ensures IsGameDir(Entry("notagame", true))
  {
    assert MatchesAt("notagame", TO_STRIP, 4) by { assert "notagame"[4..8] == "game"; }
    CaseInsensitiveGameAccepted("notagame", 4);
  }

  lemma RenameNotagame()
    ensures StripFirstMatch("notagame", TO_STRIP) == Some("nota")
  {
    LeftmostInNotagame();
    assert "notagame"[4..8] == "game";
    RemoveFromNotagame();
  }

  lemma LeftmostInNotagame()
    ensures LeftmostMatch("notagame", TO_STRIP) == Some(4)
  {
    assert MatchesAt("notagame", TO_STRIP, 4) by { assert "notagame"[4..8] == "game"; }
    assert !MatchesAt("notagame", TO_STRIP, 0) by { assert "notagame"[0..4][0] == 'n'; }
    assert !MatchesAt("notagame", TO_STRIP, 1) by { assert "notagame"[1..5][0] == 'o'; }
    assert !MatchesAt("notagame", TO_STRIP, 2) by { assert "notagame"[2..6][0] == 't'; }
    assert !MatchesAt("notagame", TO_STRIP, 3) by { assert "notagame"[3..7][0] == 'a'; }
  }

  lemma RemoveFromNotagame()
    ensures RemoveAll("notagame", "game") == "nota"
  {
    assert "notagame" == "nota" + "game";
    forall j | 0 <= j < 4
      ensures !Occurs("nota" + "game", "game", j)
    {
      assert ("nota" + "game")[j..j + 4][0] != 'g';
    }
    RemoveSingleAtEnd("nota", "game");
  }
}
