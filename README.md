# Game-data harvesting pipeline, modelled in Dafny

This project models `scripting/get_game_data.py`, a script that harvests game
directories. The script works in five steps:

1. It lists a source directory and keeps the sub-directories whose name passes the glob
   `*[g|G][a|A][m|M][e|E]*`.
2. It renames each one: it finds the first case-insensitive match of `"game"` and removes
   every exact-case copy of that match's text.
3. It copies each directory into a target directory under its new name.
4. It writes `metadata.json` holding the new names and their count.
5. It runs `go build <file>` for every `*.go` path below the target. Each run happens in
   the file's own directory, and the script changes back afterwards.

The model keeps the deterministic logic and takes the file system and the
external program as inputs:

- The source directory listing is a sequence of `Entry(name, isDir)`.
- The recursive listing of the target directory is a sequence of paths.
- The exit status of `go build` is a function of the working directory and the argument vector.

| module (file) | what it models |
|---|---|
| `Wrappers` (wrappers.dfy) | `Option` / `Result` for the error path |
| `Text` (text.dfy) | case-insensitive search (`re.findall(..., re.IGNORECASE)[0]`), `str.replace(m, "")` |
| `Glob` (glob.dfy) | fnmatch-style whole-name matching; `DIR_PATTERN`, `FILE_EXTENSION` |
| `Paths` (paths.dfy) | POSIX `pathlib` paths: `name`, `parent`, `joinpath` |
| `Harvest` (harvest.dfy) | `find_all_game_paths`, `get_names_from_paths`, `create_new_dirs` (as a copy plan), `make_json_metadata_file` (as a record) |
| `Build` (build.dfy) | `compile_code_files` on a `Process` object (working directory, `os.chdir` log, `subprocess.run` log, `COMPILE_COMMAND`) |
| `Pipeline` (pipeline.dfy) | `main` |

Behaviour worth knowing. Two bullets rest on modelling assumptions: that `pathlib` globs
are case-sensitive on a POSIX host, and that `rglob` also yields directories. Their
consequences, and the other bullets, are proved below:

- On a POSIX host `pathlib` globs are case-sensitive. Each bracket therefore admits three
  characters, one of them `|`. So `g|me` is found, but the renaming step finds no
  `game` in it, and the run fails with an IndexError (`NoMatch` here; the Python error does not name the directory, the model's `NoMatch` carries the name as extra information).
- `str.replace` removes every occurrence of the matched text in exactly its letter case:
  `GameGame` becomes `""` and `GamegAME` becomes `gAME`.
- The copies follow `zip`, so the shorter list wins.
- A new name of `""` or `"."` (from directories called `Game` or `.game`) makes the copy
  target the target directory itself.
- `rglob("*.go")` yields directories named `*.go` as well as files.

Three further behaviours of the code:

- Only the text of the first case-insensitive match is looked up, but `str.replace` then
  removes every exact-case copy of that text. So a name with several occurrences can
  lose more than one, and other-case copies survive.
- Discovery uses the bracket-class glob above, not a substring test. A name is accepted
  when it holds four consecutive characters drawn from `{g,|,G}`, `{a,|,A}`, `{m,|,M}`,
  `{e,|,E}`. Every name holding "game" in any letter case is accepted, and so is
  `notagame` when it is a directory (it becomes `nota`).
- The target directory is created by `mkdir` without `parents=True`, so a missing parent
  makes it fail. That step is not modelled.

Running the renaming again on its own output is not a no-op: `GamegAME` becomes `gAME`,
which still holds "game" ignoring case, and `ggameame` becomes `game`, which becomes `""`.

A directory named `..game` becomes `..`. Its copy target is `target/..`, the parent of
the target directory, because `joinpath` keeps `..` as a component.

## Model

| member | source | states |
|---|---|---|
| `Text.LeftmostMatch` | scripting/get_game_data.py:87 | the result is a position where `to_strip` matches ignoring case, and no earlier position matches; it is None exactly when no position matches (empty `findall` list) |
| `Text.RemoveAll` | scripting/get_game_data.py:86-88 | `str.replace(m, "")` never lengthens the name |
| `Text.StripFirstMatch` | scripting/get_game_data.py:83-88 | a name gets a new name iff `to_strip` occurs in it ignoring case; the new name is never longer |
| `Text.RemoveAbsent` | scripting/get_game_data.py:86-88 | removing a text that does not occur leaves the name unchanged |
| `Text.RemoveAfterPrefix` | scripting/get_game_data.py:86-88 | `replace` passes a prefix in which no occurrence starts through untouched |
| `Text.RemoveSingle` | scripting/get_game_data.py:86-88 | a text that occurs exactly once is cut out: `a + m + b` becomes `a + b` |
| `Text.StripSingleOccurrence` | scripting/get_game_data.py:83-88 | a name with a single case-insensitive occurrence becomes prefix ++ suffix, `len(to_strip)` shorter |
| `Text.Lower` | scripting/get_game_data.py:87 | `re.IGNORECASE` folding of one character: the result is never an upper-case ASCII letter; an upper-case letter maps to its lower-case partner, 32 code points up; every other character is unchanged |
| `Text.StripLeftmostOccurrence` | scripting/get_game_data.py:83-88 | when the leftmost case-insensitive match is the text `m` at the end of prefix `a`, the new name is `a` followed by the rest with every exact copy of `m` removed, even if there are several occurrences |
| `Text.RemoveSingleAtEnd` | scripting/get_game_data.py:86-88 | a text whose only occurrence ends the name is cut off, leaving the prefix |
| `Text.StripAgainExample` | scripting/get_game_data.py:86-88 | `ggameame` becomes `game`, and `game` becomes `""`: stripping a new name again can change it again |
| `Text.StripExamples` | scripting/get_game_data.py:86-88 | `GamegAME` becomes `gAME` (other-case copies survive), `GameGame` becomes `""` (all exact copies go), `g\|me` has no match |
| `Glob.Matches` | scripting/get_game_data.py:44 | a whole-name match: a pattern without `*` accepts only names of its own length, and a pattern that starts with a literal or bracket class needs a first character that token admits |
| `Glob.StarMatchesAll` | scripting/get_game_data.py:10 | a lone `*` accepts every name |
| `Glob.LeadingStar` | scripting/get_game_data.py:10 | a leading `*` accepts iff the rest of the pattern accepts some suffix of the name |
| `Glob.StarFreeExact` | scripting/get_game_data.py:11 | a pattern without `*` accepts exactly the names of its length whose characters it admits one by one |
| `Glob.StarFreeThenStar` | scripting/get_game_data.py:10 | a star-free pattern followed by `*` accepts exactly the names it fits at their start |
| `Glob.Contains` | scripting/get_game_data.py:10 | `*p*` with star-free `p` is a substring test: it accepts iff `p` fits at some position |
| `Glob.DirPatternAcceptance` | scripting/get_game_data.py:10 | `DIR_PATTERN` accepts a name iff it has four consecutive characters drawn from {g,\|,G}, {a,\|,A}, {m,\|,M}, {e,\|,E} in that order |
| `Glob.GoSuffixExact` | scripting/get_game_data.py:11 | the literal part of `*.go` accepts exactly ".go" |
| `Glob.FileExtensionAcceptance` | scripting/get_game_data.py:11 | `FILE_EXTENSION` accepts exactly the names ending in ".go" |
| `Paths.Name` | scripting/get_game_data.py:83 | `path.name` is "" for the root and otherwise one of the path's components |
| `Paths.Parent` | scripting/get_game_data.py:154 | `file.parent` of a non-root path drops exactly one component and is a prefix of the path; the root is its own parent |
| `Paths.ParentNameRoundTrip` | scripting/get_game_data.py:154-155 | a non-root path is its parent joined with its name |
| `Paths.Join` | scripting/get_game_data.py:123 | `joinpath` with a relative argument extends the directory; with an absolute argument the result is the argument alone |
| `Paths.Child` | scripting/get_game_data.py:44 | a listed entry's path has that entry's name and the listed directory as parent |
| `Paths.SlashIndex` | scripting/get_game_data.py:123 | the first '/' of the joined string, or its length when there is none |
| `Paths.Segments` | scripting/get_game_data.py:123 | `joinpath` produces no empty, "." or slash-containing components |
| `Paths.JoinName` | scripting/get_game_data.py:123 | joining a slash-free name appends it as one component, except that "" and "." leave the directory itself |
| `Harvest.FindAllGamePaths` | scripting/get_game_data.py:42-47 | the finder returns at most one path per entry, each a child of the source directory |
| `Harvest.GameIndices` | scripting/get_game_data.py:42-47 | the kept positions all lie within the listing |
| `Harvest.FinderSelects` | scripting/get_game_data.py:42-47 | the result has one path per kept position, the positions strictly increase (enumeration order), and a position is kept iff its entry is a directory whose name the glob accepts |
| `Harvest.GameIndicesSelect` | scripting/get_game_data.py:42-47 | the kept positions strictly increase, and a position is kept iff its entry is a directory the glob accepts |
| `Harvest.FinderAtIndices` | scripting/get_game_data.py:42-47 | the finder returns one path per kept position, the k-th being the child named by the k-th kept entry |
| `Harvest.FinderKeepsAllAccepted` | scripting/get_game_data.py:42-47 | when every entry is an accepted directory, all of them are returned, in listing order |
| `Harvest.FinderKeepsOnlyGameDirs` | scripting/get_game_data.py:44-46 | every returned path is a listed directory (never a file) whose name the glob accepts |
| `Harvest.CaseInsensitiveGameAccepted` | scripting/get_game_data.py:10 | every name containing "game" in any letter case is accepted by the finder's glob |
| `Harvest.BarFreeAgreement` | scripting/get_game_data.py:10 | for names without '\|' the glob accepts exactly the names the renaming step can strip "game" from |
| `Harvest.BarDirectoryFoundButUnnamed` | scripting/get_game_data.py:10 | a directory "g\|me" is found, and then has no case-insensitive "game" to strip |
| `Harvest.GetNamesFromPaths` | scripting/get_game_data.py:80-91 | it succeeds iff every path's name has a match; it then returns one new name per path, in order, each the stripped name; otherwise it fails on the first path without a match (the model's error records that name; the Python IndexError does not) |
| `Harvest.NewNameOfSingleOccurrence` | scripting/get_game_data.py:83-88 | a directory name with one occurrence of "game" (any case) loses exactly that occurrence and four characters |
| `Harvest.CreateNewDirs` | scripting/get_game_data.py:121-124 | exactly min(len(old_dirs), len(new_dirs)) copies, in order, copy k from `old_dirs[k]` to `new_dirpath / new_dirs[k]` |
| `Harvest.CopyDestination` | scripting/get_game_data.py:123 | a copy lands in `new_dirpath/name`, or in `new_dirpath` itself when the new name is "" or "." |
| `Harvest.MakeJsonMetadataFile` | scripting/get_game_data.py:136-137 | `number_of_games == len(game_names)`, `game_names` is the input list unchanged, and the file is `path/metadata.json` |
| `Build.MatchedFiles` | scripting/get_game_data.py:152 | every compiled path was enumerated and has a name `*.go` accepts |
| `Build.MatchedFilesOne` | scripting/get_game_data.py:152 | a single enumerated path is kept exactly when its name ends in ".go" |
| `Build.MatchedFilesAppend` | scripting/get_game_data.py:152 | the matches of two consecutive stretches of the enumeration are those of the first followed by those of the second, so every `*.go` path is kept once, in enumeration order |
| `Build.MatchedFilesExact` | scripting/get_game_data.py:152 | an enumerated path is compiled iff its name ends in ".go" |
| `Build.BuildOf` | scripting/get_game_data.py:153-157 | a file's build runs in the file's parent directory, with argv `COMPILE_COMMAND` followed by the file's name, and records the exit status for that directory and argv |
| `Build.BuildsInOrder` | scripting/get_game_data.py:152-157 | one invocation per matched path, in order, the k-th running `COMPILE_COMMAND + [name]` in that path's parent directory |
| `Build.BuildsIgnoreStatus` | scripting/get_game_data.py:157 | whatever the exit statuses, the same commands run in the same directories: failures do not stop the scan |
| `Build.ChdirTraceRestores` | scripting/get_game_data.py:153-158 | the `os.chdir` calls alternate between each file's parent and the directory the loop started in |
| `Build.Process.constructor` | scripting/get_game_data.py:12 | a fresh process has made no calls and `COMPILE_COMMAND == ["go", "build"]` |
| `Build.Process.Chdir` | scripting/get_game_data.py:154 | `os.chdir` sets the working directory and is logged; nothing else changes |
| `Build.Process.Run` | scripting/get_game_data.py:157 | `run` is logged with the current directory and its exit status and changes nothing else |
| `Build.Process.CompileCodeFiles` | scripting/get_game_data.py:144-158 | the invocations appended are exactly those of the matched paths in order, the chdir log is the save/enter/restore trace, the working directory ends where it began, and `COMPILE_COMMAND` is unchanged |
| `Pipeline.PlanHarvest` | scripting/get_game_data.py:169-179 | the run succeeds iff every found directory has a case-insensitive "game"; then there is one new name and one copy per found directory, and the manifest lists exactly the names the copies use, with their count, at `target/metadata.json`; otherwise the error names a found directory without a match |
| `Pipeline.HarvestAndBuild` | scripting/get_game_data.py:161-180 | as for the harvest plan, including an error that names a found directory without a match; on failure no build is run and no directory change happens; on success the builds of the target tree are appended; the working directory and `COMPILE_COMMAND` are unchanged in both cases |
| `Pipeline.ManifestCountsCopies` | scripting/get_game_data.py:176-179 | the manifest's count equals the number of copies and of found directories, and copy k targets manifest name k |
| `Pipeline.BarFreeListingHarvests` | scripting/get_game_data.py:172-173 | if no listed name contains '\|', renaming never fails |
| `Pipeline.BarDirectoryFailsRun` | scripting/get_game_data.py:172-173 | a source directory holding a directory "g\|me" makes the run fail |
| `Pipeline.ExampleFinder` | scripting/get_game_data.py:172 | the directories GameOne, MyGameTwo and GAME3 are found, in that order, and the file notagame is not |
| `Pipeline.ExampleRenames` | scripting/get_game_data.py:173 | they are renamed One, MyTwo and 3 |
| `Pipeline.ExampleFinderNotagameDirectory` | scripting/get_game_data.py:172 | with notagame a directory, GameOne, MyGameTwo, notagame and GAME3 are all found, in that order |
| `Pipeline.RenameNotagame` | scripting/get_game_data.py:173 | the directory notagame is renamed nota |

## Left out

- `get_absolute_path` (`Path.resolve`): canonicalisation and symlink resolution depend on the host. The source and target paths are inputs, already absolute.
- `setup_target_dir`: `mkdir(exist_ok=True)` is a file-system effect and is not modelled. Without `parents=True` it raises when a parent is missing. It runs between renaming and copying, so a rename failure happens before it.
- `copy_and_overwrite` (`shutil.copytree(..., dirs_exist_ok=True)`): the merge copy itself is not modelled. The model produces the ordered list of copy requests, and the target tree the build step sees is an input.
- Directory enumeration: `Path.glob`, `Path.rglob` and `is_dir` are inputs (the listing, its `isDir` flags and the target tree). Their order is whatever the host gives.
- Glob semantics on non-POSIX hosts: `pathlib` matching on Windows is case-insensitive, and that is not modelled.
- Pattern text: the fnmatch parsing of the pattern strings is not modelled. `DIR_PATTERN` and `FILE_EXTENSION` are written as token sequences (star, bracket class, literal), so ranges and negated classes are not covered.
- Regular-expression syntax in `to_strip`: `to_strip` is treated as a literal text. This is exact for the `"game"` that `main` passes.
- Case folding: only ASCII letters are folded. For "game" this matches Python's `re.IGNORECASE`. Non-ASCII case-insensitive equivalences of other patterns are not modelled.
- `joinpath` with an argument starting with exactly two slashes: pathlib keeps a `//` root, and the model does not. Directory-derived names never contain '/'.
- Failures of the file-system steps: in the source an exception stops `main` at that point. `resolve` is strict, so a missing source directory raises `FileNotFoundError` before the finder runs. `mkdir`, `copytree` or opening `metadata.json` can raise before `compile_code_files`. Inside the build loop, `os.chdir(file.parent)` can raise and end the loop. These failures are not modelled. `Pipeline.HarvestAndBuild` runs the build step whenever renaming succeeds, and `Build.Process.Chdir` always succeeds, as if those steps had succeeded.
- `json.dump`: the byte encoding of `metadata.json` is not modelled. The model keeps the record and where it is written.
- `subprocess.run`: the pipes, the process output and the launch itself are not modelled. The run is a function from (working directory, argv) to exit status. It never raises here. In the source a raising `run` would skip the `os.chdir` back, because there is no `try`/`finally`.
- `gc.collect()`: it has no observable effect on the modelled state.
- Command-line handling (`sys.argv` length check, tuple unpacking of `args`): only an arity check.
- The clipboard utility (`clipboard/multiclipboard.py`, `clipboard/main.py`): it is not part of this model. It is file and clipboard I/O with interactive prompts.
