# modbuild, per-target build logic, in Dafny

`modbuild` builds a Rust mod crate as a dynamic library for several operating
systems and architectures. It then publishes each library under a name that
carries the target. This project models two parts of it:

- **Per-target pipeline** (`src/build.rs`), modelled in module `Build`:
  - the catalog of five targets, and the comma-separated filter that selects
    among them;
  - the checks that skip a target before anything runs;
  - the choice between `cargo build` and `cargo zigbuild`, and the command line;
  - the collection of candidate artifacts from cargo's JSON messages;
  - the order in which the build's errors are reported;
  - the two-tier choice among the candidates (`choose_best`);
  - the suffixed name the library is copied to (`add_suffix`).
- **Crate checks** (`src/crate_info.rs`), modelled in module `CrateInfo`:
  - the crate's package name, taken from the parsed `cargo metadata`;
  - the check that the crate builds a `cdylib`, taken from the parsed
    `cargo read-manifest`.

Module `Driver` models the loop of the `build` command in `src/main.rs`. The
Rust library behaviour the code relies on is modelled in `Text` and `Paths`:

- `str::trim`, `str::split`, `str::ends_with`, `str::contains` and
  `str::rsplit_once`;
- `Path::file_name`, `Path::extension` and `PathBuf::join`.

Everything the tool asks of the outside world arrives as a value:

- the host probes, in `Build.Host`;
- the cargo process, in `Build.CargoRun`:
  - a spawn error;
  - the lines of standard output, each either a read error or a parsed message;
  - the wait result and exit status;
- the file system, in `Build.FsEffects`;
- the parsed cargo metadata and manifest, in `CrateInfo.MetadataRun` and
  `CrateInfo.ManifestRun`.

The pipeline itself has two forms:

- `Build.BuildReport`, a function from those inputs to what happens;
- `Build.BuildForTarget`, a method that runs the source's loops over cargo's
  output and is proved equal to that function.

`choose_best`, a search loop with an early return, is the method
`Build.ChooseBest`. It is proved equal to the function `Build.Best`.

Two behaviours of the code are worth noting:

- `select_targets` returns targets in the order the filter names them and keeps
  duplicates. It does not use catalog order.
- A skipped target is reported as an `Err` string starting with `Skipping `.
  There is no separate "skipped" outcome. `Build.MessageSkipIff` states the
  distinction the strings carry.

## Model

| member | source | states |
|---|---|---|
| Build.AllTargets | src/build.rs:19-52 | `all_targets`: the fixed table of five targets, each with its name, triple, library extension and whether it needs the macOS toolchain. `Build.Catalog` states its properties. |
| Build.Catalog | src/build.rs:19-52 | The catalog's names, in order, are linux, windows-gnu, windows-msvc, mac-intel, mac-arm64. The names are distinct. Each extension is non-empty and has no `.` or `/`. A target needs macOS exactly when its extension is `dylib`. |
| Build.Lookup | src/build.rs:59 | The found entry belongs to the catalog and has exactly the given name. Nothing is found exactly when no entry has that name. |
| Build.KnownNameIsPlain | src/build.rs:59 | A name the catalog knows is not empty, neither starts nor ends with white space, is its own trim, and holds no comma. |
| Build.SelectTargets | src/build.rs:55-65 | With no filter the result is the whole catalog. With a filter, the result has at most one target per comma-separated piece, every target belongs to the catalog, and every target is named by some piece once that piece is trimmed. |
| Build.Pick | src/build.rs:59 | One piece of the filter, trimmed, then looked up by exact name in the catalog. Its properties are stated by `Build.PickNamed` and `Build.SelectSpacedPair`. |
| Build.PickNamed | src/build.rs:59 | A catalog target's own name picks that target. |
| Build.Resolve | src/build.rs:58-61 | The `filter_map` over the pieces: each piece's pick, in the pieces' order. Its properties are stated by the `Resolve…` lemmas below. |
| Build.ResolveInCatalog | src/build.rs:58-61 | Each piece contributes at most one target, and only catalog targets. |
| Build.ResolveAppend | src/build.rs:58-61 | Resolving concatenated pieces resolves each part in turn, so the result follows the filter's order. |
| Build.UnknownPieceDropped | src/build.rs:59 | A piece that names no target once trimmed is dropped without error and changes nothing else. |
| Build.ResolveNames | src/build.rs:58-61 | Pieces that each name a target once trimmed resolve to exactly those targets, one each, in the pieces' order. |
| Build.SelectByNames | src/build.rs:57-61 | A filter whose comma-separated pieces each name a target once trimmed selects exactly those targets, one per piece, in the filter's order. |
| Build.SelectSpacedPair | src/build.rs:57-61 | Two target names separated by a comma and a space select those two targets, in that order: the piece after the space is trimmed before it is looked up. |
| Build.SelectSpacedList | src/build.rs:57-61 | The filter `linux, mac-intel`, written with a space after the comma, selects linux and then mac-intel. |
| Build.SelectKeepsDuplicates | src/build.rs:57-61 | Naming a catalog target twice selects it twice. |
| Build.NameIsKey | src/build.rs:19-52 | Two catalog entries with the same name are the same entry. |
| Build.SkipReason | src/build.rs:73-80 | A target is skipped exactly when it needs macOS and no mac compiler is available, or the host is macOS and the triple is the MSVC one. The mac-compiler check wins and gives `MacCompilerMissing` with the target's name. Otherwise the MSVC case gives `MsvcFromMacOS`. A skip reason is always a skip. |
| Build.UseZig | src/build.rs:85-91 | zigbuild is chosen only when it is available. For a macOS target it is chosen exactly when zigbuild and the mac compiler are both available. |
| Build.ZigWhenNotSkipped | src/build.rs:73-91 | For a target that is not skipped, zigbuild is chosen exactly when it is available and the target either needs macOS or is not the host's triple. |
| Build.CargoArgs | src/build.rs:96-102 | The command line has five arguments. The first is the subcommand. It contains `--release` and `--message-format=json`, and `--target` followed by the triple. The subcommand is `zigbuild` or `build` by `Build.Subcommand`. |
| Build.IsCdylibArtifact | src/build.rs:115-117 | A message is a `compiler-artifact` whose kind array holds `cdylib`. A missing or non-array kind counts as no `cdylib`. |
| Build.EventFiles | src/build.rs:115-127 | The candidates one message contributes, in the order of its `filenames`. `Build.EventFilesExact` states which they are. |
| Build.WithSuffixExact | src/build.rs:119-127 | `Build.WithSuffix`, the filter over one message's `filenames`, keeps a string exactly when it is in the list and ends with the suffix. |
| Build.WithSuffixSingle | src/build.rs:120-124 | One listed value is kept exactly when it is a string ending with the suffix. |
| Build.WithSuffixAppend | src/build.rs:120-124 | The strings kept from a concatenated list are those kept from each part, in order. |
| Build.WithSuffixAllKept | src/build.rs:120-124 | When every listed value is a string with the suffix, all are kept, in the listed order and with repeats. |
| Build.EventFilesExact | src/build.rs:115-127 | A message contributes a file exactly when three things hold: the message is a `compiler-artifact` whose kinds include `cdylib`, its `filenames` list the file, and the file ends with `.ext`. |
| Build.EventFilesAppend | src/build.rs:119-127 | A `cdylib` artifact's candidates from a concatenated `filenames` list are those of each part, in order. |
| Build.EventFilesInOrder | src/build.rs:119-127 | When every file a `cdylib` artifact lists ends with `.ext`, the message contributes all of them, in the listed order and with repeats. |
| Build.Step | src/build.rs:111-127 | One line's effect on what has been gathered. A read error ends the collection with its message. A blank or unparseable line changes nothing. A message appends the files it contributes. |
| Build.Collected | src/build.rs:109-129 | The candidates of the whole output in stream order, or the first read error. Its properties are stated by the `Collected…` lemmas below. |
| Build.CollectedOkIff | src/build.rs:111-112 | Reading cargo's output succeeds exactly when no line fails to read. |
| Build.CollectedFirstError | src/build.rs:112 | The first line that fails to read decides the error. |
| Build.CollectedFromArtifacts | src/build.rs:111-129 | Every candidate ends with `.ext` and was listed by a `cdylib` artifact message of the stream. |
| Build.CollectedAppend | src/build.rs:109-129 | The candidates of two stretches of output are those of the first followed by those of the second, so stream order is kept. |
| Build.QuietLineIgnored | src/build.rs:113-118 | A blank or unparseable line, or a message that is not a `cdylib` artifact, can be removed without changing the result. |
| Build.ArtifactFiles | src/build.rs:119-127 | The loop over one message's `filenames` gathers exactly that message's candidates. |
| Build.CollectOutput | src/build.rs:109-129 | The loop over cargo's output lines gives exactly the collected candidates, or the first read error. |
| Build.FindWithExt | src/build.rs:166-168 | The fallback result is one of the files and has the exact extension. It is `None` exactly when no file has that extension. |
| Build.Best | src/build.rs:158-169 | The result is one of the files and has the target's exact extension. It is `None` exactly when no file has that extension. Its helpers `Build.HasExt`, `Build.InTargetDir` and `Build.Preferred` are the tests of build.rs:160-161. |
| Build.BestIsFirstPreferred | src/build.rs:159-165 | If some file has the extension and lies under `/target/<triple>/`, the first such file is chosen. |
| Build.BestPrefersTargetDir | src/build.rs:159-165 | Whenever a first-tier file exists, the choice is of the first tier. |
| Build.BestFallsBack | src/build.rs:166-168 | If there is no first-tier file, the choice is the fallback search. |
| Build.FindWithExtIsFirst | src/build.rs:166-168 | The fallback is the first file with the exact extension. |
| Build.DotNameHasNoExtension | src/build.rs:141-143 | A candidate named just `.ext` ends with `.ext` but has no extension, so a non-empty candidate list can still yield no choice. |
| Build.ChooseBest | src/build.rs:158-169 | The loop with an early return, then the search, computes `Best`. The loop is `Seqs.FindFirst` (build.rs:159-165), a `while` loop proved to return the first index whose element satisfies the test. |
| Build.SuffixPoint | src/build.rs:172 | The split point is the last dot, or the end of a name without a dot. |
| Build.AddSuffix | src/build.rs:171-177 | The result is as long as the name plus the suffix. It is the name up to its last dot, then the suffix, then the rest. |
| Build.AddSuffixRemovable | src/build.rs:171-177 | Deleting the suffix from the result gives back the original name. |
| Build.AddSuffixNoDot | src/build.rs:174-176 | A name without a dot gets the suffix at its end. |
| Build.AddSuffixExample | src/build.rs:171-177 | `libfoo.so` with `-linux` becomes `libfoo-linux.so`. |
| Build.AddSuffixInjective | src/build.rs:171-177 | Different suffixes give different names. |
| Build.AddSuffixKeepsExtension | src/build.rs:171-177 | A suffix without `.` or `/` keeps the extension of a name that has one. |
| Build.OutputFileName | src/build.rs:147-148 | The chosen file's final component with `-<target name>` put in before its extension. `Build.PublishedKeepsExtension` and `Build.DistinctTargetsDistinctNames` state its properties. |
| Build.Destination | src/build.rs:149 | The output directory joined with the published name. |
| Build.PublishedKeepsExtension | src/build.rs:147-149 | The published path's file name is the suffixed name, and it keeps the target's extension. |
| Build.DistinctTargetsDistinctNames | src/build.rs:147-148 | Two different targets never publish the same artifact under the same name. |
| Build.Message | src/build.rs:74-152 | The text of each error is the source's message: the two skips, the spawn, read and wait failures, the failed build, the missing artifact with the release directory, the unsuitable candidates, and the directory and copy failures. |
| Build.MessageSkipIff | src/build.rs:74-79 | An error message starts with `Skipping ` exactly when it reports a skipped target. |
| Build.ReleaseDir | src/build.rs:137 | The mod path joined with `target/<triple>/release`: the directory the missing-artifact error names. |
| Build.BuildReport | src/build.rs:68-156 | The whole of `build_for_target` for one target: the skip checks, then the start of cargo, the reading of its output, the exit status, the candidates, the choice and the copy, each error returned at its step. It is written in the phases `Build.Started` (spawn and read, build.rs:106-129), `Build.Finish` (exit, candidates and choice, build.rs:131-143) and `Build.Publish` (directory and copy, build.rs:147-152). The lemmas below state its properties. |
| Build.SkipRunsNothing | src/build.rs:73-80 | A start of cargo is attempted exactly when the target is not skipped. A skipped target copies nothing, and its result is `Err` of exactly its `SkipReason`. |
| Build.CommandShape | src/build.rs:93-102 | A target that is not skipped runs cargo with the chosen subcommand, `--release`, `--target`, the triple and `--message-format=json`. |
| Build.FailedBuildCopiesNothing | src/build.rs:131-134 | After output that reads cleanly, a failed exit status reports `Build failed` for the target and copies nothing. |
| Build.NoCandidatesIsNotFound | src/build.rs:136-139 | A successful build with no candidates is an error naming `<mod>/target/<triple>/release` and copies nothing. |
| Build.SpawnFailureReported | src/build.rs:106 | For a target that is not skipped, a cargo that cannot be started fails with `SpawnFailed` carrying the spawn error, and nothing is copied. |
| Build.ReadFailureReported | src/build.rs:111-112 | The first line that fails to read fails the target with `ReadFailed` carrying that line's error, whatever the exit status, and nothing is copied. |
| Build.WaitFailureReported | src/build.rs:131 | After output that reads cleanly, a failure to wait for cargo fails the target with `WaitFailed` carrying that error, and nothing is copied. |
| Build.NoSuitableCandidate | src/build.rs:141-143 | After a successful exit with candidates none of which has the exact extension, the target fails with `NoSuitable` naming the extension and the candidates, and nothing is copied. |
| Build.DotNameIsNotSuitable | src/build.rs:141-143 | A build whose only candidate is a bare `.ext` name fails with `NoSuitable`, not with success or a missing artifact. |
| Build.CreateDirFailureReported | src/build.rs:151 | With a choice made, a failure to create the output directory fails the target with `CreateDirFailed`, and nothing is copied. |
| Build.CopyFailureReported | src/build.rs:152 | With the directory created, a failed copy is still an attempted copy of the choice to its destination, and the target fails with `CopyFailed` carrying the error. |
| Build.FinishCopiesTheChoice | src/build.rs:131-152 | A copy happens only after a successful exit and a choice among the candidates, and it copies that choice. |
| Build.CopyOnlyOfTheChoice | src/build.rs:106-152 | A copy happens only for a target that is not skipped, whose cargo started, read cleanly and exited successfully. The copied file is `Best`'s choice. The destination has the suffixed name and keeps the target's extension. |
| Build.SuccessIff | src/build.rs:68-156 | A target succeeds exactly when every one of these holds: it is not skipped, cargo starts, every line reads, cargo exits successfully, a candidate is chosen, and the directory and the copy succeed. |
| Build.SuccessPublishes | src/build.rs:141-155 | A target that succeeds has read cargo's output, made a choice among the candidates, and copied exactly that choice to its destination in the output directory. |
| Build.BuildForTarget | src/build.rs:68-156 | The method computes `BuildReport`: the same command, the same copy and the same result in the source's order of checks. |
| CrateInfo.ChoosePackage | src/crate_info.rs:31-40 | There is no package exactly when the list is empty. Otherwise the package comes from the list. The manifest test is `CrateInfo.IsOwnManifest` (crate_info.rs:33-38). |
| CrateInfo.ChoosesOwnManifest | src/crate_info.rs:31-38 | The first package whose `manifest_path` is the crate's manifest is chosen, even when other packages come before it. |
| CrateInfo.ChoosesFirstOtherwise | src/crate_info.rs:39 | When no package has the crate's manifest, the first package is chosen. |
| CrateInfo.GetCrateName | src/crate_info.rs:6-44 | A spawn failure gives `Failed to run cargo metadata: …`. A failed status gives `cargo metadata failed:` followed by the stderr text. |
| CrateInfo.NoPackagesErrors | src/crate_info.rs:30-40 | A missing or non-array `packages` gives `No packages`. An empty array gives `No package found`. |
| CrateInfo.CrateNameIff | src/crate_info.rs:6-44 | The name is found exactly when every step succeeds and the chosen package's `name` is a string. The name found is then that chosen package's name, and the package is one of the listed ones. |
| CrateInfo.OwnPackageNamesTheCrate | src/crate_info.rs:30-43 | The crate's own package gives the name. |
| CrateInfo.FirstPackageNamesTheCrate | src/crate_info.rs:30-43 | When no package has the crate's manifest, the first package's name is the crate's name. |
| CrateInfo.HasCdylib | src/crate_info.rs:58-63 | Some target's `kind` is an array holding the string `cdylib`. A non-array kind counts as no `cdylib`. |
| CrateInfo.AnyCdylib | src/crate_info.rs:58-63 | The `any` over the targets holds exactly when some target's `kind` is an array holding `cdylib`. |
| CrateInfo.EnsureCdylib | src/crate_info.rs:47-68 | The check passes exactly when cargo starts, succeeds and parses, the manifest has a `targets` array, and some target is a `cdylib`. The spawn and status errors carry the source's messages. |
| CrateInfo.NonArrayKindsFail | src/crate_info.rs:58-66 | Targets whose `kind` is not an array count as no `cdylib`, so the check fails with the `crate-type` hint. |
| Driver.BuildEach | src/main.rs:57-61 | Every selected target is built, in order, whatever became of the ones before it. The report for each is `BuildReport` of that target. |
| Driver.BuildAll | src/main.rs:50-61 | The command stops with `Invalid mod at <path>: <error>` exactly when the `cdylib` check fails. Otherwise every selected target is built in order, a failure of one not stopping the others, and report `i` is `BuildReport` of the `i`-th selected target. The stopping error is `Driver.InvalidMod` (main.rs:53). |
| Text.Trim | src/build.rs:59 | The result is a slice of the input with only Unicode white space around it, and it neither starts nor ends with white space. |
| Text.Split | src/build.rs:58 | There is always at least one piece, no piece holds the separator, and joining the pieces gives back the input. |
| Text.TrimSurrounded | src/build.rs:59 | Trimming removes exactly the white space around a text that neither starts nor ends with any. |
| Text.SplitJoin | src/build.rs:58 | Splitting pieces joined with a separator they do not contain gives back the pieces. |
| Text.LastIndexOf | src/build.rs:172 | The position holds the character and no later position does. There is none exactly when the character does not occur. |
| Paths.FileName | src/build.rs:147 | The final component holds no `/`, ends the path, and is preceded by a `/` when it is not the whole path. |
| Paths.Extension | src/build.rs:160 | The extension of the path's final component. `Paths.ExtensionIff` states when it is a given text. |
| Paths.ExtensionIff | src/build.rs:160 | A path has extension `ext` exactly when its file name ends with `.ext`, is longer than that, and is not `..`. |
| Paths.JoinPath | src/build.rs:137 | The joined path is the directory and the relative path. No `/` is put between them exactly when the directory is empty or already ends with one; otherwise exactly one is. The result ends with the relative path. |
| Paths.FileNameOfJoin | src/build.rs:147-149 | The file name of a directory joined with a name is that name. |

## Left out

- Process plumbing. Building `Command`s, spawning, piping, inheriting stderr,
  the buffered line reader and `wait` are not modelled. Their outcomes are
  inputs: a spawn error, one read result per line, and a wait result with the
  exit status.
- JSON parsing with `serde_json`. Each output line arrives already parsed or as
  `None`, and so do the metadata and the manifest. Decoding errors arrive with
  the library's own message.
- File system effects. `fs::create_dir_all` and `fs::copy` are modelled by
  their failure messages as inputs, and the copy by its source and destination.
  Canonicalizing the mod path and the manifest path happens before the model.
  The manifest path arrives as a string.
- Host probes:
  - `has_mac_compiler` (it reads `CC`, then runs `which zig`), `has_zigbuild` and
    `is_host_triple` are booleans, and a predicate on triples, in `Build.Host`.
  - The bodies of `has_zigbuild` and `is_host_triple` are not modelled; only
    their results are inputs.
  - `cfg(target_os = "macos")` is the `onMacOS` flag.
  - Each probe is read once per run, not once per call.
- Console output. The progress lines (`Building for`, `Built`, `Copied to`) are
  not modelled. The per-target errors the `build` command prints are the
  `Build.Message` of each report.
- Build.Message: a list of paths in Rust's `Debug` format is written with plain quotes. Rust's
  escaping of quotes, backslashes and control characters inside the paths is
  not modelled.
- Paths.FileName: a path that ends in `/` or in a `.` or `..` component does
  not get Rust's `Path::file_name` normalisation. Cargo reports artifact
  paths as plain file paths.
- Strings are sequences of characters. The lossy UTF-8 conversions
  (`to_string_lossy`, `from_utf8_lossy`) are not modelled. Invalid UTF-8 from
  `cargo metadata` arrives as a decoding error.
- The `list-targets` command and command-line parsing in `src/main.rs` are not
  modelled.
- Driver.BuildAll: takes the effects of each target's build as a sequence as
  long as the selected targets.
