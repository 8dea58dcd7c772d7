/**
 * What `modbuild` learns about the crate it builds, once cargo has answered and
 * its JSON has been parsed: the crate's package name, from `cargo metadata`, and
 * whether the crate builds a dynamic library, from `cargo read-manifest`.
 */
module CrateInfo {
  import opened Wrappers
  import opened Seqs
  import opened Json

  // ---------------------------------------------------------------------------
  // Crate name
  // ---------------------------------------------------------------------------

  /**
   * One entry of the metadata's `packages` array; a field is `None` when it is
   * missing or not a string.
   */
  datatype Package = Package(manifestPath: Option<string>, name: Option<string>)

  /** The parsed metadata; `packages` is `None` when it is missing or not an array. */
  datatype Metadata = Metadata(packages: Option<seq<Package>>)

  /** Why cargo's output could not be read as metadata, with the library's own message. */
  datatype DecodeError = InvalidUtf8(message: string) | InvalidJson(message: string)

  /**
   * What running `cargo metadata --format-version 1 --no-deps` turns out to do:
   * whether it could not be started, whether it exited successfully, its standard
   * error as text, and what decoding and parsing its standard output gives.
   */
  datatype MetadataRun = MetadataRun(spawnError: Option<string>, success: bool, stderr: string,
                                     decoded: Result<Metadata, DecodeError>)

  /** The package whose manifest is the crate's own. */
  predicate IsOwnManifest(p: Package, manifest: string) {
    p.manifestPath == Some(manifest)
  }

  /** The package that names the crate: the first whose manifest is `manifest`, else the first one. */
  function ChoosePackage(packages: seq<Package>, manifest: string): (r: Option<Package>)
    ensures r.None? <==> packages == []
    ensures r.Some? ==> r.value in packages
  {
    match FirstIndex(packages, p => IsOwnManifest(p, manifest))
    case Some(i) => Some(packages[i])
    case None => if packages == [] then None else Some(packages[0])
  }

  /** When some package has the crate's manifest, the first such package is chosen. */
  lemma ChoosesOwnManifest(packages: seq<Package>, manifest: string, k: nat)
    requires k < |packages| && IsOwnManifest(packages[k], manifest)
    requires forall j :: 0 <= j < k ==> !IsOwnManifest(packages[j], manifest)
    ensures ChoosePackage(packages, manifest) == Some(packages[k])
  {
  }

  /** When no package has the crate's manifest, the first package is chosen. */
  lemma ChoosesFirstOtherwise(packages: seq<Package>, manifest: string)
    requires packages != []
    requires forall j :: 0 <= j < |packages| ==> !IsOwnManifest(packages[j], manifest)
    ensures ChoosePackage(packages, manifest) == Some(packages[0])
  {
  }

  /**
   * `get_crate_name`: the error of each step in order, then the chosen package's
   * name. `manifest` is the crate's `Cargo.toml` path as the tool writes it.
   */
  function GetCrateName(run: MetadataRun, manifest: string): (r: Result<string, string>)
    ensures run.spawnError.Some? ==> r == Err("Failed to run cargo metadata: " + run.spawnError.value)
    ensures run.spawnError.None? && !run.success ==> r == Err("cargo metadata failed:\n" + run.stderr)
  {
    if run.spawnError.Some? then Err("Failed to run cargo metadata: " + run.spawnError.value)
    else if !run.success then Err("cargo metadata failed:\n" + run.stderr)
    else match run.decoded
      case Err(InvalidUtf8(e)) => Err("Invalid UTF-8 from cargo metadata: " + e)
      case Err(InvalidJson(e)) => Err("Failed to parse cargo metadata JSON: " + e)
      case Ok(metadata) =>
        match metadata.packages
        case None => Err("No packages")
        case Some(packages) =>
          match ChoosePackage(packages, manifest)
          case None => Err("No package found")
          case Some(pkg) =>
            match pkg.name
            case None => Err("Failed to get package name")
            case Some(name) => Ok(name)
  }

  /** After a successful run and parse, the missing array and the empty array are told apart. */
  lemma NoPackagesErrors(run: MetadataRun, manifest: string)
    requires run.spawnError.None? && run.success && run.decoded.Ok?
    ensures run.decoded.value.packages.None? ==> GetCrateName(run, manifest) == Err("No packages")
    ensures run.decoded.value.packages == Some([]) ==> GetCrateName(run, manifest) == Err("No package found")
  {
  }

  /**
   * The name is found exactly when every step succeeds and the chosen package has
   * a string `name`, and it is that package's name.
   */
  lemma CrateNameIff(run: MetadataRun, manifest: string)
    ensures GetCrateName(run, manifest).Ok? <==>
      && run.spawnError.None? && run.success && run.decoded.Ok?
      && run.decoded.value.packages.Some?
      && ChoosePackage(run.decoded.value.packages.value, manifest).Some?
      && ChoosePackage(run.decoded.value.packages.value, manifest).value.name.Some?
    ensures GetCrateName(run, manifest).Ok? ==>
      && Some(GetCrateName(run, manifest).value) == ChoosePackage(run.decoded.value.packages.value, manifest).value.name
      && ChoosePackage(run.decoded.value.packages.value, manifest).value in run.decoded.value.packages.value
  {
  }

  /** The crate's own package gives the name even when other packages come before it. */
  lemma OwnPackageNamesTheCrate(run: MetadataRun, manifest: string, k: nat, name: string)
    requires run.spawnError.None? && run.success && run.decoded.Ok?
    requires run.decoded.value.packages.Some?
    requires var ps := run.decoded.value.packages.value;
      && k < |ps| && ps[k] == Package(Some(manifest), Some(name))
      && forall j :: 0 <= j < k ==> !IsOwnManifest(ps[j], manifest)
    ensures GetCrateName(run, manifest) == Ok(name)
  {
    ChoosesOwnManifest(run.decoded.value.packages.value, manifest, k);
  }

  /** With no package for the crate's own manifest, the first package gives the name. */
  lemma FirstPackageNamesTheCrate(run: MetadataRun, manifest: string, name: string)
    requires run.spawnError.None? && run.success && run.decoded.Ok?
    requires run.decoded.value.packages.Some?
    requires var ps := run.decoded.value.packages.value;
      && ps != [] && ps[0].name == Some(name)
      && forall j :: 0 <= j < |ps| ==> !IsOwnManifest(ps[j], manifest)
    ensures GetCrateName(run, manifest) == Ok(name)
  {
    ChoosesFirstOtherwise(run.decoded.value.packages.value, manifest);
  }

  // ---------------------------------------------------------------------------
  // The cdylib check
  // ---------------------------------------------------------------------------

  /** One entry of the manifest's `targets` array, with its `kind` array. */
  datatype CrateTarget = CrateTarget(kind: StringArray)

  /** The parsed manifest; `targets` is `None` when it is missing or not an array. */
  datatype Manifest = Manifest(targets: Option<seq<CrateTarget>>)

  /**
   * What running `cargo read-manifest` turns out to do: whether it could not be
   * started, whether it exited successfully, and what parsing its output gives
   * (the parser's message on failure).
   */
  datatype ManifestRun = ManifestRun(spawnError: Option<string>, success: bool, parsed: Result<Manifest, string>)

  /** Some target's kind is an array holding the string `cdylib`. */
  predicate HasCdylib(targets: seq<CrateTarget>) {
    exists i :: 0 <= i < |targets| && ArrayHasString(targets[i].kind, "cdylib")
  }

  /** The `any` over the targets, front to back. */
  function AnyCdylib(targets: seq<CrateTarget>): (b: bool)
    ensures b <==> HasCdylib(targets)
  {
    if targets == [] then false
    else ArrayHasString(targets[0].kind, "cdylib") || AnyCdylib(targets[1..])
  }

  const CdylibRequired: string := "Your Cargo.toml must include:\n\n[lib]\ncrate-type = [\"cdylib\"]\n"

  /** `ensure_cdylib`: the error of each step in order, then whether some target is a `cdylib`. */
  function EnsureCdylib(run: ManifestRun): (r: Result<(), string>)
    ensures r.Ok? <==>
      run.spawnError.None? && run.success && run.parsed.Ok?
      && run.parsed.value.targets.Some? && HasCdylib(run.parsed.value.targets.value)
    ensures run.spawnError.Some? ==> r == Err("Failed to run cargo read-manifest: " + run.spawnError.value)
    ensures run.spawnError.None? && !run.success ==> r == Err("cargo read-manifest failed")
  {
    if run.spawnError.Some? then Err("Failed to run cargo read-manifest: " + run.spawnError.value)
    else if !run.success then Err("cargo read-manifest failed")
    else match run.parsed
      case Err(e) => Err(e)
      case Ok(manifest) =>
        match manifest.targets
        case None => Err("No targets in manifest")
        case Some(targets) => if !AnyCdylib(targets) then Err(CdylibRequired) else Ok(())
  }

  /** A target whose kind is not an array counts as no `cdylib`: such targets alone fail the check. */
  lemma NonArrayKindsFail(run: ManifestRun)
    requires run.spawnError.None? && run.success && run.parsed.Ok?
    requires run.parsed.value.targets.Some?
    requires forall t :: t in run.parsed.value.targets.value ==> t.kind.None?
    ensures EnsureCdylib(run) == Err(CdylibRequired)
  {
    var ts := run.parsed.value.targets.value;
    assert forall i :: 0 <= i < |ts| ==> ts[i] in ts;
  }
}
