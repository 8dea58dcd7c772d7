/**
 * The `build` command of `modbuild`: select the targets, refuse a crate that does
 * not build a dynamic library, then build every selected target in turn, a failure
 * of one target not stopping the others.
 */
module Driver {
  import opened Wrappers
  import opened Build
  import opened CrateInfo

  /** What the outside world does while one target is built. */
  datatype TargetEffects = TargetEffects(run: CargoRun, fs: FsEffects)

  /** The error the command stops with when the crate is not a `cdylib`. */
  function InvalidMod(path: string, e: string): string {
    "Invalid mod at " + path + ": " + e
  }

  /**
   * The `build` command for the crate at `path`: either the error it stops with,
   * or one report per selected target, in the order selected. `effects[i]` is what
   * the outside world does while the `i`-th selected target is built.
   */
  method BuildAll(path: string, out: string, filter: Option<string>, host: Host, manifest: ManifestRun,
                  effects: seq<TargetEffects>)
    returns (r: Result<seq<TargetReport>, string>)
    requires |effects| == |SelectTargets(filter)|
    ensures EnsureCdylib(manifest).Err? <==> r.Err?
    ensures r.Err? ==> r.error == InvalidMod(path, EnsureCdylib(manifest).error)
    ensures r.Ok? ==> |r.value| == |SelectTargets(filter)|
    ensures r.Ok? ==> forall i :: 0 <= i < |r.value| ==>
      r.value[i] == BuildReport(out, SelectTargets(filter)[i], path, host, effects[i].run, effects[i].fs)
  {
    var targets := SelectTargets(filter);
    var check := EnsureCdylib(manifest);
    if check.Err? {
      return Err(InvalidMod(path, check.error));
    }
    var reports := BuildEach(path, out, targets, host, effects);
    r := Ok(reports);
  }

  /** The loop over the selected targets: each is built whatever became of the ones before it. */
  method BuildEach(path: string, out: string, targets: seq<BuildTarget>, host: Host, effects: seq<TargetEffects>)
    returns (reports: seq<TargetReport>)
    requires |effects| == |targets|
    ensures |reports| == |targets|
    ensures forall i :: 0 <= i < |targets| ==>
      reports[i] == BuildReport(out, targets[i], path, host, effects[i].run, effects[i].fs)
  {
    reports := [];
    var i := 0;
    while i < |targets|
      invariant i <= |targets| && |reports| == i
      invariant forall j :: 0 <= j < i ==>
        reports[j] == BuildReport(out, targets[j], path, host, effects[j].run, effects[j].fs)
    {
      var report := BuildForTarget(out, targets[i], path, host, effects[i].run, effects[i].fs);
      reports := reports + [report];
      i := i + 1;
    }
  }
}
