/**
 * The per-target build pipeline of `modbuild`: the target catalog and its filter,
 * the skip checks and the choice of cargo subcommand, the collection of candidate
 * artifacts from cargo's JSON messages, the choice among them, and the name the
 * artifact is published under. Everything the tool asks of the outside world
 * (environment probes, the cargo process, the file system) arrives as a value.
 */
module Build {
  import opened Wrappers
  import opened Seqs
  import opened Json
  import opened Text
  import opened Paths

  // ---------------------------------------------------------------------------
  // Target catalog
  // ---------------------------------------------------------------------------

  /** An OS and architecture the tool builds for, with the extension of its dynamic libraries. */
  datatype BuildTarget = BuildTarget(name: string, triple: string, ext: string, needsMac: bool)

  const MsvcTriple: string := "x86_64-pc-windows-msvc"

  /** A character of a target name as the catalog writes them. */
  predicate NameChar(c: char) {
    ('a' <= c <= 'z') || ('0' <= c <= '9') || c == '-'
  }

  /** A target name as the catalog writes them: lower-case letters, digits and `-`. */
  predicate PlainName(n: string) {
    n != [] && forall i :: 0 <= i < |n| ==> NameChar(n[i])
  }

  /** A plain name is its own trim and holds no `,`, `.` or `/`. */
  lemma PlainNameIsBare(n: string)
    requires PlainName(n)
    ensures Trim(n) == n
    ensures ',' !in n && '.' !in n && '/' !in n
  {
    assert !IsWhitespace(n[0]) && !IsWhitespace(n[|n| - 1]);
    TrimUnchanged(n);
  }

  /** The names of a sequence of targets, in order. */
  function Names(ts: seq<BuildTarget>): (ns: seq<string>)
    ensures |ns| == |ts|
    ensures forall i :: 0 <= i < |ts| ==> ns[i] == ts[i].name
  {
    seq(|ts|, i requires 0 <= i < |ts| => ts[i].name)
  }

  /** Every supported target, in declared order. */
  function AllTargets(): seq<BuildTarget> {
    [
      BuildTarget("linux", "x86_64-unknown-linux-gnu", "so", false),
      BuildTarget("windows-gnu", "x86_64-pc-windows-gnu", "dll", false),
      BuildTarget("windows-msvc", MsvcTriple, "dll", false),
      BuildTarget("mac-intel", "x86_64-apple-darwin", "dylib", true),
      BuildTarget("mac-arm64", "aarch64-apple-darwin", "dylib", true)
    ]
  }

  /**
   * The catalog lists linux, windows-gnu, windows-msvc, mac-intel and mac-arm64 in
   * that order, under distinct plain names; every extension is a single component
   * without a dot, and exactly the `dylib` targets need the macOS toolchain.
   */
  lemma Catalog()
    ensures var ts := AllTargets();
      && Names(ts) == ["linux", "windows-gnu", "windows-msvc", "mac-intel", "mac-arm64"]
      && (forall i, j :: 0 <= i < j < |ts| ==> ts[i].name != ts[j].name)
      && (forall i :: 0 <= i < |ts| ==> PlainName(ts[i].name))
      && (forall i :: 0 <= i < |ts| ==> ts[i].ext != [] && '.' !in ts[i].ext && '/' !in ts[i].ext)
      && (forall i :: 0 <= i < |ts| ==> (ts[i].needsMac <==> ts[i].ext == "dylib"))
  {
    CatalogNames();
    CatalogPlainNames();
    CatalogExtensions();
  }

  lemma CatalogNames()
    ensures Names(AllTargets()) == ["linux", "windows-gnu", "windows-msvc", "mac-intel", "mac-arm64"]
    ensures forall i, j :: 0 <= i < j < |AllTargets()| ==> AllTargets()[i].name != AllTargets()[j].name
  {
    var ns := Names(AllTargets());
    assert ns == ["linux", "windows-gnu", "windows-msvc", "mac-intel", "mac-arm64"];
  }

  lemma CatalogPlainNames()
    ensures forall i :: 0 <= i < |AllTargets()| ==> PlainName(AllTargets()[i].name)
  {
  }

  lemma CatalogExtensions()
    ensures forall i :: 0 <= i < |AllTargets()| ==>
      AllTargets()[i].ext != [] && '.' !in AllTargets()[i].ext && '/' !in AllTargets()[i].ext
    ensures forall i :: 0 <= i < |AllTargets()| ==> (AllTargets()[i].needsMac <==> AllTargets()[i].ext == "dylib")
  {
  }

  /** What holds of every catalog entry, found at its position. */
  lemma CatalogEntry(t: BuildTarget) returns (i: nat)
    requires t in AllTargets()
    ensures i < |AllTargets()| && AllTargets()[i] == t
    ensures PlainName(t.name)
    ensures t.ext != [] && '.' !in t.ext && '/' !in t.ext
  {
    Catalog();
    i :| 0 <= i < |AllTargets()| && AllTargets()[i] == t;
  }

  /** The catalog entry with exactly this name, if there is one. */
  function Lookup(name: string): (r: Option<BuildTarget>)
    ensures r.Some? ==> r.value in AllTargets() && r.value.name == name
    ensures r.None? <==> forall i :: 0 <= i < |AllTargets()| ==> AllTargets()[i].name != name
  {
    match FirstIndex(AllTargets(), (t: BuildTarget) => t.name == name)
    case Some(i) => Some(AllTargets()[i])
    case None => None
  }

  /** A name the catalog knows is not empty, neither starts nor ends with white space, and holds no comma. */
  lemma KnownNameIsPlain(name: string)
    requires Lookup(name).Some?
    ensures name != [] && !IsWhitespace(name[0]) && !IsWhitespace(name[|name| - 1])
    ensures Trim(name) == name && ',' !in name
  {
    var _ := CatalogEntry(Lookup(name).value);
    PlainNameIsBare(name);
  }

  /** The catalog entry one piece of a filter names once trimmed, if any. */
  function Pick(piece: string): Option<BuildTarget> {
    Lookup(Trim(piece))
  }

  /**
   * The catalog entries named by the pieces of a filter, each piece trimmed first,
   * in the pieces' order; a piece naming no target is dropped.
   */
  function Resolve(pieces: seq<string>): seq<BuildTarget> {
    FilterMap(pieces, Pick)
  }

  /** The targets to build: the whole catalog, or those a comma-separated filter names. */
  function SelectTargets(filter: Option<string>): (r: seq<BuildTarget>)
    ensures filter.None? ==> r == AllTargets()
    ensures filter.Some? ==> |r| <= |Split(filter.value, ',')|
    ensures filter.Some? ==> forall t :: t in r ==> exists p :: p in Split(filter.value, ',') && Trim(p) == t.name
    ensures forall t :: t in r ==> t in AllTargets()
  {
    match filter
    case None => AllTargets()
    case Some(f) => ResolveInCatalog(Split(f, ',')); Resolve(Split(f, ','))
  }

  /** Each piece picks at most one target, and only a catalog target its trimmed text names. */
  lemma ResolveInCatalog(pieces: seq<string>)
    ensures |Resolve(pieces)| <= |pieces|
    ensures forall t :: t in Resolve(pieces) ==> t in AllTargets()
    ensures forall t :: t in Resolve(pieces) ==> exists p :: p in pieces && Trim(p) == t.name
  {
    FilterMapSound(pieces, Pick);
    forall t | t in Resolve(pieces) ensures t in AllTargets() && exists p :: p in pieces && Trim(p) == t.name {
      var i :| 0 <= i < |pieces| && Pick(pieces[i]) == Some(t);
      assert pieces[i] in pieces;
    }
  }

  /** Resolving the pieces of a concatenation resolves each part in turn: the result follows the pieces' order. */
  lemma ResolveAppend(a: seq<string>, b: seq<string>)
    ensures Resolve(a + b) == Resolve(a) + Resolve(b)
  {
    FilterMapAppend(a, b, Pick);
  }

  /** A piece that names no target once trimmed is dropped without error. */
  lemma UnknownPieceDropped(a: seq<string>, piece: string, b: seq<string>)
    requires Lookup(Trim(piece)).None?
    ensures Resolve(a + [piece] + b) == Resolve(a + b)
  {
    FilterMapDrop(a, piece, b, Pick);
  }

  /**
   * Pieces that each name a target once trimmed resolve to those targets, one each,
   * in the pieces' order.
   */
  lemma ResolveNames(pieces: seq<string>)
    requires forall i :: 0 <= i < |pieces| ==> Lookup(Trim(pieces[i])).Some?
    ensures |Resolve(pieces)| == |pieces|
    ensures forall i :: 0 <= i < |pieces| ==>
      Resolve(pieces)[i] == Lookup(Trim(pieces[i])).value && Resolve(pieces)[i].name == Trim(pieces[i])
  {
    FilterMapAllSome(pieces, Pick);
  }

  /**
   * A filter whose comma-separated pieces each name a target once trimmed picks
   * exactly those targets, in the filter's order and with repetitions kept, not in
   * catalog order.
   */
  lemma SelectByNames(pieces: seq<string>)
    requires forall i :: 0 <= i < |pieces| ==> ',' !in pieces[i] && Lookup(Trim(pieces[i])).Some?
    ensures var r := SelectTargets(Some(Join(pieces, ',')));
      && |r| == |pieces|
      && forall i :: 0 <= i < |pieces| ==> r[i] == Lookup(Trim(pieces[i])).value && r[i].name == Trim(pieces[i])
  {
    if pieces == [] {
      TrimUnchanged("");
      assert Lookup("").None?;
    } else {
      SplitJoin(pieces, ',');
      ResolveNames(pieces);
    }
  }

  /** A filter written with a space after the comma, as the command-line help writes it, works. */
  lemma SelectSpacedList()
    ensures SelectTargets(Some("linux, mac-intel")) == [AllTargets()[0], AllTargets()[3]]
  {
    PickNamed(AllTargets()[0]);
    PickNamed(AllTargets()[3]);
    KnownNameIsPlain("linux");
    KnownNameIsPlain("mac-intel");
    SpacedListText();
    SelectSpacedPair("linux", "mac-intel");
  }

  lemma SpacedListText()
    ensures "linux" + ", " + "mac-intel" == "linux, mac-intel"
  {
  }

  /** Two known names separated by a comma and a space select their targets, in that order. */
  lemma SelectSpacedPair(a: string, b: string)
    requires Lookup(a).Some? && Lookup(b).Some?
    ensures SelectTargets(Some(a + ", " + b)) == [Lookup(a).value, Lookup(b).value]
  {
    SpacedPieces(a, b);
    SplitAfterPiece(a, " " + b, ',');
    SplitWithoutSeparator(" " + b, ',');
    CommaSpace(a, b);
    ResolveSpacedPieces(a, b);
  }

  lemma ResolveSpacedPieces(a: string, b: string)
    requires Lookup(a).Some? && Lookup(b).Some?
    ensures Resolve([a, " " + b]) == [Lookup(a).value, Lookup(b).value]
  {
    SpacedPieces(a, b);
    FilterMapPair(a, " " + b, Pick);
  }

  /** Neither piece of `a, b` holds a comma, and they pick the targets named `a` and `b`. */
  lemma SpacedPieces(a: string, b: string)
    requires Lookup(a).Some? && Lookup(b).Some?
    ensures ',' !in a && Pick(a) == Lookup(a)
    ensures ',' !in " " + b && Pick(" " + b) == Lookup(b)
  {
    KnownNameIsPlain(a);
    SpacedPiece(b);
  }

  /** A known name after a space holds no comma and picks the target of that name. */
  lemma SpacedPiece(b: string)
    requires Lookup(b).Some?
    ensures ',' !in " " + b && Pick(" " + b) == Lookup(b)
  {
    KnownNameIsPlain(b);
    TrimSurrounded(" ", b, "");
    assert " " + b + "" == " " + b;
    assert Trim(" " + b) == b;
  }

  /** Names are keys: two catalog entries with the same name are the same entry. */
  lemma NameIsKey(t1: BuildTarget, t2: BuildTarget)
    requires t1 in AllTargets() && t2 in AllTargets()
    requires t1.name == t2.name
    ensures t1 == t2
  {
    Catalog();
    var i := CatalogEntry(t1);
    var j := CatalogEntry(t2);
  }

  /** Naming a target twice selects it twice: the filter keeps duplicates. */
  lemma SelectKeepsDuplicates(t: BuildTarget)
    requires t in AllTargets()
    ensures SelectTargets(Some(t.name + "," + t.name)) == [t, t]
  {
    var n := t.name;
    var _ := CatalogEntry(t);
    assert ',' !in n;
    SplitTwice(n, ',');
    ResolveTwice(t);
  }

  lemma ResolveTwice(t: BuildTarget)
    requires t in AllTargets()
    ensures Resolve([t.name, t.name]) == [t, t]
  {
    PickNamed(t);
    FilterMapPair(t.name, t.name, Pick);
  }

  /** A catalog target's own name picks that target. */
  lemma PickNamed(t: BuildTarget)
    requires t in AllTargets()
    ensures Pick(t.name) == Some(t)
  {
    var _ := CatalogEntry(t);
    PlainNameIsBare(t.name);
    NameIsKey(Lookup(t.name).value, t);
  }

  // ---------------------------------------------------------------------------
  // Skip checks and the cargo command line
  // ---------------------------------------------------------------------------

  /**
   * What the tool learns about the machine it runs on: whether a compiler for macOS
   * is available, whether `cargo zigbuild` is, whether the host itself is macOS,
   * and which triples are the host's own.
   */
  datatype Host = Host(hasMacCompiler: bool, hasZigbuild: bool, onMacOS: bool, isHostTriple: string -> bool)

  /** The reasons a target is not built, and the ways a build can fail. */
  datatype BuildError =
    | MacCompilerMissing(target: string)
    | MsvcFromMacOS
    | SpawnFailed(io: string)
    | ReadFailed(io: string)
    | WaitFailed(io: string)
    | BuildFailed(target: string)
    | NoArtifact(lookIn: string)
    | NoSuitable(ext: string, files: seq<string>)
    | CreateDirFailed(io: string)
    | CopyFailed(io: string)
  {
    /** A deliberate skip rather than a failure. */
    predicate IsSkip() {
      MacCompilerMissing? || MsvcFromMacOS?
    }
  }

  /** Why the target must be skipped before anything is run, if it must. */
  function SkipReason(target: BuildTarget, host: Host): (r: Option<BuildError>)
    ensures r.Some? <==>
      (target.needsMac && !host.hasMacCompiler) || (host.onMacOS && target.triple == MsvcTriple)
    ensures r.Some? ==> r.value.IsSkip()
    ensures target.needsMac && !host.hasMacCompiler ==> r == Some(MacCompilerMissing(target.name))
    ensures !(target.needsMac && !host.hasMacCompiler) && host.onMacOS && target.triple == MsvcTriple ==>
      r == Some(MsvcFromMacOS)
  {
    if target.needsMac && !host.hasMacCompiler then Some(MacCompilerMissing(target.name))
    else if host.onMacOS && target.triple == MsvcTriple then Some(MsvcFromMacOS)
    else None
  }

  /** Whether to build with `cargo zigbuild` rather than `cargo build`. */
  function UseZig(target: BuildTarget, host: Host): (zig: bool)
    ensures zig ==> host.hasZigbuild
    ensures target.needsMac ==> (zig <==> host.hasZigbuild && host.hasMacCompiler)
  {
    if target.needsMac then host.hasZigbuild && host.hasMacCompiler
    else if !host.isHostTriple(target.triple) then host.hasZigbuild
    else false
  }

  /**
   * For a target that is not skipped, zigbuild is used exactly when it is available
   * and the target either needs the macOS toolchain or is foreign to the host.
   */
  lemma ZigWhenNotSkipped(target: BuildTarget, host: Host)
    requires SkipReason(target, host).None?
    ensures UseZig(target, host) <==>
      host.hasZigbuild && (target.needsMac || !host.isHostTriple(target.triple))
  {
  }

  function Subcommand(zig: bool): (sub: string)
    ensures sub == "zigbuild" || sub == "build"
  {
    if zig then "zigbuild" else "build"
  }

  /** The arguments given to `cargo`: the subcommand, a release build, the triple, JSON messages. */
  function CargoArgs(sub: string, triple: string): (args: seq<string>)
    ensures |args| == 5 && args[0] == sub
    ensures "--release" in args && "--message-format=json" in args
    ensures exists i :: 0 <= i < |args| - 1 && args[i] == "--target" && args[i + 1] == triple
  {
    var args := [sub, "--release", "--target", triple, "--message-format=json"];
    assert args[2] == "--target" && args[3] == triple;
    args
  }

  // ---------------------------------------------------------------------------
  // Candidate artifacts from cargo's JSON messages
  // ---------------------------------------------------------------------------

  /**
   * One JSON message from `cargo --message-format=json`, reduced to what the tool
   * reads: its `reason` when that is a string, `target.kind` and `filenames`.
   */
  datatype Event = Event(reason: Option<string>, kinds: StringArray, filenames: StringArray)

  /**
   * One line of cargo's standard output: `Line(None)` for an empty line or one that
   * is not JSON, `ReadError` when reading the pipe failed.
   */
  datatype LineRead = Line(event: Option<Event>) | ReadError(error: string)

  /** A freshly produced artifact of a target whose kinds include `cdylib`. */
  predicate IsCdylibArtifact(ev: Event) {
    ev.reason == Some("compiler-artifact") && ArrayHasString(ev.kinds, "cdylib")
  }

  /** The strings among `items` that end with `suffix`, in order. */
  function WithSuffix(items: seq<Option<string>>, suffix: string): seq<string>
    decreases |items|
  {
    if items == [] then []
    else
      var last := match items[|items| - 1]
        case Some(s) => if EndsWith(s, suffix) then [s] else []
        case None => [];
      WithSuffix(items[..|items| - 1], suffix) + last
  }

  /** Exactly the strings of the list that end with the suffix are kept. */
  lemma {:induction false} WithSuffixExact(items: seq<Option<string>>, suffix: string)
    ensures forall f :: f in WithSuffix(items, suffix) <==> EndsWith(f, suffix) && Some(f) in items
    decreases |items|
  {
    if items != [] {
      var init := items[..|items| - 1];
      WithSuffixExact(init, suffix);
      assert items == init + [items[|items| - 1]];
    }
  }

  /** One listed value is kept exactly when it is a string with the suffix. */
  lemma WithSuffixSingle(x: Option<string>, suffix: string)
    ensures WithSuffix([x], suffix) == if x.Some? && EndsWith(x.value, suffix) then [x.value] else []
  {
    assert [x][..0] == [];
  }

  /** The strings kept from a concatenation are those kept from each part, in order. */
  lemma {:induction false} WithSuffixAppend(a: seq<Option<string>>, b: seq<Option<string>>, suffix: string)
    ensures WithSuffix(a + b, suffix) == WithSuffix(a, suffix) + WithSuffix(b, suffix)
    decreases |b|
  {
    if b == [] {
      assert a + b == a;
    } else {
      var init := b[..|b| - 1];
      WithSuffixAppend(a, init, suffix);
      assert (a + b)[..|a + b| - 1] == a + init;
    }
  }

  /** When every listed value is a string with the suffix, all are kept, in order and with repeats. */
  lemma {:induction false} WithSuffixAllKept(items: seq<Option<string>>, suffix: string)
    requires forall i :: 0 <= i < |items| ==> items[i].Some? && EndsWith(items[i].value, suffix)
    ensures |WithSuffix(items, suffix)| == |items|
    ensures forall i :: 0 <= i < |items| ==> Some(WithSuffix(items, suffix)[i]) == items[i]
    decreases |items|
  {
    if items != [] {
      WithSuffixAllKept(items[..|items| - 1], suffix);
    }
  }

  /** The candidates one message contributes for a target with extension `ext`. */
  function EventFiles(ev: Event, ext: string): seq<string> {
    if IsCdylibArtifact(ev) && ev.filenames.Some? then WithSuffix(ev.filenames.value, "." + ext) else []
  }

  /**
   * A message contributes a file exactly when it is a `cdylib` artifact whose
   * `filenames` list it and the file ends with `.ext`.
   */
  lemma EventFilesExact(ev: Event, ext: string)
    ensures forall f :: f in EventFiles(ev, ext) <==>
      IsCdylibArtifact(ev) && ArrayHasString(ev.filenames, f) && EndsWith(f, "." + ext)
  {
    if IsCdylibArtifact(ev) && ev.filenames.Some? {
      WithSuffixExact(ev.filenames.value, "." + ext);
    }
  }

  /**
   * A `cdylib` artifact's candidates follow its `filenames`: those of a
   * concatenated list are those of each part, in order.
   */
  lemma EventFilesAppend(ev: Event, ext: string, a: seq<Option<string>>, b: seq<Option<string>>)
    requires IsCdylibArtifact(ev)
    ensures EventFiles(ev.(filenames := Some(a + b)), ext) ==
      EventFiles(ev.(filenames := Some(a)), ext) + EventFiles(ev.(filenames := Some(b)), ext)
  {
    WithSuffixAppend(a, b, "." + ext);
  }

  /**
   * When every file a `cdylib` artifact lists ends with `.ext`, it contributes all
   * of them, in the listed order and with repeats kept.
   */
  lemma EventFilesInOrder(ev: Event, ext: string)
    requires IsCdylibArtifact(ev) && ev.filenames.Some?
    requires forall i :: 0 <= i < |ev.filenames.value| ==>
      ev.filenames.value[i].Some? && EndsWith(ev.filenames.value[i].value, "." + ext)
    ensures |EventFiles(ev, ext)| == |ev.filenames.value|
    ensures forall i :: 0 <= i < |ev.filenames.value| ==> Some(EventFiles(ev, ext)[i]) == ev.filenames.value[i]
  {
    WithSuffixAllKept(ev.filenames.value, "." + ext);
  }

  /**
   * The candidates the whole of cargo's output contributes, in stream order, or the
   * first read error.
   */
  function Collected(lines: seq<LineRead>, ext: string): (r: Result<seq<string>, string>)
    decreases |lines|
  {
    if lines == [] then Ok([])
    else Step(Collected(lines[..|lines| - 1], ext), lines[|lines| - 1], ext)
  }

  /** One line's effect on the candidates gathered so far: an error stays, a read error stops, a message adds its files. */
  function Step(acc: Result<seq<string>, string>, line: LineRead, ext: string): Result<seq<string>, string> {
    match acc
    case Err(e) => Err(e)
    case Ok(files) =>
      match line
      case ReadError(e) => Err(e)
      case Line(None) => Ok(files)
      case Line(Some(ev)) => Ok(files + EventFiles(ev, ext))
  }

  lemma CollectedSnoc(lines: seq<LineRead>, line: LineRead, ext: string)
    ensures Collected(lines + [line], ext) == Step(Collected(lines, ext), line, ext)
  {
    assert (lines + [line])[..|lines|] == lines;
  }

  /** Collection succeeds exactly when no line failed to read. */
  lemma {:induction false} CollectedOkIff(lines: seq<LineRead>, ext: string)
    ensures Collected(lines, ext).Ok? <==> forall j :: 0 <= j < |lines| ==> !lines[j].ReadError?
    decreases |lines|
  {
    if lines != [] {
      var init := lines[..|lines| - 1];
      CollectedOkIff(init, ext);
      assert forall j :: 0 <= j < |init| ==> init[j] == lines[j];
    }
  }

  /** The first line that failed to read decides the error. */
  lemma {:induction false} CollectedFirstError(lines: seq<LineRead>, ext: string, k: nat)
    requires k < |lines| && lines[k].ReadError?
    requires forall j :: 0 <= j < k ==> !lines[j].ReadError?
    ensures Collected(lines, ext) == Err(lines[k].error)
    decreases |lines|
  {
    var init := lines[..|lines| - 1];
    if k == |lines| - 1 {
      CollectedOkIff(init, ext);
    } else {
      CollectedFirstError(init, ext, k);
    }
  }

  /** The line is a `cdylib` artifact message whose `filenames` list `f`. */
  predicate ListsArtifact(line: LineRead, f: string) {
    line.Line? && line.event.Some? && IsCdylibArtifact(line.event.value)
    && ArrayHasString(line.event.value.filenames, f)
  }

  /** Every candidate ends with `.ext` and was listed by a `cdylib` artifact message of the stream. */
  lemma {:induction false} CollectedFromArtifacts(lines: seq<LineRead>, ext: string)
    requires Collected(lines, ext).Ok?
    ensures forall f :: f in Collected(lines, ext).value ==>
      EndsWith(f, "." + ext) && exists i :: 0 <= i < |lines| && ListsArtifact(lines[i], f)
    decreases |lines|
  {
    if lines != [] {
      var n := |lines| - 1;
      var init := lines[..n];
      CollectedFromArtifacts(init, ext);
      forall f | f in Collected(lines, ext).value
        ensures EndsWith(f, "." + ext) && exists i :: 0 <= i < |lines| && ListsArtifact(lines[i], f)
      {
        if f !in Collected(init, ext).value {
          EventFilesExact(lines[n].event.value, ext);
          assert EndsWith(f, "." + ext) && ListsArtifact(lines[n], f);
        } else {
          var i :| 0 <= i < |init| && ListsArtifact(init[i], f);
          assert lines[i] == init[i];
        }
      }
    }
  }

  /** The candidates of two stretches of output, one after the other, in order. */
  lemma {:induction false} CollectedAppend(a: seq<LineRead>, b: seq<LineRead>, ext: string)
    requires Collected(a, ext).Ok? && Collected(b, ext).Ok?
    ensures Collected(a + b, ext) == Ok(Collected(a, ext).value + Collected(b, ext).value)
    decreases |b|
  {
    if b == [] {
      assert a + b == a;
      assert Collected(a, ext).value + [] == Collected(a, ext).value;
    } else {
      var init, x := b[..|b| - 1], b[|b| - 1];
      assert b == init + [x];
      CollectedSnoc(init, x, ext);
      assert Collected(init, ext).Ok?;
      CollectedAppend(a, init, ext);
      assert a + b == (a + init) + [x];
      CollectedSnoc(a + init, x, ext);
      StepPrefix(Collected(a, ext).value, Collected(init, ext).value, x, ext);
    }
  }

  /** A line adds to the candidates gathered so far the same whatever came before them. */
  lemma StepPrefix(fa: seq<string>, fb: seq<string>, line: LineRead, ext: string)
    requires Step(Ok(fb), line, ext).Ok?
    ensures Step(Ok(fa + fb), line, ext) == Ok(fa + Step(Ok(fb), line, ext).value)
  {
    if line.Line? && line.event.Some? {
      var more := EventFiles(line.event.value, ext);
      assert fa + fb + more == fa + (fb + more);
    }
  }

  /** A line that contributes nothing (empty, not JSON, or not a `cdylib` artifact) can be left out. */
  lemma {:induction false} QuietLineIgnored(a: seq<LineRead>, line: LineRead, b: seq<LineRead>, ext: string)
    requires line.Line? && (line.event.None? || EventFiles(line.event.value, ext) == [])
    ensures Collected(a + [line] + b, ext) == Collected(a + b, ext)
    decreases |b|
  {
    if b == [] {
      assert (a + [line])[..|a|] == a;
      assert a + b == a;
      assert a + [line] + b == a + [line];
      if line.event.Some? && Collected(a, ext).Ok? {
        assert Collected(a, ext).value + [] == Collected(a, ext).value;
      }
    } else {
      var n := |b| - 1;
      assert (a + [line] + b)[..|a| + 1 + n] == a + [line] + b[..n];
      assert (a + b)[..|a| + n] == a + b[..n];
      QuietLineIgnored(a, line, b[..n], ext);
    }
  }

  // ---------------------------------------------------------------------------
  // Choosing the artifact
  // ---------------------------------------------------------------------------

  /** The path's extension is exactly `ext`. */
  predicate HasExt(f: string, ext: string) {
    Extension(f) == Some(ext)
  }

  /** The path lies under the build-output directory of `triple`. */
  predicate InTargetDir(f: string, triple: string) {
    Contains(f, "/target/" + triple + "/")
  }

  /** A candidate of the first tier: the right extension, under the target's own output directory. */
  predicate Preferred(f: string, target: BuildTarget) {
    HasExt(f, target.ext) && InTargetDir(f, target.triple)
  }

  /** The first path with extension `ext`, if any. */
  function FindWithExt(files: seq<string>, ext: string): (r: Option<string>)
    ensures r.Some? ==> r.value in files && HasExt(r.value, ext)
    ensures r.None? <==> forall i :: 0 <= i < |files| ==> !HasExt(files[i], ext)
  {
    match FirstIndex(files, f => HasExt(f, ext))
    case Some(i) => Some(files[i])
    case None => None
  }

  /**
   * The artifact to publish: the first candidate of the first tier, or failing that
   * the first candidate with the right extension.
   */
  function Best(files: seq<string>, target: BuildTarget): (r: Option<string>)
    ensures r.Some? ==> r.value in files && HasExt(r.value, target.ext)
    ensures r.None? <==> forall i :: 0 <= i < |files| ==> !HasExt(files[i], target.ext)
  {
    match FirstIndex(files, f => Preferred(f, target))
    case Some(i) => Some(files[i])
    case None => FindWithExt(files, target.ext)
  }

  /** When a first-tier candidate exists, the first one is chosen. */
  lemma BestIsFirstPreferred(files: seq<string>, target: BuildTarget, k: nat)
    requires k < |files| && Preferred(files[k], target)
    requires forall j :: 0 <= j < k ==> !Preferred(files[j], target)
    ensures Best(files, target) == Some(files[k])
  {
    var r := FirstIndex(files, f => Preferred(f, target));
    assert r.Some? && r.value == k by {
      assert r.Some? ==> !(r.value < k) && !(k < r.value);
    }
  }

  /** Whenever some candidate is of the first tier, the choice is of the first tier. */
  lemma BestPrefersTargetDir(files: seq<string>, target: BuildTarget, i: nat)
    requires i < |files| && Preferred(files[i], target)
    ensures Best(files, target).Some? && Preferred(Best(files, target).value, target)
  {
    var k := FirstIndex(files, f => Preferred(f, target));
    BestIsFirstPreferred(files, target, k.value);
  }

  /** Otherwise the first candidate with the right extension is chosen. */
  lemma BestFallsBack(files: seq<string>, target: BuildTarget)
    requires forall j :: 0 <= j < |files| ==> !Preferred(files[j], target)
    ensures Best(files, target) == FindWithExt(files, target.ext)
  {
    var r := FirstIndex(files, f => Preferred(f, target));
    assert r.None?;
  }

  /** The fallback is the first file with the right extension. */
  lemma FindWithExtIsFirst(files: seq<string>, ext: string, k: nat)
    requires k < |files| && HasExt(files[k], ext)
    requires forall j :: 0 <= j < k ==> !HasExt(files[j], ext)
    ensures FindWithExt(files, ext) == Some(files[k])
  {
    var r := FirstIndex(files, f => HasExt(f, ext));
    assert r.Some? && r.value == k by {
      assert r.Some? ==> !(r.value < k) && !(k < r.value);
    }
  }

  /**
   * A file named `.ext` alone ends with `.ext` but has no extension, so a
   * non-empty list of candidates can still have no artifact to choose.
   */
  lemma DotNameHasNoExtension(dir: string, target: BuildTarget)
    requires '.' !in target.ext && '/' !in target.ext
    ensures EndsWith(JoinPath(dir, "." + target.ext), "." + target.ext)
    ensures Best([JoinPath(dir, "." + target.ext)], target) == None
  {
    var f := JoinPath(dir, "." + target.ext);
    FileNameOfJoin(dir, "." + target.ext);
    ExtensionIff(f, target.ext);
  }

  /** `choose_best`: a loop looking for the first first-tier candidate, then the search for the first with the right extension. */
  method ChooseBest(files: seq<string>, target: BuildTarget) returns (r: Option<string>)
    ensures r == Best(files, target)
  {
    var k := FindFirst(files, f => Preferred(f, target));
    if k.Some? {
      return Some(files[k.value]);
    }
    r := FindWithExt(files, target.ext);
  }

  // ---------------------------------------------------------------------------
  // The published name
  // ---------------------------------------------------------------------------

  /** Where a suffix goes into a file name: at its last dot, or at its end when it has none. */
  function SuffixPoint(fileName: string): (p: nat)
    ensures p <= |fileName|
    ensures p < |fileName| ==> fileName[p] == '.' && forall j :: p < j < |fileName| ==> fileName[j] != '.'
    ensures p == |fileName| ==> '.' !in fileName
  {
    match LastIndexOf(fileName, '.')
    case Some(i) => i
    case None => |fileName|
  }

  /** `add_suffix`: the suffix put in before the text after the last dot. */
  function AddSuffix(fileName: string, suffix: string): (r: string)
    ensures |r| == |fileName| + |suffix|
    ensures var p := SuffixPoint(fileName);
      r[..p] == fileName[..p] && r[p..p + |suffix|] == suffix && r[p + |suffix|..] == fileName[p..]
  {
    match LastIndexOf(fileName, '.')
    case Some(i) =>
      var r := fileName[..i] + suffix + "." + fileName[i + 1..];
      assert fileName[i..] == "." + fileName[i + 1..];
      r
    case None => fileName + suffix
  }

  /** Taking the suffix back out gives the original name. */
  lemma AddSuffixRemovable(fileName: string, suffix: string)
    ensures var r, p := AddSuffix(fileName, suffix), SuffixPoint(fileName);
      r[..p] + r[p + |suffix|..] == fileName
  {
    var p := SuffixPoint(fileName);
    assert fileName == fileName[..p] + fileName[p..];
  }

  /** A name without a dot gets the suffix at its end and no extension made up. */
  lemma AddSuffixNoDot(fileName: string, suffix: string)
    requires '.' !in fileName
    ensures AddSuffix(fileName, suffix) == fileName + suffix
  {
  }

  lemma AddSuffixExample()
    ensures AddSuffix("libfoo.so", "-linux") == "libfoo-linux.so"
  {
    LastIndexOfAt("libfoo.so", '.', 6);
  }

  /** Different suffixes give different names: one artifact never lands under two targets' names at once. */
  lemma AddSuffixInjective(fileName: string, s1: string, s2: string)
    requires AddSuffix(fileName, s1) == AddSuffix(fileName, s2)
    ensures s1 == s2
  {
    var p := SuffixPoint(fileName);
    assert AddSuffix(fileName, s1)[p..p + |s1|] == s1;
  }

  /** A non-empty suffix without `.` or `/` keeps the extension of a name that has one. */
  lemma AddSuffixKeepsExtension(fileName: string, suffix: string)
    requires '/' !in fileName && '.' !in suffix && '/' !in suffix && suffix != []
    requires NameExtension(fileName).Some?
    ensures NameExtension(AddSuffix(fileName, suffix)) == NameExtension(fileName)
  {
    var ext := NameExtension(fileName).value;
    var r := AddSuffix(fileName, suffix);
    NameExtensionTail(fileName);
    NameExtensionIff(fileName, ext);
    var p := SuffixPoint(fileName);
    var dotted := "." + ext;
    assert p == |fileName| - |dotted| by {
      var i := |fileName| - |dotted|;
      assert fileName[i] == '.';
      forall j | i < j < |fileName| ensures fileName[j] != '.' {
        assert fileName[j] == ext[j - i - 1];
      }
      LastIndexOfAt(fileName, '.', i);
    }
    assert r[p + |suffix|..] == dotted;
    assert r != "..";
    NameExtensionIff(r, ext);
  }

  /** The name the artifact is published under: its file name with `-<target name>` put in before the extension. */
  function OutputFileName(chosen: string, target: BuildTarget): string {
    AddSuffix(FileName(chosen), "-" + target.name)
  }

  /** The published copy of an artifact with the target's extension keeps that extension. */
  lemma PublishedKeepsExtension(out: string, chosen: string, target: BuildTarget)
    requires target in AllTargets()
    requires HasExt(chosen, target.ext)
    ensures FileName(JoinPath(out, OutputFileName(chosen, target))) == OutputFileName(chosen, target)
    ensures HasExt(JoinPath(out, OutputFileName(chosen, target)), target.ext)
  {
    var _ := CatalogEntry(target);
    PlainNameIsBare(target.name);
    var name := FileName(chosen);
    var suffix := "-" + target.name;
    AddSuffixKeepsExtension(name, suffix);
    var published := OutputFileName(chosen, target);
    FileNameOfJoin(out, published);
  }

  /** Two different targets never publish the same artifact under the same name. */
  lemma DistinctTargetsDistinctNames(chosen: string, t1: BuildTarget, t2: BuildTarget)
    requires t1 in AllTargets() && t2 in AllTargets() && t1 != t2
    ensures OutputFileName(chosen, t1) != OutputFileName(chosen, t2)
  {
    if OutputFileName(chosen, t1) == OutputFileName(chosen, t2) {
      AddSuffixInjective(FileName(chosen), "-" + t1.name, "-" + t2.name);
      assert t1.name == ("-" + t1.name)[1..];
      NameIsKey(t1, t2);
    }
  }

  // ---------------------------------------------------------------------------
  // One target, start to finish
  // ---------------------------------------------------------------------------

  /** The paths of a list as Rust's `Debug` format shows them: quoted, comma-separated, in brackets. */
  function DebugPaths(files: seq<string>): string {
    "[" + QuotedList(files) + "]"
  }

  function QuotedList(files: seq<string>): string
    decreases |files|
  {
    if files == [] then ""
    else if |files| == 1 then "\"" + files[0] + "\""
    else "\"" + files[0] + "\", " + QuotedList(files[1..])
  }

  /** The text `build_for_target` returns for each error. */
  function Message(e: BuildError): string {
    match e
    case MacCompilerMissing(name) => "Skipping " + name + ": mac compiler not found"
    // Split only so that the prover can index into it; the text is the source's single literal.
    case MsvcFromMacOS => "Skipping " + "windows-msvc: cannot cross-compile MSVC from macOS"
    case SpawnFailed(io) => "Failed to run cargo: " + io
    case ReadFailed(io) => "IO error: " + io
    case WaitFailed(io) => "cargo wait failed: " + io
    case BuildFailed(name) => "Build failed for " + name
    case NoArtifact(dir) => "Built file not found " + "(no cdylib reported). Checked cargo JSON; try look in: " + dir
    case NoSuitable(ext, files) => "No suitable " + ext + " found among: " + DebugPaths(files)
    case CreateDirFailed(io) => "Failed to create output directory: " + io
    case CopyFailed(io) => "Failed to copy file: " + io
  }

  lemma NotSkipping(head: string, rest: string)
    requires |head| > 0 && head[0] != 'S'
    ensures !StartsWith(head + rest, "Skipping ")
  {
    assert (head + rest)[0] == head[0];
  }

  /** A message starts with `Skipping ` exactly when it reports a skipped target. */
  lemma MessageSkipIff(e: BuildError)
    ensures StartsWith(Message(e), "Skipping ") <==> e.IsSkip()
  {
    if e.IsSkip() {
      SkipMessage(e);
    } else {
      FailureMessage(e);
    }
  }

  lemma SkipMessage(e: BuildError)
    requires e.IsSkip()
    ensures StartsWith(Message(e), "Skipping ")
  {
    var rest := if e.MsvcFromMacOS? then "windows-msvc: cannot cross-compile MSVC from macOS"
                else e.target + ": mac compiler not found";
    assert Message(e) == "Skipping " + rest;
    assert ("Skipping " + rest)[..|"Skipping "|] == "Skipping ";
  }

  lemma FailureMessage(e: BuildError)
    requires !e.IsSkip()
    ensures !StartsWith(Message(e), "Skipping ")
  {
    match e
    case SpawnFailed(io) => NotSkipping("Failed to run cargo: ", io);
    case ReadFailed(io) => NotSkipping("IO error: ", io);
    case WaitFailed(io) => NotSkipping("cargo wait failed: ", io);
    case BuildFailed(name) => NotSkipping("Build failed for ", name);
    // The literals below are split in two only so that the prover can index into them;
    // each concatenation is the source's single message text.
    case NoArtifact(dir) => NotSkipping("Built file not found ", "(no cdylib reported). Checked cargo JSON; try look in: " + dir);
    case NoSuitable(ext, files) => NotSkipping("No suitable ", ext + " found among: " + DebugPaths(files));
    case CreateDirFailed(io) => NotSkipping("Failed to create output directory: ", io);
    case CopyFailed(io) => NotSkipping("Failed to copy file: ", io);
  }

  /**
   * What running cargo turns out to do: whether it could not be started, the lines
   * of its standard output, and what waiting for it gives (`Ok(true)` for a
   * successful exit, `Ok(false)` for a failed one).
   */
  datatype CargoRun = CargoRun(spawnError: Option<string>, stdout: seq<LineRead>, exit: Result<bool, string>)

  /** What creating the output directory and copying into it turn out to do. */
  datatype FsEffects = FsEffects(createDirError: Option<string>, copyError: Option<string>)

  /** A copy of `source` to `dest`. */
  datatype Copy = Copy(source: string, dest: string)

  /**
   * What `build_for_target` did for one target: the cargo arguments, if a start of
   * cargo was attempted; the copy, if one was attempted; and the result.
   */
  datatype TargetReport = TargetReport(command: Option<seq<string>>, copy: Option<Copy>, result: Result<(), BuildError>)

  /** The directory the error for a build that reported no artifact suggests looking in. */
  function ReleaseDir(modPath: string, target: BuildTarget): string {
    JoinPath(modPath, "target/" + target.triple + "/release")
  }

  /** Where the chosen library is published: the output directory, under the suffixed name. */
  function Destination(out: string, chosen: string, target: BuildTarget): string {
    JoinPath(out, OutputFileName(chosen, target))
  }

  /** The last phase: create the output directory, then copy the chosen library into it. */
  function Publish(args: seq<string>, out: string, target: BuildTarget, chosen: string, fs: FsEffects): TargetReport {
    if fs.createDirError.Some? then TargetReport(Some(args), None, Err(CreateDirFailed(fs.createDirError.value)))
    else if fs.copyError.Some? then
      TargetReport(Some(args), Some(Copy(chosen, Destination(out, chosen, target))), Err(CopyFailed(fs.copyError.value)))
    else TargetReport(Some(args), Some(Copy(chosen, Destination(out, chosen, target))), Ok(()))
  }

  /** After the output was read: the exit status, then the candidates, then the choice among them. */
  function Finish(args: seq<string>, out: string, target: BuildTarget, modPath: string,
                  files: seq<string>, exit: Result<bool, string>, fs: FsEffects): TargetReport
  {
    if exit.Err? then TargetReport(Some(args), None, Err(WaitFailed(exit.error)))
    else if !exit.value then TargetReport(Some(args), None, Err(BuildFailed(target.name)))
    else if files == [] then TargetReport(Some(args), None, Err(NoArtifact(ReleaseDir(modPath, target))))
    else match Best(files, target)
      case None => TargetReport(Some(args), None, Err(NoSuitable(target.ext, files)))
      case Some(chosen) => Publish(args, out, target, chosen, fs)
  }

  /** Once cargo's arguments are known: start it, read its output, then finish. */
  function Started(args: seq<string>, out: string, target: BuildTarget, modPath: string, run: CargoRun, fs: FsEffects): TargetReport {
    if run.spawnError.Some? then TargetReport(Some(args), None, Err(SpawnFailed(run.spawnError.value)))
    else match Collected(run.stdout, target.ext)
      case Err(io) => TargetReport(Some(args), None, Err(ReadFailed(io)))
      case Ok(files) => Finish(args, out, target, modPath, files, run.exit, fs)
  }

  /** The whole of `build_for_target` for one target, as a function of what the outside world does. */
  function BuildReport(out: string, target: BuildTarget, modPath: string, host: Host, run: CargoRun, fs: FsEffects): TargetReport {
    match SkipReason(target, host)
    case Some(skip) => TargetReport(None, None, Err(skip))
    case None => Started(CargoArgs(Subcommand(UseZig(target, host)), target.triple), out, target, modPath, run, fs)
  }

  /** Every phase after the skip checks reports the command it was given. */
  lemma StartedReportsCommand(args: seq<string>, out: string, target: BuildTarget, modPath: string, run: CargoRun, fs: FsEffects)
    ensures Started(args, out, target, modPath, run, fs).command == Some(args)
  {
    if run.spawnError.None? && Collected(run.stdout, target.ext).Ok? {
      FinishReportsCommand(args, out, target, modPath, Collected(run.stdout, target.ext).value, run.exit, fs);
    }
  }

  lemma FinishReportsCommand(args: seq<string>, out: string, target: BuildTarget, modPath: string,
                             files: seq<string>, exit: Result<bool, string>, fs: FsEffects)
    ensures Finish(args, out, target, modPath, files, exit, fs).command == Some(args)
  {
    if exit == Ok(true) && files != [] {
      match Best(files, target)
      case Some(chosen) =>
        assert Finish(args, out, target, modPath, files, exit, fs) == Publish(args, out, target, chosen, fs);
      case None =>
    }
  }

  /**
   * The skip checks come before anything is run: a start of cargo is attempted
   * exactly when the target is not skipped, and a skipped target copies nothing.
   */
  lemma SkipRunsNothing(out: string, target: BuildTarget, modPath: string, host: Host, run: CargoRun, fs: FsEffects)
    ensures var rep := BuildReport(out, target, modPath, host, run, fs);
      (rep.command.None? <==> SkipReason(target, host).Some?) &&
      (rep.command.None? ==>
        && rep.copy.None? && rep.result == Err(SkipReason(target, host).value)
        && rep.result.error.IsSkip())
  {
    if SkipReason(target, host).None? {
      StartedReportsCommand(CargoArgs(Subcommand(UseZig(target, host)), target.triple), out, target, modPath, run, fs);
    }
  }

  /** Cargo is always started with the chosen subcommand and the same four arguments. */
  lemma CommandShape(out: string, target: BuildTarget, modPath: string, host: Host, run: CargoRun, fs: FsEffects)
    requires SkipReason(target, host).None?
    ensures BuildReport(out, target, modPath, host, run, fs).command ==
      Some([if UseZig(target, host) then "zigbuild" else "build", "--release", "--target", target.triple, "--message-format=json"])
  {
    StartedReportsCommand(CargoArgs(Subcommand(UseZig(target, host)), target.triple), out, target, modPath, run, fs);
  }

  /** A failed build is reported as such, after the whole output has been read, and nothing is copied. */
  lemma FailedBuildCopiesNothing(out: string, target: BuildTarget, modPath: string, host: Host, run: CargoRun, fs: FsEffects)
    requires SkipReason(target, host).None? && run.spawnError.None?
    requires forall j :: 0 <= j < |run.stdout| ==> !run.stdout[j].ReadError?
    requires run.exit == Ok(false)
    ensures BuildReport(out, target, modPath, host, run, fs) ==
      TargetReport(Some(CargoArgs(Subcommand(UseZig(target, host)), target.triple)), None, Err(BuildFailed(target.name)))
  {
    CollectedOkIff(run.stdout, target.ext);
  }

  /** A successful build that reported no candidate is an error naming the release directory, never a success. */
  lemma NoCandidatesIsNotFound(out: string, target: BuildTarget, modPath: string, host: Host, run: CargoRun, fs: FsEffects)
    requires SkipReason(target, host).None? && run.spawnError.None?
    requires Collected(run.stdout, target.ext) == Ok([])
    requires run.exit == Ok(true)
    ensures BuildReport(out, target, modPath, host, run, fs).result == Err(NoArtifact(ReleaseDir(modPath, target)))
    ensures BuildReport(out, target, modPath, host, run, fs).copy.None?
  {
  }

  /** A cargo that cannot be started fails the target with the spawn error, before any output is read. */
  lemma SpawnFailureReported(out: string, target: BuildTarget, modPath: string, host: Host, run: CargoRun, fs: FsEffects)
    requires SkipReason(target, host).None? && run.spawnError.Some?
    ensures BuildReport(out, target, modPath, host, run, fs).result == Err(SpawnFailed(run.spawnError.value))
    ensures BuildReport(out, target, modPath, host, run, fs).copy.None?
  {
  }

  /**
   * The first line that fails to read fails the target with that error, whatever
   * the exit status turns out to be, and nothing is copied.
   */
  lemma ReadFailureReported(out: string, target: BuildTarget, modPath: string, host: Host, run: CargoRun, fs: FsEffects, k: nat)
    requires SkipReason(target, host).None? && run.spawnError.None?
    requires k < |run.stdout| && run.stdout[k].ReadError?
    requires forall j :: 0 <= j < k ==> !run.stdout[j].ReadError?
    ensures BuildReport(out, target, modPath, host, run, fs).result == Err(ReadFailed(run.stdout[k].error))
    ensures BuildReport(out, target, modPath, host, run, fs).copy.None?
  {
    CollectedFirstError(run.stdout, target.ext, k);
  }

  /** Once the output is read, a failure to wait for cargo fails the target with that error. */
  lemma WaitFailureReported(out: string, target: BuildTarget, modPath: string, host: Host, run: CargoRun, fs: FsEffects)
    requires SkipReason(target, host).None? && run.spawnError.None?
    requires Collected(run.stdout, target.ext).Ok? && run.exit.Err?
    ensures BuildReport(out, target, modPath, host, run, fs).result == Err(WaitFailed(run.exit.error))
    ensures BuildReport(out, target, modPath, host, run, fs).copy.None?
  {
  }

  /**
   * A successful build whose candidates include none with exactly the target's
   * extension fails, naming the extension and the candidates, and copies nothing.
   */
  lemma NoSuitableCandidate(out: string, target: BuildTarget, modPath: string, host: Host, run: CargoRun, fs: FsEffects)
    requires SkipReason(target, host).None? && run.spawnError.None? && run.exit == Ok(true)
    requires Collected(run.stdout, target.ext).Ok? && Collected(run.stdout, target.ext).value != []
    requires forall f :: f in Collected(run.stdout, target.ext).value ==> !HasExt(f, target.ext)
    ensures BuildReport(out, target, modPath, host, run, fs).result ==
      Err(NoSuitable(target.ext, Collected(run.stdout, target.ext).value))
    ensures BuildReport(out, target, modPath, host, run, fs).copy.None?
  {
  }

  /** The only candidate being a bare `.ext` name is the "no suitable" failure, not a success. */
  lemma DotNameIsNotSuitable(out: string, target: BuildTarget, modPath: string, host: Host, run: CargoRun, fs: FsEffects, dir: string)
    requires target in AllTargets()
    requires SkipReason(target, host).None? && run.spawnError.None? && run.exit == Ok(true)
    requires Collected(run.stdout, target.ext) == Ok([JoinPath(dir, "." + target.ext)])
    ensures BuildReport(out, target, modPath, host, run, fs).result ==
      Err(NoSuitable(target.ext, [JoinPath(dir, "." + target.ext)]))
    ensures BuildReport(out, target, modPath, host, run, fs).copy.None?
  {
    var _ := CatalogEntry(target);
    DotNameHasNoExtension(dir, target);
  }

  /** With a choice made, a failure to create the output directory fails the target before any copy. */
  lemma CreateDirFailureReported(out: string, target: BuildTarget, modPath: string, host: Host, run: CargoRun, fs: FsEffects)
    requires SkipReason(target, host).None? && run.spawnError.None? && run.exit == Ok(true)
    requires Collected(run.stdout, target.ext).Ok?
    requires Best(Collected(run.stdout, target.ext).value, target).Some?
    requires fs.createDirError.Some?
    ensures BuildReport(out, target, modPath, host, run, fs).result == Err(CreateDirFailed(fs.createDirError.value))
    ensures BuildReport(out, target, modPath, host, run, fs).copy.None?
  {
    assert Collected(run.stdout, target.ext).value != [];
  }

  /** A copy that fails is still attempted, of the choice to its destination, and fails the target with its error. */
  lemma CopyFailureReported(out: string, target: BuildTarget, modPath: string, host: Host, run: CargoRun, fs: FsEffects)
    requires SkipReason(target, host).None? && run.spawnError.None? && run.exit == Ok(true)
    requires Collected(run.stdout, target.ext).Ok?
    requires Best(Collected(run.stdout, target.ext).value, target).Some?
    requires fs.createDirError.None? && fs.copyError.Some?
    ensures var chosen := Best(Collected(run.stdout, target.ext).value, target).value;
      BuildReport(out, target, modPath, host, run, fs).copy == Some(Copy(chosen, Destination(out, chosen, target)))
    ensures BuildReport(out, target, modPath, host, run, fs).result == Err(CopyFailed(fs.copyError.value))
  {
    assert Collected(run.stdout, target.ext).value != [];
  }

  /** A copy is attempted only after a successful exit and a choice among the candidates; it copies that choice. */
  lemma PublishCopiesTheChoice(args: seq<string>, out: string, target: BuildTarget, chosen: string, fs: FsEffects)
    ensures Publish(args, out, target, chosen, fs).copy.Some? ==>
      Publish(args, out, target, chosen, fs).copy.value == Copy(chosen, Destination(out, chosen, target))
  {
  }

  lemma FinishCopiesTheChoice(args: seq<string>, out: string, target: BuildTarget, modPath: string,
                              files: seq<string>, exit: Result<bool, string>, fs: FsEffects)
    requires Finish(args, out, target, modPath, files, exit, fs).copy.Some?
    ensures exit == Ok(true) && Best(files, target).Some?
    ensures Finish(args, out, target, modPath, files, exit, fs).copy.value ==
      Copy(Best(files, target).value, Destination(out, Best(files, target).value, target))
  {
    if exit.Ok? && exit.value && files != [] {
      match Best(files, target)
      case Some(chosen) =>
        assert Finish(args, out, target, modPath, files, exit, fs) == Publish(args, out, target, chosen, fs);
        PublishCopiesTheChoice(args, out, target, chosen, fs);
      case None =>
    }
  }

  /**
   * A copy is attempted only after a successful build whose candidates yield a
   * choice; it copies that choice to the output directory under the target's
   * suffixed name, which keeps the target's extension.
   */
  lemma CopyOnlyOfTheChoice(out: string, target: BuildTarget, modPath: string, host: Host, run: CargoRun, fs: FsEffects)
    requires target in AllTargets()
    requires BuildReport(out, target, modPath, host, run, fs).copy.Some?
    ensures SkipReason(target, host).None? && run.spawnError.None? && run.exit == Ok(true)
    ensures Collected(run.stdout, target.ext).Ok?
    ensures var c := BuildReport(out, target, modPath, host, run, fs).copy.value;
      && Best(Collected(run.stdout, target.ext).value, target) == Some(c.source)
      && FileName(c.dest) == OutputFileName(c.source, target)
      && HasExt(c.dest, target.ext)
  {
    var args := CargoArgs(Subcommand(UseZig(target, host)), target.triple);
    var files := Collected(run.stdout, target.ext).value;
    FinishCopiesTheChoice(args, out, target, modPath, files, run.exit, fs);
    PublishedKeepsExtension(out, Best(files, target).value, target);
  }

  /**
   * A target that succeeds has published its artifact: the output was read, a
   * choice was made among the candidates, and exactly that choice was copied to
   * its destination.
   */
  lemma SuccessPublishes(out: string, target: BuildTarget, modPath: string, host: Host, run: CargoRun, fs: FsEffects)
    requires BuildReport(out, target, modPath, host, run, fs).result.Ok?
    ensures Collected(run.stdout, target.ext).Ok?
    ensures Best(Collected(run.stdout, target.ext).value, target).Some?
    ensures var chosen := Best(Collected(run.stdout, target.ext).value, target).value;
      BuildReport(out, target, modPath, host, run, fs).copy == Some(Copy(chosen, Destination(out, chosen, target)))
  {
    SuccessIff(out, target, modPath, host, run, fs);
    var args := CargoArgs(Subcommand(UseZig(target, host)), target.triple);
    var files := Collected(run.stdout, target.ext).value;
    var chosen := Best(files, target).value;
    assert BuildReport(out, target, modPath, host, run, fs) == Started(args, out, target, modPath, run, fs);
    assert Finish(args, out, target, modPath, files, run.exit, fs) == Publish(args, out, target, chosen, fs);
  }

  /** The build succeeds exactly when nothing on the way fails and the copy goes through. */
  lemma SuccessIff(out: string, target: BuildTarget, modPath: string, host: Host, run: CargoRun, fs: FsEffects)
    ensures BuildReport(out, target, modPath, host, run, fs).result.Ok? <==>
      && SkipReason(target, host).None?
      && run.spawnError.None?
      && (forall j :: 0 <= j < |run.stdout| ==> !run.stdout[j].ReadError?)
      && run.exit == Ok(true)
      && Collected(run.stdout, target.ext).Ok?
      && Best(Collected(run.stdout, target.ext).value, target).Some?
      && fs.createDirError.None? && fs.copyError.None?
  {
    CollectedOkIff(run.stdout, target.ext);
  }

  /** The candidates one message contributes: the loop over its `filenames`. */
  method ArtifactFiles(ev: Event, ext: string) returns (files: seq<string>)
    ensures files == EventFiles(ev, ext)
  {
    files := [];
    if IsCdylibArtifact(ev) && ev.filenames.Some? {
      var names := ev.filenames.value;
      var suffix := "." + ext;
      var k := 0;
      while k < |names|
        invariant k <= |names|
        invariant files == WithSuffix(names[..k], suffix)
      {
        assert names[..k + 1][..k] == names[..k];
        if names[k].Some? && EndsWith(names[k].value, suffix) {
          files := files + [names[k].value];
        }
        k := k + 1;
      }
      assert names[..k] == names;
    }
  }

  /** The loop over cargo's output lines: gather candidates, or stop at the first read error. */
  method CollectOutput(stdout: seq<LineRead>, ext: string) returns (r: Result<seq<string>, string>)
    ensures r == Collected(stdout, ext)
  {
    var files: seq<string> := [];
    var n := 0;
    while n < |stdout|
      invariant n <= |stdout|
      invariant Collected(stdout[..n], ext) == Ok(files)
    {
      var line := stdout[n];
      CollectedSnoc(stdout[..n], line, ext);
      assert stdout[..n] + [line] == stdout[..n + 1];
      if line.ReadError? {
        CollectedTail(stdout, n, ext);
        return Err(line.error);
      }
      if line.event.Some? {
        var more := ArtifactFiles(line.event.value, ext);
        files := files + more;
      }
      n := n + 1;
    }
    assert stdout[..n] == stdout;
    r := Ok(files);
  }

  /** Once a line fails to read, the rest of the output does not matter. */
  lemma CollectedTail(lines: seq<LineRead>, n: nat, ext: string)
    requires n < |lines| && lines[n].ReadError?
    requires Collected(lines[..n], ext).Ok?
    ensures Collected(lines, ext) == Err(lines[n].error)
  {
    CollectedOkIff(lines[..n], ext);
    assert forall j :: 0 <= j < n ==> lines[..n][j] == lines[j];
    CollectedFirstError(lines, ext, n);
  }

  /**
   * `build_for_target`: the skip checks, the cargo command line, the loop over
   * cargo's output, and the error checks in order before the copy.
   */
  method BuildForTarget(out: string, target: BuildTarget, modPath: string, host: Host, run: CargoRun, fs: FsEffects)
    returns (report: TargetReport)
    ensures report == BuildReport(out, target, modPath, host, run, fs)
  {
    var skip := SkipReason(target, host);
    if skip.Some? {
      return TargetReport(None, None, Err(skip.value));
    }
    var args := CargoArgs(Subcommand(UseZig(target, host)), target.triple);
    if run.spawnError.Some? {
      return TargetReport(Some(args), None, Err(SpawnFailed(run.spawnError.value)));
    }
    var collected := CollectOutput(run.stdout, target.ext);
    if collected.Err? {
      return TargetReport(Some(args), None, Err(ReadFailed(collected.error)));
    }
    var builtFiles := collected.value;
    if run.exit.Err? {
      return TargetReport(Some(args), None, Err(WaitFailed(run.exit.error)));
    }
    if !run.exit.value {
      return TargetReport(Some(args), None, Err(BuildFailed(target.name)));
    }
    if builtFiles == [] {
      return TargetReport(Some(args), None, Err(NoArtifact(ReleaseDir(modPath, target))));
    }
    var chosen := ChooseBest(builtFiles, target);
    if chosen.None? {
      return TargetReport(Some(args), None, Err(NoSuitable(target.ext, builtFiles)));
    }
    var outPath := Destination(out, chosen.value, target);
    if fs.createDirError.Some? {
      return TargetReport(Some(args), None, Err(CreateDirFailed(fs.createDirError.value)));
    }
    if fs.copyError.Some? {
      return TargetReport(Some(args), Some(Copy(chosen.value, outPath)), Err(CopyFailed(fs.copyError.value)));
    }
    return TargetReport(Some(args), Some(Copy(chosen.value, outPath)), Ok(()));
  }
}
