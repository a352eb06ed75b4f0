/**
 * The command-line program (src/main.rs): what one run does with its arguments,
 * the credentials directory, the bucket and the attached probes, up to the point
 * where it would open the chosen probe, download the chosen firmware and flash it.
 */
module Cli {
  import opened Wrappers
  import opened Errors
  import opened Utils
  import opened Text
  import opened Credentials
  import opened CredentialsManager
  import opened Storage
  import opened Probes

  /** The parsed command line (`struct Args`). */
  datatype Args = Args(
    firmwareName: Option<string>,
    firmwareVersion: Option<string>,
    list: bool,
    probe: Option<string>,
    listProbes: bool,
    clearCache: bool,
    connectUnderReset: bool,
    dates: bool)

  /** Why a run ends with an error: one constructor per `?` or `bail!` of `main` up to
      the choice of the probe (the `--dates` error "not a timestamp" and the errors of
      opening the probe, downloading and flashing are not part of this model). */
  datatype Failure =
    | NoProbes                              // `get_probes()?`
    | BaseDirsUnavailable                   // `BaseDirs::new()?`
    | CacheNotCleared                       // "Failed to clear firmware cache directory"
    | CredentialsNotLoaded(cause: Error)    // "Failed to load saved credentials"
    | CredentialsNotRead(cause: Error)      // "Failed to read credentials from the command line"
    | CredentialsNotSaved(cause: Error)     // "Failed to save new credentials"
    | MultipleCredentials                   // "Multiple credentials management is not supported ..."
    | StorageNotInitialised                 // "Failed to init storage client"
    | NamesNotFetched(cause: Error)         // "Failed to fetch firmware names from the Bucket"
    | NoFirmware                            // "No firmware found in the Bucket"
    | NameNotFound(name: string)            // "Firmware name \"..\" not found in the Bucket"
    | NameMissing                           // "Please specify firmware name to continue ..."
    | VersionsNotFetched(cause: Error)      // "Failed to fetch firmware versions from the Bucket"
    | InvalidList                           // "Invalid use of the --list command"
    | VersionNotFound(version: string)      // "Firmware version \"..\" not found in the Bucket"
    | VersionMissing                        // "Please specify firmware version to continue ..."
    | ProbeNotFound                         // "Probe not found"

  /** How a run ends: a listing printed before `exit(0)`, an error, the panic of
      `expect("Probe without serial")`, or the firmware and probe it goes on to flash. */
  datatype Ending =
    | Exit(lines: seq<string>)
    | Failed(failure: Failure)
    | Panicked
    | Flash(name: string, version: string, probe: ProbeInfo, connectUnderReset: bool)

  // ---------------------------------------------------------------------------
  // Printing counts
  // ---------------------------------------------------------------------------

  /** `usize` printed with `{}`: decimal digits, no leading zero. */
  function Decimal(n: nat): (s: string)
    ensures s != [] && (forall i :: 0 <= i < |s| ==> IsDigit(s[i])) && DecimalValue(s) == n
    ensures s[0] == '0' ==> n == 0 && s == "0"
  {
    if n < 10 then
      var s := [Digit(n)];
      assert s[..0] == [];
      s
    else
      var front := Decimal(n / 10);
      var s := front + [Digit(n % 10)];
      assert s[..|s| - 1] == front;
      s
  }

  /** Distinct counts are printed differently. */
  lemma DecimalInjective(m: nat, n: nat)
    ensures Decimal(m) == Decimal(n) <==> m == n
  {
  }

  /** `if n.eq(&1) { "" } else { "s" }`: no ending for one, an `s` otherwise. */
  function Plural(n: nat): (s: string)
    ensures s == [] <==> n == 1
    ensures s != [] ==> s == "s"
  {
    if n == 1 then "" else "s"
  }

  /** A header line `pre`, the count, `noun`, the plural ending and `post`. */
  function Counted(pre: string, n: nat, noun: string, post: string): (h: string) {
    pre + Decimal(n) + noun + Plural(n) + post
  }

  /** A header reads back as its prefix, its count and its noun. */
  lemma CountedReadsBack(pre: string, n: nat, noun: string, post: string)
    ensures var h := Counted(pre, n, noun, post);
            var d := |pre| + |Decimal(n)|;
            && d + |noun| <= |h|
            && h[..|pre|] == pre
            && h[|pre|..d] == Decimal(n) && DecimalValue(h[|pre|..d]) == n
            && h[d..d + |noun|] == noun
  {
    var digits := Decimal(n);
    assert Counted(pre, n, noun, post) == pre + digits + noun + (Plural(n) + post);
    ThreePartsReadBack(pre, digits, noun, Plural(n) + post);
  }

  /** A header's noun takes an `s` exactly when the count is not one. */
  lemma CountedPlural(pre: string, n: nat, noun: string, post: string)
    requires post == [] || post[0] != 's'
    ensures var h := Counted(pre, n, noun, post);
            var e := |pre| + |Decimal(n)| + |noun|;
            && e <= |h|
            && (h[e..] == post <==> n == 1)
            && (n != 1 <==> e < |h| && h[e] == 's' && h[e + 1..] == post)
  {
    var digits := Decimal(n);
    var ending := Plural(n);
    assert Counted(pre, n, noun, post) == pre + digits + noun + (ending + post);
    ThreePartsReadBack(pre, digits, noun, ending + post);
    if n != 1 {
      assert (ending + post)[1..] == post;
    }
  }

  /** `h` reads as `pre`, the count `n` in decimal, `noun`, an `s` exactly when `n`
      is not one, and `post`. */
  predicate HeaderReads(h: string, pre: string, n: nat, noun: string, post: string) {
    var d := |pre| + |Decimal(n)|;
    var e := d + |noun|;
    && e <= |h| && h[..|pre|] == pre && h[|pre|..d] == Decimal(n) && h[d..e] == noun
    && (n == 1 ==> h[e..] == post)
    && (n != 1 ==> e < |h| && h[e] == 's' && h[e + 1..] == post)
  }

  /** `VID:PID:Serial (name) listing of N available debug probe(s):`. */
  function ProbesHeader(n: nat): (h: string)
    ensures HeaderReads(h, "VID:PID:Serial (name) listing of ", n, " available debug probe", ":")
  {
    CountedReadsBack("VID:PID:Serial (name) listing of ", n, " available debug probe", ":");
    CountedPlural("VID:PID:Serial (name) listing of ", n, " available debug probe", ":");
    Counted("VID:PID:Serial (name) listing of ", n, " available debug probe", ":")
  }

  /** `Listing N available firmware name(s):`. */
  function NamesHeader(n: nat): (h: string)
    ensures HeaderReads(h, "Listing ", n, " available firmware name", ":")
  {
    CountedReadsBack("Listing ", n, " available firmware name", ":");
    CountedPlural("Listing ", n, " available firmware name", ":");
    Counted("Listing ", n, " available firmware name", ":")
  }

  /** `Listing N version(s) of firmware "name"`. */
  function VersionsHeader(n: nat, name: string): (h: string)
    ensures HeaderReads(h, "Listing ", n, " version", " of firmware \"" + name + "\"")
  {
    var post := " of firmware \"" + name + "\"";
    CountedReadsBack("Listing ", n, " version", post);
    CountedPlural("Listing ", n, " version", post);
    Counted("Listing ", n, " version", post)
  }

  // ---------------------------------------------------------------------------
  // Listings
  // ---------------------------------------------------------------------------

  /** `lines` is `header` followed by one `  - item` line per item, in order. */
  predicate IsListing(lines: seq<string>, header: string, items: seq<string>) {
    && |lines| == |items| + 1 && lines[0] == header
    && forall i :: 0 <= i < |items| ==> lines[i + 1] == "  - " + items[i]
  }

  /** `lines` is the probe header followed by one line per probe, in order. */
  predicate IsProbeListing(lines: seq<string>, probes: seq<ProbeInfo>) {
    && |lines| == |probes| + 1 && lines[0] == ProbesHeader(|probes|)
    && forall i :: 0 <= i < |probes| ==> lines[i + 1] == ProbeLine(probes[i])
  }

  /** The `println!` loop of a `--list` command (dates not shown). */
  method ListItems(header: string, items: seq<string>) returns (lines: seq<string>)
    ensures IsListing(lines, header, items)
  {
    lines := [header];
    var i := 0;
    while i < |items|
      invariant 0 <= i <= |items|
      invariant |lines| == i + 1 && lines[0] == header
      invariant forall j :: 0 <= j < i ==> lines[j + 1] == "  - " + items[j]
    {
      lines := lines + ["  - " + items[i]];
      i := i + 1;
    }
  }

  /** The `println!` loop of `--list-probes`. */
  method ListProbes(probes: seq<ProbeInfo>) returns (lines: seq<string>)
    ensures IsProbeListing(lines, probes)
  {
    lines := [ProbesHeader(|probes|)];
    var i := 0;
    while i < |probes|
      invariant 0 <= i <= |probes|
      invariant |lines| == i + 1 && lines[0] == ProbesHeader(|probes|)
      invariant forall j :: 0 <= j < i ==> lines[j + 1] == ProbeLine(probes[j])
    {
      lines := lines + [ProbeLine(probes[i])];
      i := i + 1;
    }
  }

  // ---------------------------------------------------------------------------
  // From the bucket listing to the flash target
  // ---------------------------------------------------------------------------

  /** The arguments name a listed firmware and a listed version of it, and ask
      for no listing. */
  predicate NamesListedTarget(args: Args, bucket: Bucket) {
    && ListFirmwares(bucket).Ok? && !args.list
    && args.firmwareName.Some? && args.firmwareName.value in ListFirmwares(bucket).value
    && ListFirmwareVersions(bucket, args.firmwareName.value).Ok?
    && args.firmwareVersion.Some?
    && args.firmwareVersion.value in ListFirmwareVersions(bucket, args.firmwareName.value).value
  }

  /** The probe the run uses among `attached`, as the probe stage of `main` picks it. */
  predicate ProbeStage(args: Args, attached: seq<ProbeInfo>, name: string, version: string, out: Ending) {
    && (attached == [] ==> out == Failed(NoProbes))
    && (attached != [] && args.probe.None? ==>
          out == Flash(name, version, attached[0], args.connectUnderReset))
    && (attached != [] && args.probe.Some? ==>
          match FindProbe(attached, args.probe.value)
          case Found(i) => out == Flash(name, version, attached[i], args.connectUnderReset)
          case MissingSerial(_) => out == Panicked
          case NotFound => out == Failed(ProbeNotFound))
  }

  /** Lines 108-214 of `main`, from listing the firmware names to choosing the probe. */
  predicate ChoosesTarget(args: Args, bucket: Bucket, attached: seq<ProbeInfo>, out: Ending) {
    var names := ListFirmwares(bucket);
    && (names.Err? ==> out == Failed(NamesNotFetched(names.error)))
    && (names.Ok? && args.list && args.firmwareName.None? ==>
          out.Exit? && IsListing(out.lines, NamesHeader(|names.value|), names.value))
    && (names.Ok? && !args.list && args.firmwareName.None? ==> out == Failed(NameMissing))
    && (names.Ok? && args.firmwareName.Some? && args.firmwareName.value !in names.value ==>
          out == Failed(NameNotFound(args.firmwareName.value)))
    && (names.Ok? && args.firmwareName.Some? && args.firmwareName.value in names.value ==>
          var name := args.firmwareName.value;
          var versions := ListFirmwareVersions(bucket, name);
          && (versions.Err? ==> out == Failed(VersionsNotFetched(versions.error)))
          && (versions.Ok? && args.list && args.firmwareVersion.None? ==>
                out.Exit? && IsListing(out.lines, VersionsHeader(|versions.value|, name), versions.value))
          && (versions.Ok? && args.list && args.firmwareVersion.Some? ==> out == Failed(InvalidList))
          && (versions.Ok? && !args.list && args.firmwareVersion.None? ==> out == Failed(VersionMissing))
          && (versions.Ok? && !args.list && args.firmwareVersion.Some? &&
              args.firmwareVersion.value !in versions.value ==>
                out == Failed(VersionNotFound(args.firmwareVersion.value)))
          && (NamesListedTarget(args, bucket) ==>
                ProbeStage(args, attached, name, args.firmwareVersion.value, out)))
  }

  /** What gets flashed was asked for and is in the bucket: a listed name, a listed
      version of it, folders `name/version/` holding at least one key, and an attached
      probe with the requested serial number. */
  predicate SafeFlash(args: Args, bucket: Bucket, attached: seq<ProbeInfo>, out: Ending)
    requires out.Flash?
  {
    && NamesListedTarget(args, bucket)
    && out.name == args.firmwareName.value && out.version == args.firmwareVersion.value
    && bucket.Bucket? && '/' !in out.name && '/' !in out.version
    && (exists k :: k in bucket.keys && IsPrefix(out.name + "/" + out.version + "/", k))
    && out.probe in attached
    && (args.probe.Some? ==> out.probe.serialNumber == args.probe)
    && out.connectUnderReset == args.connectUnderReset
  }

  /** The steps of `main` after the storage client exists. */
  method SelectTarget(args: Args, bucket: Bucket, attached: seq<ProbeInfo>) returns (out: Ending)
    ensures ChoosesTarget(args, bucket, attached, out)
    ensures out.Flash? <==>
              && NamesListedTarget(args, bucket) && attached != []
              && (args.probe.Some? ==> FindProbe(attached, args.probe.value).Found?)
    ensures out.Flash? ==> SafeFlash(args, bucket, attached, out)
    ensures out != Failed(NoFirmware)
  {
    var names := ListFirmwares(bucket);
    if names.Err? {
      return Failed(NamesNotFetched(names.error));
    }
    var firmwares := names.value;
    if firmwares == [] {
      // `list_firmwares` never succeeds with an empty list
      assert false;
      return Failed(NoFirmware);
    }
    if args.list && args.firmwareName.None? {
      var lines := ListItems(NamesHeader(|firmwares|), firmwares);
      return Exit(lines);
    }
    if args.firmwareName.None? {
      return Failed(NameMissing);
    }
    var name := args.firmwareName.value;
    if name !in firmwares {
      return Failed(NameNotFound(name));
    }
    var listed := ListFirmwareVersions(bucket, name);
    if listed.Err? {
      return Failed(VersionsNotFetched(listed.error));
    }
    var versions := listed.value;
    if args.list && args.firmwareVersion.None? {
      var lines := ListItems(VersionsHeader(|versions|, name), versions);
      return Exit(lines);
    } else if args.list && args.firmwareVersion.Some? {
      return Failed(InvalidList);
    }
    if args.firmwareVersion.None? {
      return Failed(VersionMissing);
    }
    var version := args.firmwareVersion.value;
    if version !in versions {
      return Failed(VersionNotFound(version));
    }

    var probes := GetProbes(attached);
    if probes.Err? {
      return Failed(NoProbes);
    }
    var probe: ProbeInfo;
    match args.probe {
      case None =>
        probe := probes.value[0];
      case Some(serial) =>
        match FindProbe(probes.value, serial) {
          case Found(i) =>
            probe := probes.value[i];
          case MissingSerial(_) =>
            return Panicked;
          case NotFound =>
            return Failed(ProbeNotFound);
        }
    }
    FirmwareNames(bucket.keys, name);
    FirmwareVersions(bucket.keys, name, version);
    out := Flash(name, version, probe, args.connectUnderReset);
  }

  // ---------------------------------------------------------------------------
  // The whole run
  // ---------------------------------------------------------------------------

  /** What a run finds outside the program: the attached probes, whether each
      file-system step works, the lines typed on stdin, the clock, and the bucket
      the storage client reaches. `configDirFails` stands for `BaseDirs::new` failing
      before it has made the credentials directory, `cacheDirFails` for it failing
      afterwards, on the firmware cache directory. */
  datatype Environment = Environment(
    attached: seq<ProbeInfo>,
    configDirFails: bool,
    cacheDirFails: bool,
    clearCacheFails: bool,
    stdin: seq<LineInput>,
    nowSeconds: I64,
    nowUtc: UtcTime,
    writeFails: bool,
    storageInitFails: bool,
    bucket: Bucket)

  /** The directory holds exactly one file, a record of `creds`. */
  ghost predicate HoldsOnly(files: map<string, Entry>, creds: Credentials) {
    exists f :: files == map[f := Record(creds)]
  }

  /** A directory read in full into one record holds just that record's file. */
  lemma SingleRecord(order: seq<string>, files: map<string, Entry>, records: seq<Credentials>)
    requires Visits(order, files) && forall f :: f in files ==> f in order
    requires Collect(EntriesAt(order, files)) == Ok(records) && |records| == 1
    ensures files == map[order[0] := Record(records[0])]
  {
    assert files.Keys == {order[0]};
    assert EntriesAt(order, files)[0] == files[order[0]];
  }

  /** Lines 89-97 of `main`: with no saved credentials, read a record from standard
      input, save it, and read the directory again. The directory exists, so `add`
      has nothing to create. */
  method SaveFirst(mgr: CredentialsManager, env: Environment) returns (r: Result<Credentials, Failure>)
    requires mgr.dir == Files(map[])
    modifies mgr
    ensures var creds := FromCommandLine(env.stdin, env.nowSeconds);
            && (creds.Err? ==> r == Err(CredentialsNotRead(creds.error)) && mgr.dir == old(mgr.dir))
            && (creds.Ok? && env.writeFails ==>
                  r == Err(CredentialsNotSaved(CredentialsFileNotWritten)) && mgr.dir == old(mgr.dir))
            && (creds.Ok? && !env.writeFails ==>
                  r == Ok(creds.value) && mgr.dir == Files(map[FileName(env.nowUtc) := WriteToPath(creds.value)]))
  {
    var creds := FromCommandLine(env.stdin, env.nowSeconds);
    if creds.Err? {
      return Err(CredentialsNotRead(creds.error));
    }
    BuiltNameNonEmpty(env.stdin, env.nowSeconds);
    var added := mgr.Add(creds.value, env.nowUtc, false, env.writeFails);
    if added.Fail? {
      return Err(CredentialsNotSaved(added.error));
    }
    r := Reload(mgr, FileName(env.nowUtc), creds.value);
  }

  /** `all_creds = creds_manager.get_all()?` right after the first save: the
      directory holds just the file written, so the reload gives back its record
      (and the count check that follows passes). */
  method Reload(mgr: CredentialsManager, f: string, creds: Credentials) returns (r: Result<Credentials, Failure>)
    requires mgr.dir == Files(map[f := Record(creds)])
    ensures r == Ok(creds)
  {
    var reloaded, order := mgr.GetAll();
    assert reloaded.Ok?;
    SingleRecord(order, mgr.dir.files, reloaded.value);
    assert order[0] in map[f := Record(creds)];
    r := Ok(reloaded.value[0]);
  }

  /** What loading the credentials (lines 84-103 of `main`) does to a directory
      `start` that exists: `dir` is the directory afterwards, `creds` what standard
      input would yield, and `r` the record used or the failure. */
  ghost predicate Loaded(start: Dir, dir: Dir, env: Environment, creds: Result<Credentials, Error>,
                         r: Result<Credentials, Failure>) {
    && (start.Unlistable? ==> r == Err(CredentialsNotLoaded(CredentialsDirUnreadable)) && dir == start)
    && (start.Files? && !AllRecords(start.files) ==>
          && dir == start
          && r.Err? && r.error.CredentialsNotLoaded? && BadFileError(start.files, r.error.cause))
    && (start.Files? && AllRecords(start.files) && |start.files| > 1 ==>
          r == Err(MultipleCredentials) && dir == start)
    && (start.Files? && AllRecords(start.files) && |start.files| == 1 ==> r.Ok? && dir == start)
    && (start == Files(map[]) ==>
          && (creds.Err? ==> r == Err(CredentialsNotRead(creds.error)) && dir == start)
          && (creds.Ok? && env.writeFails ==>
                r == Err(CredentialsNotSaved(CredentialsFileNotWritten)) && dir == start)
          && (creds.Ok? && !env.writeFails ==>
                r == Ok(creds.value) && dir == Files(map[FileName(env.nowUtc) := WriteToPath(creds.value)])))
    && (r.Ok? ==> dir.Files? && HoldsOnly(dir.files, r.value))
  }

  /** Lines 84-103 of `main`: the saved credentials, asked for on standard input
      and saved when there are none, refused when there are several. */
  method LoadCredentials(mgr: CredentialsManager, env: Environment) returns (r: Result<Credentials, Failure>)
    requires !mgr.dir.Missing?
    modifies mgr
    ensures Loaded(old(mgr.dir), mgr.dir, env, FromCommandLine(env.stdin, env.nowSeconds), r)
  {
    var all, order := mgr.GetAll();
    if all.Err? {
      return Err(CredentialsNotLoaded(all.error));
    }
    var records := all.value;
    if records == [] {
      assert mgr.dir.files == map[];
      r := SaveFirst(mgr, env);
      return;
    }
    if |records| > 1 {
      return Err(MultipleCredentials);
    }
    SingleRecord(order, mgr.dir.files, records);
    r := Ok(records[0]);
  }

  /** What the rest of `main` (lines 84-214) does from a credentials directory holding
      `files`: `dir` is the directory afterwards, `creds` what standard input would
      yield, and `out` the end of the run. */
  predicate FromFiles(files: map<string, Entry>, dir: Dir, args: Args, env: Environment,
                      creds: Result<Credentials, Error>, out: Ending) {
    && (!AllRecords(files) ==>
          && dir == Files(files)
          && out.Failed? && out.failure.CredentialsNotLoaded? && BadFileError(files, out.failure.cause))
    && (AllRecords(files) && |files| > 1 ==> out == Failed(MultipleCredentials) && dir == Files(files))
    && (AllRecords(files) && |files| == 1 ==> dir == Files(files))
    && (files == map[] && creds.Err? ==> out == Failed(CredentialsNotRead(creds.error)) && dir == Files(files))
    && (files == map[] && creds.Ok? && env.writeFails ==>
          out == Failed(CredentialsNotSaved(CredentialsFileNotWritten)) && dir == Files(files))
    && (files == map[] && creds.Ok? && !env.writeFails ==>
          dir == Files(map[FileName(env.nowUtc) := WriteToPath(creds.value)]))
    && (AllRecords(files) && |files| <= 1 && (files == map[] ==> creds.Ok? && !env.writeFails) ==>
          if env.storageInitFails then out == Failed(StorageNotInitialised)
          else ChoosesTarget(args, env.bucket, env.attached, out))
    && (out.Flash? ==> && dir.Files? && |dir.files| == 1 && AllRecords(dir.files)
                       && SafeFlash(args, env.bucket, env.attached, out))
  }

  /** The same from a credentials directory `start`, which may be impossible to list. */
  predicate FromCredentials(start: Dir, dir: Dir, args: Args, env: Environment,
                            creds: Result<Credentials, Error>, out: Ending) {
    && (start.Unlistable? ==> out == Failed(CredentialsNotLoaded(CredentialsDirUnreadable)) && dir == start)
    && (start.Files? ==> FromFiles(start.files, dir, args, env, creds, out))
  }

  /** A run whose credentials fail to load ends with that failure. */
  lemma NotLoadedEnds(start: Dir, dir: Dir, args: Args, env: Environment,
                      typed: Result<Credentials, Error>, failure: Failure)
    requires Loaded(start, dir, env, typed, Err(failure))
    ensures FromCredentials(start, dir, args, env, typed, Failed(failure))
  {
  }

  /** A run whose credentials load continues with the storage client and the choice
      of the target, from a directory holding that one record. */
  lemma LoadedEnds(start: Dir, dir: Dir, args: Args, env: Environment,
                   typed: Result<Credentials, Error>, creds: Credentials, out: Ending)
    requires Loaded(start, dir, env, typed, Ok(creds))
    requires env.storageInitFails ==> out == Failed(StorageNotInitialised)
    requires !env.storageInitFails ==> ChoosesTarget(args, env.bucket, env.attached, out)
    requires out.Flash? ==> SafeFlash(args, env.bucket, env.attached, out)
    ensures FromCredentials(start, dir, args, env, typed, out)
  {
  }

  /** Lines 84-214 of `main`, once the credentials directory exists. */
  method RunFromCredentials(args: Args, mgr: CredentialsManager, env: Environment) returns (out: Ending)
    requires !mgr.dir.Missing?
    modifies mgr
    ensures FromCredentials(old(mgr.dir), mgr.dir, args, env, FromCommandLine(env.stdin, env.nowSeconds), out)
  {
    ghost var start := mgr.dir;
    ghost var typed := FromCommandLine(env.stdin, env.nowSeconds);
    var creds := LoadCredentials(mgr, env);
    if creds.Err? {
      NotLoadedEnds(start, mgr.dir, args, env, typed, creds.error);
      return Failed(creds.error);
    }
    if env.storageInitFails {
      out := Failed(StorageNotInitialised);
    } else {
      out := SelectTarget(args, env.bucket, env.attached);
    }
    LoadedEnds(start, mgr.dir, args, env, typed, creds.value, out);
  }

  /** `main`, with `mgr` the credentials manager over the configuration directory. */
  method Run(args: Args, mgr: CredentialsManager, env: Environment) returns (out: Ending)
    modifies mgr
    ensures args.listProbes ==> mgr.dir == old(mgr.dir)
    ensures args.listProbes && env.attached == [] ==> out == Failed(NoProbes)
    ensures args.listProbes && env.attached != [] ==> out.Exit? && IsProbeListing(out.lines, env.attached)
    ensures !args.listProbes && env.configDirFails ==> out == Failed(BaseDirsUnavailable) && mgr.dir == old(mgr.dir)
    ensures !args.listProbes && !env.configDirFails && env.cacheDirFails ==>
              out == Failed(BaseDirsUnavailable) && mgr.dir == Created(old(mgr.dir))
    ensures !args.listProbes && !env.configDirFails && !env.cacheDirFails && args.clearCache && env.clearCacheFails ==>
              out == Failed(CacheNotCleared) && mgr.dir == Created(old(mgr.dir))
    ensures !args.listProbes && !env.configDirFails && !env.cacheDirFails && !(args.clearCache && env.clearCacheFails) ==>
              FromCredentials(Created(old(mgr.dir)), mgr.dir, args, env, FromCommandLine(env.stdin, env.nowSeconds), out)
  {
    if args.listProbes {
      var probes := GetProbes(env.attached);
      if probes.Err? {
        return Failed(NoProbes);
      }
      var lines := ListProbes(probes.value);
      return Exit(lines);
    }
    if env.configDirFails {
      return Failed(BaseDirsUnavailable);
    }
    mgr.dir := Created(mgr.dir);
    if env.cacheDirFails {
      return Failed(BaseDirsUnavailable);
    }
    if args.clearCache && env.clearCacheFails {
      return Failed(CacheNotCleared);
    }
    out := RunFromCredentials(args, mgr, env);
  }
}
