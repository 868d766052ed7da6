/**
  The whole way of a key: derived on the host, spelled on a command line, parsed,
  taken through the registry and the ISD channel to the rotation, wrapped,
  installed on the card, written to the key file and read back; and what the
  script says of it.
 */
module Provision {
  import opened Prelude
  import opened Keys
  import Hex
  import KeyFile
  import KeyFileWrite
  import PutKey
  import Rotation
  import opened Cli
  import opened Derive
  import opened RotateCommand
  import Registry
  import Dispatch

  /** What the CLI makes of the argument vector that `run_rotation` passes. */
  function ParsedArgs(app: string, extra: seq<Unit>, keys: KeySet, keyOut: string, dryRun: bool): Args {
    ArgsOf(RotationArgv(app, Render(extra), keys, keyOut, dryRun))
  }

  predicate Mentions(units: seq<Unit>, k: string) {
    exists i :: 0 <= i < |units| && units[i].Sets(k).Some?
  }

  /** The run is a dry one if it was asked for, or if the extra arguments say so. */
  lemma DryRunWhenAsked(app: string, extra: seq<Unit>, keys: KeySet, keyOut: string, dryRun: bool)
    requires WholeOptions(extra)
    ensures ParsedArgs(app, extra, keys, keyOut, dryRun).Flag("--dry-run") <==> dryRun || Mentions(extra, "--dry-run")
  {
    ArgvUnits(app, extra, keys, keyOut, dryRun);
    RotationMentions(keys, keyOut, dryRun);
    FlagOfConcat(extra, RotationUnits(keys, keyOut, dryRun), "--dry-run");
  }

  lemma RotationMentions(keys: KeySet, keyOut: string, dryRun: bool)
    ensures Mentions(RotationUnits(keys, keyOut, dryRun), "--dry-run") <==> dryRun
  {
    var v := RotationUnits(keys, keyOut, dryRun);
    var last := v[|v| - 1];
    assert forall i :: 0 <= i < |v| - 1 ==> v[i].Sets("--dry-run").None?;
    assert last.Sets("--dry-run").Some? <==> dryRun;
  }

  lemma FlagOfConcat(u: seq<Unit>, v: seq<Unit>, k: string)
    ensures Meaning(u + v).Flag(k) <==> Mentions(u, k) || Mentions(v, k)
  {
    var units := u + v;
    MentionedIsSet(units, k);
    if Mentions(u, k) {
      var i :| 0 <= i < |u| && u[i].Sets(k).Some?;
      assert units[i].Sets(k).Some?;
    }
    if Mentions(v, k) {
      var i :| 0 <= i < |v| && v[i].Sets(k).Some?;
      assert units[|u| + i].Sets(k).Some?;
    }
  }

  lemma {:induction false} MentionedIsSet(units: seq<Unit>, k: string)
    ensures k in Options(units) <==> Mentions(units, k)
  {
    if units != [] {
      var init, last := units[..|units| - 1], units[|units| - 1];
      MentionedIsSet(init, k);
      if Mentions(init, k) {
        var i :| 0 <= i < |init| && init[i].Sets(k).Some?;
        assert units[i].Sets(k).Some?;
      }
    }
  }

  /** The exit code with which the CLI ends a run. */
  function ExitCode(outcome: Outcome): int {
    if outcome.Exit? then outcome.code else 1
  }

  /** What a real run that reports 0 leaves in the key file. */
  predicate Saved(scan: Hex.Scan, files: KeyFileWrite.Disk, path: string, keys: KeySet) {
    path in files && files[path] == ItemsText(Items(keys)) && KeyFile.ReadText(scan, files[path]) == Some(keys)
  }

  lemma TextIsSaved(scan: Hex.Scan, files: KeyFileWrite.Disk, path: string, keys: KeySet)
    requires path in files && files[path] == KeyFile.Text(keys)
    ensures Saved(scan, files, path, keys)
  {
    SameKeyFile(keys);
    KeyFile.ReadAfterWrite(scan, keys);
  }

  /** What the CLI reads in the argument vector for these keys. */
  lemma ArgvMeans(scan: Hex.Scan, app: string, extra: seq<Unit>, keys: KeySet, keyOut: string, dryRun: bool, a: Args)
    requires WholeOptions(extra) && a == ParsedArgs(app, extra, keys, keyOut, dryRun)
    ensures a.group == "se" && a.command == "rotate-scp03" && KeysOf(scan, a) == Some(keys)
    ensures a.Flag("--dry-run") <==> dryRun || Mentions(extra, "--dry-run")
    ensures dryRun || a.Flag("--confirm")
    ensures keyOut != "" ==> a.Get("--key-out") == keyOut
  {
    DryRunWhenAsked(app, extra, keys, keyOut, dryRun);
    ArgvDelivers(scan, app, extra, keys, keyOut, dryRun);
  }

  function ArgsOf(argv: seq<string>): Args {
    Meaning(Units(From(argv, 1)))
  }

  /**
    What surrounds one process of the CLI: the port in the environment, what
    becomes of its channel, what happens around the rotation, and the disk at
    which it is killed, counted over those it passes through; None if it is left
    to end. To be killed before the card gets the command is to lose the command.
   */
  datatype Circumstances = Circumstances(portEnv: Option<string>, connection: Dispatch.Conditions,
                                         around: Surroundings, killed: Option<nat>)
  {
    predicate Connects() {
      !connection.openFails && !connection.keyStoreFails
    }
  }

  /** The card once a real run to `keys` has got as far as it can. */
  function CardLeft(w: Station, h: PutKey.Host, scan: Hex.Scan, keys: KeySet, x: Circumstances): PutKey.Card {
    if x.Connects() then w.CardAfter(h, scan, keys, x.around) else w.card
  }

  predicate Confirmed(w: Station, h: PutKey.Host, scan: Hex.Scan, keys: KeySet, x: Circumstances) {
    x.Connects() && w.Confirms(h, scan, keys, x.around)
  }

  /** The run gets to its end, and everything on the way succeeds. */
  predicate Succeeds(w: Station, h: PutKey.Host, scan: Hex.Scan, keys: KeySet, path: string, x: Circumstances) {
    x.Connects() && x.killed.None? && w.Completes(h, scan, keys, path, x.around)
  }

  /** The exit code that the shell sees: a process that is killed has a negative one. */
  predicate Reports(rc: int, succeeds: bool, x: Circumstances) {
    if x.killed.Some? then rc < 0 && !succeeds else rc == if succeeds then 0 else 1
  }

  /** The disk that a process leaves: its last, or the one at which it is killed. */
  function DiskLeft(before: KeyFileWrite.Disk, recorded: seq<KeyFileWrite.Disk>, end: KeyFileWrite.Disk,
                    killed: Option<nat>): KeyFileWrite.Disk
  {
    var row := [before] + recorded + [end];
    if killed.Some? && killed.value < |row| then row[killed.value] else end
  }

  ghost predicate EndsWith(before: KeyFileWrite.Disk, e: Surroundings, path: string, keys: KeySet,
                           now: KeyFileWrite.Disk, saves: bool)
  {
    if saves
    then KeyFileWrite.CrashSafe(before, now, path, KeyFile.Text(keys), path in before && !e.write.openRead)
    else now == before
  }

  /** The disks of a save are crash-safe; without one nothing changes. */
  ghost predicate GoesThrough(before: KeyFileWrite.Disk, e: Surroundings, path: string, keys: KeySet,
                              recorded: seq<KeyFileWrite.Disk>, end: KeyFileWrite.Disk, saves: bool)
  {
    if saves then SafelySaves(before, e, path, keys, recorded + [end], KeyFileWrite.CanSave(before, path, e.write))
    else recorded == [] && end == before
  }

  lemma KilledSafely(before: KeyFileWrite.Disk, e: Surroundings, path: string, keys: KeySet,
                     recorded: seq<KeyFileWrite.Disk>, end: KeyFileWrite.Disk, left: KeyFileWrite.Disk,
                     killed: Option<nat>, saves: bool)
    requires GoesThrough(before, e, path, keys, recorded, end, saves)
    requires left == DiskLeft(before, recorded, end, killed)
    ensures EndsWith(before, e, path, keys, left, saves)
    ensures killed == Some(0) ==> left == before
    ensures killed.None? && saves && KeyFileWrite.CanSave(before, path, e.write)
            ==> KeyFileWrite.Holds(left, path, KeyFile.Text(keys))
  {
    var rest := recorded + [end];
    assert rest[|rest| - 1] == end;
    assert forall k :: 0 < k < |rest| + 1 ==> ([before] + recorded + [end])[k] == rest[k - 1];
    assert saves ==> EndsWith(before, e, path, keys, before, saves);
  }

  /** The command on its own, left to end; `recorded` are the disks it passes through on the way to its last. */
  method RunReal(d: Device, h: PutKey.Host, scan: Hex.Scan, a: Args, e: Surroundings)
    returns (outcome: Outcome, recorded: seq<KeyFileWrite.Disk>)
    requires Commits(scan, a)
    modifies d, d.fs
    ensures d.card == old(d.Now()).CardAfter(h, scan, KeysOf(scan, a).value, e)
    ensures outcome == Exit(0) <==> old(d.Now()).Completes(h, scan, KeysOf(scan, a).value, OutPath(a, e), e)
    ensures outcome.Exit? <==> old(d.Now()).Confirms(h, scan, KeysOf(scan, a).value, e)
    ensures outcome.Thrown? || outcome == Exit(0) || outcome == Exit(1)
    ensures GoesThrough(old(d.fs.files), e, OutPath(a, e), KeysOf(scan, a).value, recorded, d.fs.files, outcome.Exit?)
  {
    var before := d.fs.crashPoints;
    outcome := d.Run(h, scan, a, e);
    recorded := d.fs.crashPoints[|before|..];
  }

  /** What a real run over an open channel leaves and reports. */
  ghost predicate Killable(w: Station, after: Station, h: PutKey.Host, scan: Hex.Scan, keys: KeySet, path: string,
                           e: Surroundings, killed: Option<nat>, rc: int)
  {
    && after == w.(card := w.CardAfter(h, scan, keys, e), disk := after.disk)
    && (if killed.Some? then rc < 0 else rc == if w.Completes(h, scan, keys, path, e) then 0 else 1)
    && (rc == 0 ==> KeyFileWrite.Holds(after.disk, path, KeyFile.Text(keys)))
    && (killed == Some(0) ==> after.disk == w.disk)
    && EndsWith(w.disk, e, path, keys, after.disk, w.Confirms(h, scan, keys, e))
  }

  /** From what the command did to what is left of it. */
  lemma KilledLeaves(w: Station, after: Station, h: PutKey.Host, scan: Hex.Scan, keys: KeySet, path: string,
                     e: Surroundings, killed: Option<nat>, outcome: Outcome, recorded: seq<KeyFileWrite.Disk>,
                     end: KeyFileWrite.Disk)
    requires outcome == Exit(0) <==> w.Completes(h, scan, keys, path, e)
    requires outcome.Exit? <==> w.Confirms(h, scan, keys, e)
    requires outcome.Thrown? || outcome == Exit(0) || outcome == Exit(1)
    requires GoesThrough(w.disk, e, path, keys, recorded, end, outcome.Exit?)
    requires after == w.(card := w.CardAfter(h, scan, keys, e), disk := DiskLeft(w.disk, recorded, end, killed))
    ensures Killable(w, after, h, scan, keys, path, e, killed, if killed.Some? then -9 else ExitCode(outcome))
  {
    KilledSafely(w.disk, e, path, keys, recorded, end, after.disk, killed, outcome.Exit?);
  }

  /** The command on its own, left to end or killed. */
  method RunKilled(d: Device, h: PutKey.Host, scan: Hex.Scan, a: Args, e: Surroundings, killed: Option<nat>)
    returns (rc: int)
    requires Commits(scan, a)
    modifies d, d.fs
    ensures Killable(old(d.Now()), d.Now(), h, scan, KeysOf(scan, a).value, OutPath(a, e), e, killed, rc)
  {
    ghost var w := d.Now();
    var before := d.fs.files;
    var outcome, recorded := RunReal(d, h, scan, a, e);
    var end := d.fs.files;
    d.fs.files := DiskLeft(before, recorded, end, killed);
    KilledLeaves(w, d.Now(), h, scan, KeysOf(scan, a).value, OutPath(a, e), e, killed, outcome, recorded, end);
    rc := if killed.Some? then -9 else ExitCode(outcome);
  }

  /** Only a dry run: nothing changes, wherever it is killed. */
  method RunDry(d: Device, h: PutKey.Host, scan: Hex.Scan, a: Args, e: Surroundings, killed: Option<nat>)
    returns (rc: int)
    requires KeysOf(scan, a).Some? && a.Flag("--dry-run")
    modifies d, d.fs
    ensures d.card == old(d.card) && d.fs.files == old(d.fs.files)
    ensures if killed.Some? then rc < 0 else rc == if old(d.Now()).Ready(scan, e) then 0 else 1
  {
    var outcome := d.Run(h, scan, a, e);
    return if killed.Some? then -9 else ExitCode(outcome);
  }

  /** What a process asked for a rotation to these keys, dry or not, makes of `w`, and what it reports. */
  ghost predicate Leaves(w: Station, after: Station, h: PutKey.Host, scan: Hex.Scan, keys: KeySet, dryRun: bool,
                         path: string, x: Circumstances, rc: int)
  {
    if dryRun then
      after == w && Reports(rc, x.Connects() && x.killed.None? && w.Ready(scan, x.around), x)
    else
      && after == w.(card := CardLeft(w, h, scan, keys, x), disk := after.disk)
      && Reports(rc, Succeeds(w, h, scan, keys, path, x), x)
      && (rc == 0 ==> KeyFileWrite.Holds(after.disk, path, KeyFile.Text(keys)))
      && (x.killed == Some(0) ==> after.disk == w.disk)
      && EndsWith(w.disk, x.around, path, keys, after.disk, Confirmed(w, h, scan, keys, x))
  }

  /** The command with its channel open. */
  method RunConnected(d: Device, h: PutKey.Host, scan: Hex.Scan, a: Args, ghost keys: KeySet, x: Circumstances)
    returns (rc: int)
    requires KeysOf(scan, a) == Some(keys) && (a.Flag("--dry-run") || a.Flag("--confirm")) && x.Connects()
    modifies d, d.fs
    ensures Leaves(old(d.Now()), d.Now(), h, scan, keys, a.Flag("--dry-run"), OutPath(a, x.around), x, rc)
  {
    if a.Flag("--dry-run") {
      rc := RunDry(d, h, scan, a, x.around, x.killed);
    } else {
      rc := RunKilled(d, h, scan, a, x.around, x.killed);
    }
  }

  /** Without a channel nothing changes, and the process fails. */
  lemma NotConnected(w: Station, h: PutKey.Host, scan: Hex.Scan, keys: KeySet, dryRun: bool, path: string,
                     x: Circumstances)
    requires !x.Connects()
    ensures Leaves(w, w, h, scan, keys, dryRun, path, x, if x.killed.Some? then -9 else 1)
  {
  }

  /** `se rotate-scp03` in the registry gets the ISD channel. */
  lemma RotateTarget(argv: seq<string>, portEnv: Option<string>)
    requires ArgsOf(argv).group == "se" && ArgsOf(argv).command == "rotate-scp03"
    ensures var target := Dispatch.Target(Registry.COMMANDS, argv, portEnv);
            target.Some? && target.value.0 == Registry.ROTATE && target.value.1.Sss? && target.value.1.skipsApplet
  {
    Registry.RotateIsFound();
  }

  /** The one channel that skips the applet, for the one command; closed unless the process is killed. */
  predicate RotatesOverIsd(events: seq<Dispatch.Event>, killed: bool) {
    && |events| == (if killed then 2 else 3)
    && events[0].Open? && events[0].channel.Sss? && events[0].channel.skipsApplet
    && events[1] == Dispatch.Run(Registry.ROTATE, events[0].channel)
    && (!killed ==> events[2] == Dispatch.Close(events[0].channel))
  }

  /** `main` up to the command, for an argument vector that asks for a rotation. */
  method OpenFor(argv: seq<string>, x: Circumstances)
    returns (program: Dispatch.Program, running: Option<(Args, Registry.Command, Dispatch.Channel)>)
    requires ArgsOf(argv).group == "se" && ArgsOf(argv).command == "rotate-scp03"
    ensures fresh(program) && (running.Some? <==> x.Connects())
    ensures running.None? ==> |program.events| < 3 && Dispatch.OneChannel(program.events)
    ensures running.Some? ==> running.value.0 == ArgsOf(argv) && RotatesOverIsd(program.events, true)
                              && program.events[0].channel == running.value.2
  {
    var registry := new Registry.CommandRegistry.Standard();
    program := new Dispatch.Program();
    RotateTarget(argv, x.portEnv);
    running := program.Connect(argv, registry, x.portEnv, x.connection);
  }

  /**
    One process of the CLI, `main` and command together, on an argument vector
    that asks for a rotation to these keys: through the registry, over the one
    channel that skips the applet, to the card and the file.
   */
  method RunMain(d: Device, h: PutKey.Host, scan: Hex.Scan, argv: seq<string>, ghost keys: KeySet, x: Circumstances)
    returns (rc: int, events: seq<Dispatch.Event>)
    requires ArgsOf(argv).group == "se" && ArgsOf(argv).command == "rotate-scp03"
    requires KeysOf(scan, ArgsOf(argv)) == Some(keys)
    requires ArgsOf(argv).Flag("--dry-run") || ArgsOf(argv).Flag("--confirm")
    modifies d, d.fs
    ensures Leaves(old(d.Now()), d.Now(), h, scan, keys, ArgsOf(argv).Flag("--dry-run"),
                   OutPath(ArgsOf(argv), x.around), x, rc)
    ensures if x.Connects() then RotatesOverIsd(events, x.killed.Some?) else |events| < 3 && Dispatch.OneChannel(events)
  {
    var program, running := OpenFor(argv, x);
    if running.None? {
      NotConnected(d.Now(), h, scan, keys, ArgsOf(argv).Flag("--dry-run"), OutPath(ArgsOf(argv), x.around), x);
      return if x.killed.Some? then -9 else 1, program.events;
    }
    rc := RunConnected(d, h, scan, running.value.0, keys, x);
    if x.killed.None? {
      program.Disconnect(running.value.2);
    }
    events := program.events;
  }

  /** The file in which a rotation with these arguments saves its keys. */
  function PathFor(app: string, extra: seq<Unit>, keys: KeySet, keyOut: string, dryRun: bool, e: Surroundings): string {
    OutPath(ParsedArgs(app, extra, keys, keyOut, dryRun), e)
  }

  /** `run_rotation`: one process of the CLI on the argument vector for these keys. */
  method RunRotation(d: Device, h: PutKey.Host, scan: Hex.Scan, app: string, extra: seq<Unit>, keys: KeySet,
                     keyOut: string, dryRun: bool, x: Circumstances)
    returns (rc: int, events: seq<Dispatch.Event>)
    requires WholeOptions(extra)
    modifies d, d.fs
    ensures Leaves(old(d.Now()), d.Now(), h, scan, keys, dryRun || Mentions(extra, "--dry-run"),
                   PathFor(app, extra, keys, keyOut, dryRun, x.around), x, rc)
    ensures if x.Connects() then RotatesOverIsd(events, x.killed.Some?) else |events| < 3 && Dispatch.OneChannel(events)
  {
    ArgvMeans(scan, app, extra, keys, keyOut, dryRun, ParsedArgs(app, extra, keys, keyOut, dryRun));
    rc, events := RunMain(d, h, scan, RotationArgv(app, Render(extra), keys, keyOut, dryRun), keys, x);
  }

  // ---------- what the script says ----------

  /** The card the script talks to is a real one, and the CLI reads the DEK it holds. */
  ghost predicate OwnCard(w: Station, h: PutKey.Host, scan: Hex.Scan, e: Surroundings) {
    && PutKey.IsCard(w.chip, h.cipher) && Rotation.KeepsIv(h)
    && w.keyVersion == w.card.kvn && w.FileDek(scan, e) == Some(w.card.keys.dek)
  }

  /** The command gets to the card, and the card takes it. */
  predicate Arrives(w: Station, scan: Hex.Scan, x: Circumstances) {
    x.Connects() && w.Ready(scan, x.around) && !x.around.link.LosesCommand? && !x.around.refuses
  }

  /** After a real run: the exit code is not 0, so that the script prints "keys NOT changed", but they are. */
  predicate Misreports(before: PutKey.Card, after: PutKey.Card, rc: int) {
    rc != 0 && after != before
  }

  lemma MisreportsIff(w: Station, h: PutKey.Host, scan: Hex.Scan, keys: KeySet, path: string, x: Circumstances,
                      after: PutKey.Card, rc: int)
    requires OwnCard(w, h, scan, x.around) && after == CardLeft(w, h, scan, keys, x)
    requires Reports(rc, Succeeds(w, h, scan, keys, path, x), x)
    ensures after == if Arrives(w, scan, x) then PutKey.Card(w.card.kvn, keys) else w.card
    ensures rc == 0 <==> Arrives(w, scan, x) && x.around.link.Delivers? && x.killed.None?
                         && KeyFileWrite.CanSave(w.disk, path, x.around.write)
    ensures Misreports(w.card, after, rc)
            <==> Arrives(w, scan, x) && keys != w.card.keys
                 && (x.around.link.LosesResponse? || x.killed.Some?
                     || !KeyFileWrite.CanSave(w.disk, path, x.around.write))
  {
    InstallsAllOrNothing(w, h, scan, keys, x.around);
  }

  /** The file that the script names when it says that the CLI updated it. */
  function Where(keyOut: string, e: Surroundings): string {
    if keyOut != "" then keyOut
    else if e.keyPath.Some? then e.keyPath.value
    else "$EX_SSS_BOOT_SCP03_PATH"
  }

  /** An option that the later units do not set has the value that the earlier ones give it. */
  lemma {:induction false} NotSetLater(u: seq<Unit>, v: seq<Unit>, k: string)
    requires forall i :: 0 <= i < |v| ==> v[i].Sets(k).None?
    ensures Meaning(u + v).Get(k) == Meaning(u).Get(k)
  {
    if v == [] {
      assert u + v == u;
    } else {
      var init, last := v[..|v| - 1], v[|v| - 1];
      assert u + v == (u + init) + [last];
      NotSetLater(u, init, k);
      Snoc(u + init, last);
      assert last.Sets(k).None?;
    }
  }

  lemma NoKeyOut(keys: KeySet, dryRun: bool)
    ensures forall i :: 0 <= i < |RotationUnits(keys, "", dryRun)|
                        ==> RotationUnits(keys, "", dryRun)[i].Sets("--key-out").None?
  {
  }

  /** The file named is the one the CLI saves in, unless only the extra arguments name another. */
  lemma PathIsWhere(app: string, extra: seq<Unit>, keys: KeySet, keyOut: string, dryRun: bool, e: Surroundings)
    requires WholeOptions(extra) && e.keyPath.Some?
    ensures PathFor(app, extra, keys, keyOut, dryRun, e) == Where(keyOut, e)
            <==> keyOut != "" || Meaning(extra).Get("--key-out") == ""
                 || Meaning(extra).Get("--key-out") == e.keyPath.value
  {
    ArgvUnits(app, extra, keys, keyOut, dryRun);
    if keyOut != "" {
      DeliversRest(extra, keys, keyOut, dryRun);
    } else {
      NoKeyOut(keys, dryRun);
      NotSetLater(extra, RotationUnits(keys, "", dryRun), "--key-out");
    }
  }

  /**
    A real run of the script that ends well, by its exit code: the command was sent
    and answered, and the file that it names was written.
   */
  predicate SaysTrue(w: Station, h: PutKey.Host, scan: Hex.Scan, extra: seq<Unit>, keys: KeySet, path: string,
                     keyOut: string, x: Circumstances)
  {
    !Mentions(extra, "--dry-run") && Succeeds(w, h, scan, keys, path, x) && path == Where(keyOut, x.around)
  }

  /** "rotation OK; CLI updated" that file is printed for exit code 0 of a run not asked to be dry: when it is true. */
  lemma SaysTrueIff(w: Station, after: Station, h: PutKey.Host, scan: Hex.Scan, app: string, extra: seq<Unit>,
                    keys: KeySet, keyOut: string, x: Circumstances, rc: int)
    requires WholeOptions(extra) && rc == 0
    requires Leaves(w, after, h, scan, keys, Mentions(extra, "--dry-run"),
                    PathFor(app, extra, keys, keyOut, false, x.around), x, rc)
    ensures SaysTrue(w, h, scan, extra, keys, PathFor(app, extra, keys, keyOut, false, x.around), keyOut, x)
            <==> !Mentions(extra, "--dry-run")
                 && (keyOut != "" || Meaning(extra).Get("--key-out") == ""
                     || Meaning(extra).Get("--key-out") == x.around.keyPath.value)
    ensures x.around.keyPath.Some?
    ensures Mentions(extra, "--dry-run") ==> after == w
  {
    assert w.Ready(scan, x.around);
    PathIsWhere(app, extra, keys, keyOut, false, x.around);
  }

  /**
    The script's `--rotate`: derive the keys, run the CLI on them, report its exit
    code. With the card's own DEK in the file, a real run reports 0 if and only if
    the command arrived, its answer came back, the new file could be saved and the
    process was not killed; it then has left the derived keys on the card and, byte
    for byte as the script itself would write it, in the file. The message "keys
    NOT changed" for any other exit code is wrong if and only if the command
    arrived with new keys and its answer was lost, the file could not be saved, or
    the process was killed. The message "CLI updated" for exit code 0 is right if
    and only if the extra arguments ask for no dry run and name no other file.
   */
  method DeriveAndRotate(d: Device, h: PutKey.Host, scan: Hex.Scan, cmac: (seq<Byte>, seq<Byte>) -> Block,
                         masterKey: seq<Byte>, uid: seq<Byte>, app: string, extra: seq<Unit>, keyOut: string,
                         dryRun: bool, x: Circumstances)
    returns (rc: Result<int, string>)
    requires WholeOptions(extra)
    modifies d, d.fs
    ensures rc.Ok? <==> |masterKey| == 16 && |uid| == 18
    ensures rc.Err? ==> d.Now() == old(d.Now())
    ensures rc.Ok?
            ==> var keys := DeriveKeys(cmac, masterKey, uid).value;
                var path := PathFor(app, extra, keys, keyOut, dryRun, x.around);
                Leaves(old(d.Now()), d.Now(), h, scan, keys, dryRun || Mentions(extra, "--dry-run"), path, x, rc.value)
    ensures rc == Ok(0) && !dryRun
            ==> var keys := DeriveKeys(cmac, masterKey, uid).value;
                var path := PathFor(app, extra, keys, keyOut, dryRun, x.around);
                && (!Mentions(extra, "--dry-run") ==> Saved(scan, d.fs.files, path, keys))
                && (SaysTrue(old(d.Now()), h, scan, extra, keys, path, keyOut, x)
                    <==> !Mentions(extra, "--dry-run")
                         && (keyOut != "" || Meaning(extra).Get("--key-out") == ""
                             || Some(Meaning(extra).Get("--key-out")) == x.around.keyPath))
    ensures rc.Ok? && !dryRun && !Mentions(extra, "--dry-run") && OwnCard(old(d.Now()), h, scan, x.around)
            ==> var keys := DeriveKeys(cmac, masterKey, uid).value;
                var path := PathFor(app, extra, keys, keyOut, dryRun, x.around);
                && (rc == Ok(0) ==> d.card == PutKey.Card(old(d.card).kvn, keys))
                && (Misreports(old(d.card), d.card, rc.value)
                    <==> Arrives(old(d.Now()), scan, x) && keys != old(d.card).keys
                         && (x.around.link.LosesResponse? || x.killed.Some?
                             || !KeyFileWrite.CanSave(old(d.fs.files), path, x.around.write)))
  {
    ghost var w := d.Now();
    var derived := DeriveKeys(cmac, masterKey, uid);
    if derived.Err? {
      return Err(derived.error);
    }
    var keys := derived.value;
    var code, events := RunRotation(d, h, scan, app, extra, keys, keyOut, dryRun, x);
    ghost var path := PathFor(app, extra, keys, keyOut, dryRun, x.around);
    if !dryRun {
      if code == 0 {
        SaysTrueIff(w, d.Now(), h, scan, app, extra, keys, keyOut, x, code);
      }
      if !Mentions(extra, "--dry-run") {
        if code == 0 {
          TextIsSaved(scan, d.fs.files, path, keys);
        }
        if OwnCard(w, h, scan, x.around) {
          MisreportsIff(w, h, scan, keys, path, x, d.card, code);
        }
      }
    }
    return Ok(code);
  }

  // ---------- runs that are misreported ----------

  /** A card with this cipher, whose keys are in the file. */
  function StationFor(h: PutKey.Host, held: KeySet): Station {
    Station((card: PutKey.Card, header: seq<Byte>, body: seq<Byte>, refuses: bool) =>
              PutKey.Process(h.cipher, card, header, body, refuses),
            1, PutKey.Card(1, held), map["keys" := KeyFile.Text(held)])
  }

  /** Nothing fails, except for what is lost on the link, and the process is killed or not. */
  function OnlyBut(link: Link, killed: Option<nat>): Circumstances {
    Circumstances(None, Dispatch.Conditions(false, false, false, None),
                  Surroundings(Some(0x33), Some("keys"), false, false, 3, false, link,
                               KeyFileWrite.Faults(false, false, false, false, false, 0, false, false)), killed)
  }

  /** The answer gets lost. */
  const ANSWER_LOST := OnlyBut(LosesResponse, None)

  /** The answer comes back, and the process is killed before it touches the disk. */
  const KILLED := OnlyBut(Delivers, Some(0))

  lemma ReadsDek(w: Station, scan: Hex.Scan, text: string, dek: Block, x: Circumstances)
    requires w.disk == map["keys" := text] && KeyFile.Find(scan, text, "DEK") == Some(dek)
    requires x == ANSWER_LOST || x == KILLED
    ensures w.FileDek(scan, x.around) == Some(dek) && w.Ready(scan, x.around)
  {
  }

  lemma CommandArrives(h: PutKey.Host, scan: Hex.Scan, held: KeySet, x: Circumstances)
    requires Rotation.KeepsIv(h) && (x == ANSWER_LOST || x == KILLED)
    ensures OwnCard(StationFor(h, held), h, scan, x.around) && Arrives(StationFor(h, held), scan, x)
  {
    KeyFile.ReadAfterWrite(scan, held);
    ReadsDek(StationFor(h, held), scan, KeyFile.Text(held), held.dek, x);
  }

  /**
    Real rotations that the script reports with "keys NOT changed", for any cipher
    and any keys that differ from the card's: the answer is lost, or the process is
    killed after it. The card holds the derived keys, which no file has.
   */
  method SaysNotChanged(h: PutKey.Host, scan: Hex.Scan, cmac: (seq<Byte>, seq<Byte>) -> Block, held: KeySet,
                        app: string, masterKey: seq<Byte>, uid: seq<Byte>, x: Circumstances)
    returns (rc: Result<int, string>, after: PutKey.Card, files: KeyFileWrite.Disk)
    requires Rotation.KeepsIv(h) && |masterKey| == 16 && |uid| == 18
    requires DeriveKeys(cmac, masterKey, uid) != Ok(held) && (x == ANSWER_LOST || x == KILLED)
    ensures rc.Ok? && Misreports(StationFor(h, held).card, after, rc.value)
    ensures Ok(after.keys) == DeriveKeys(cmac, masterKey, uid) && files == StationFor(h, held).disk
  {
    var w := StationFor(h, held);
    var fs := new KeyFileWrite.FileSystem(w.disk);
    var d := new Device(w.card, w.chip, fs, w.keyVersion);
    CommandArrives(h, scan, held, x);
    rc := DeriveAndRotate(d, h, scan, cmac, masterKey, uid, app, [], "", false, x);
    InstallsAllOrNothing(w, h, scan, DeriveKeys(cmac, masterKey, uid).value, x.around);
    after, files := d.card, fs.files;
  }
}
