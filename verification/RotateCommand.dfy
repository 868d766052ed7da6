/**
  `se rotate-scp03` as the program runs it: one run of rotateScp03 and
  RotateScp03Command::run over the card, the host and the disk.
 */
module RotateCommand {
  import opened Prelude
  import opened Keys
  import Hex
  import KeyFile
  import opened KeyFileWrite
  import opened PutKey
  import Rotation
  import opened Cli
  import opened Derive

  datatype RotateError =
    | NotConfirmed
    | BadKeyArgument
    | SecurityLevelTooLow
    | KeyPathNotSet
    | DekNotReadable
    | HostCryptoFailed
    | TransportFailed
    | ResponseTooShort
    | KeyCheckMismatch

  /** Exit code, or the exception that main turns into exit code 1. */
  datatype Outcome = Exit(code: int) | Thrown(error: RotateError) {
    function Code(): Option<int> {
      if Exit? then Some(code) else None
    }
  }

  /** What becomes of the command and its answer on the way. */
  datatype Link = LosesCommand | LosesResponse | Delivers

  /** What the surroundings do during one run. */
  datatype Surroundings = Surroundings(
    securityLevel: Option<Byte>, // None: no dynamic SCP03 context
    keyPath: Option<string>,     // $EX_SSS_BOOT_SCP03_PATH
    denied: bool,                // the key file cannot be opened for reading the DEK
    loadFails: bool,             // the host key store does not take the DEK
    cryptoFailsAt: nat,          // the key at which the host's crypto fails; none from 3 on
    refuses: bool,               // the card refuses for reasons of its own
    link: Link,
    write: Faults
  )

  /** The three keys given on the command line, if all three are well formed. */
  function KeysOf(scan: Hex.Scan, a: Args): Option<KeySet> {
    var enc :- Key16(scan, a, "--enc");
    var mac :- Key16(scan, a, "--mac");
    var dek :- Key16(scan, a, "--dek");
    Some(KeySet(enc, mac, dek))
  }

  method ParseKeys(scan: Hex.Scan, a: Args) returns (r: Option<KeySet>)
    ensures r == KeysOf(scan, a)
  {
    var enc :- ParseKey16(scan, a, "--enc");
    var mac :- ParseKey16(scan, a, "--mac");
    var dek :- ParseKey16(scan, a, "--dek");
    return Some(KeySet(enc, mac, dek));
  }

  /** `--key-out`, else the environment's key file. */
  function OutPath(a: Args, e: Surroundings): string {
    if a.Get("--key-out") != "" then a.Get("--key-out")
    else if e.keyPath.Some? then e.keyPath.value
    else ""
  }

  /** The operator has confirmed, and gave three well-formed keys. */
  predicate Commits(scan: Hex.Scan, a: Args) {
    !a.Flag("--dry-run") && a.Flag("--confirm") && KeysOf(scan, a).Some?
  }

  /** What a run finds: the chip with its card, the version it is to replace, and the disk. */
  datatype Station = Station(chip: Chip, keyVersion: Byte, card: Card, disk: Disk) {
    /** The DEK that the environment's key file offers. */
    function FileDek(scan: Hex.Scan, e: Surroundings): Option<Block> {
      if e.keyPath.None? || e.keyPath.value == "" || e.denied || e.keyPath.value !in disk then None
      else
        var dek := KeyFile.Find(scan, disk[e.keyPath.value], "DEK");
        if dek.None? then None else Some(dek.value)
    }

    /** All that must hold before the one PUT KEY command goes out. */
    predicate Ready(scan: Hex.Scan, e: Surroundings) {
      e.securityLevel == Some(0x33) && FileDek(scan, e).Some? && !e.loadFails && e.cryptoFailsAt >= 3
    }

    /** What the card does with the command that offers it `keys`. */
    function Answer(h: Host, scan: Hex.Scan, keys: KeySet, e: Surroundings): (Card, seq<Byte>)
      requires FileDek(scan, e).Some?
    {
      chip(card, Header(keyVersion), Body(h, FileDek(scan, e).value, keyVersion, keys), e.refuses)
    }

    /** The card once a run that was to install `keys` has got as far as it can. */
    function CardAfter(h: Host, scan: Hex.Scan, keys: KeySet, e: Surroundings): Card {
      if Ready(scan, e) && !e.link.LosesCommand? then Answer(h, scan, keys, e).0 else card
    }

    /** The command for `keys` goes out, and exactly the expected echo comes back. */
    predicate Confirms(h: Host, scan: Hex.Scan, keys: KeySet, e: Surroundings) {
      && Ready(scan, e) && e.link.Delivers?
      && Accepts(Answer(h, scan, keys, e).1, Echo(h.cipher, keyVersion, keys))
    }

    /** The rotation to `keys` is confirmed, and the new key file gets to its place. */
    predicate Completes(h: Host, scan: Hex.Scan, keys: KeySet, path: string, e: Surroundings) {
      Confirms(h, scan, keys, e) && CanSave(disk, path, e.write)
    }

    /** The exit code of a run that has its keys; None if it throws. */
    function ExitCode(h: Host, scan: Hex.Scan, keys: KeySet, path: string, dryRun: bool, e: Surroundings): Option<int> {
      if dryRun then if Ready(scan, e) then Some(0) else None
      else if Completes(h, scan, keys, path, e) then Some(0)
      else if Confirms(h, scan, keys, e) then Some(1)
      else None
    }

    /**
      To the PUT KEY command for these keys under this DEK, the chip answers with the
      key version and the three check values, perhaps more, and 90 00 at the end.
     */
    ghost predicate AnswersWithChecks(h: Host, dek: Block, keys: KeySet, refuses: bool) {
      var answer := chip(card, [0x80, 0xD8, keyVersion, keyVersion % 128 + 128], Body(h, dek, keyVersion, keys),
                         refuses).1;
      var checks := [keyVersion] + h.cipher.encrypt(keys.enc, ONES)[..3] + h.cipher.encrypt(keys.mac, ONES)[..3]
                    + h.cipher.encrypt(keys.dek, ONES)[..3];
      |answer| >= 12 && answer[..10] == checks && answer[|answer| - 2..] == [0x90, 0x00]
    }
  }

  lemma ReadyIs(w: Station, scan: Hex.Scan, e: Surroundings)
    ensures w.Ready(scan, e) ==> e.securityLevel == Some(0x33)
  {
  }

  /** Whatever the chip: a rotation is confirmed only at security level 0x33, by the right check values. */
  lemma ConfirmedByChecks(w: Station, h: Host, scan: Hex.Scan, keys: KeySet, e: Surroundings)
    requires w.Confirms(h, scan, keys, e)
    ensures e.securityLevel == Some(0x33)
    ensures w.FileDek(scan, e).Some? && w.AnswersWithChecks(h, w.FileDek(scan, e).value, keys, e.refuses)
  {
    HeaderOctets(w.keyVersion);
    AcceptedOctets(w.Answer(h, scan, keys, e).1, h.cipher, w.keyVersion, keys);
  }

  /**
    With the card's own DEK in the file, the card ends with exactly the new keys
    at its old version or unchanged, and the run takes the first for true only
    when the answer came back.
   */
  lemma InstallsAllOrNothing(w: Station, h: Host, scan: Hex.Scan, keys: KeySet, e: Surroundings)
    requires IsCard(w.chip, h.cipher) && Rotation.KeepsIv(h)
    requires w.keyVersion == w.card.kvn && w.FileDek(scan, e) == Some(w.card.keys.dek)
    ensures w.CardAfter(h, scan, keys, e)
            == if w.Ready(scan, e) && !e.link.LosesCommand? && !e.refuses then Card(w.card.kvn, keys) else w.card
    ensures w.Confirms(h, scan, keys, e) <==> w.Ready(scan, e) && e.link.Delivers? && !e.refuses
  {
    Rotation.CommandInstallsTarget(h, w.card, keys, e.refuses);
  }

  /**
    Every one of these disks is a safe point of a save of `keys` over `before`;
    the last has the new file if the save is done.
   */
  ghost predicate SafelySaves(before: Disk, e: Surroundings, path: string, keys: KeySet, disks: seq<Disk>, done: bool) {
    && AllCrashSafe(before, disks, path, KeyFile.Text(keys), path in before && !e.write.openRead)
    && (done ==> disks != [] && Holds(disks[|disks| - 1], path, KeyFile.Text(keys)))
  }

  class Device {
    var card: Card
    const chip: Chip
    const fs: FileSystem
    const keyVersion: Byte       // pStatic_ctx->keyVerNo
    var hostDek: Option<Block>   // pStatic_ctx->Dek
    var commands: nat            // PUT KEY commands sent
    var printed: seq<(string, string, string)>

    constructor (card: Card, chip: Chip, fs: FileSystem, keyVersion: Byte)
      ensures this.card == card && this.chip == chip && this.fs == fs && this.keyVersion == keyVersion
      ensures hostDek == None && commands == 0 && printed == []
    {
      this.card, this.chip, this.fs, this.keyVersion := card, chip, fs, keyVersion;
      hostDek, commands, printed := None, 0, [];
    }

    function Now(): Station
      reads this`card, fs
    {
      Station(chip, keyVersion, card, fs.files)
    }

    /** `loadCurrentDek` */
    method LoadCurrentDek(scan: Hex.Scan, e: Surroundings) returns (r: Result<(), RotateError>)
      modifies this`hostDek
      ensures r.Ok? <==> Now().FileDek(scan, e).Some? && !e.loadFails
      ensures hostDek == if r.Ok? then Now().FileDek(scan, e) else old(hostDek)
      ensures r == Err(KeyPathNotSet) <==> e.keyPath.None? || e.keyPath.value == ""
      ensures r.Ok? ==> e.keyPath.Some? && !e.denied && !e.loadFails && e.keyPath.value in fs.files
                        && hostDek == KeyFile.Find(scan, fs.files[e.keyPath.value], "DEK")
    {
      if e.keyPath.None? || e.keyPath.value == "" {
        return Err(KeyPathNotSet);
      }
      var dek := new Byte[16];
      var readable := fs.OpenRead(e.keyPath.value, e.denied);
      var content := if readable then Some(fs.files[e.keyPath.value]) else None;
      var found := KeyFile.FindKey(content, "DEK", scan, dek);
      if !found {
        return Err(DekNotReadable);
      }
      if e.loadFails {
        return Err(HostCryptoFailed);
      }
      hostDek := Some(dek[..]);
      return Ok(());
    }

    /** The second half of `rotateScp03`: the command goes out, and the answer is checked. */
    method SendPutKey(cmdBuf: seq<Byte>, expected: seq<Byte>, e: Surroundings) returns (r: Result<(), RotateError>)
      modifies this`card, this`commands
      ensures commands == old(commands) + 1
      ensures var (after, rsp) := chip(old(card), Header(keyVersion), cmdBuf, e.refuses);
              && card == (if e.link.LosesCommand? then old(card) else after)
              && (r.Ok? <==> e.link.Delivers? && Accepts(rsp, expected))
    {
      commands := commands + 1;
      if e.link.LosesCommand? {
        return Err(TransportFailed);
      }
      var (after, rsp) := chip(card, Header(keyVersion), cmdBuf, e.refuses);
      card := after;
      if e.link.LosesResponse? || |rsp| < 2 || rsp[|rsp| - 2..] != SW_OK {
        return Err(TransportFailed);
      }
      if |rsp| < |expected| + 2 {
        return Err(ResponseTooShort);
      }
      if rsp[..|expected|] != expected {
        return Err(KeyCheckMismatch);
      }
      return Ok(());
    }

    /** The first half of `rotateScp03`: the checks, and the command and the expected answer. */
    method BuildCommand(h: Host, scan: Hex.Scan, newKeys: KeySet, e: Surroundings)
      returns (r: Result<(seq<Byte>, seq<Byte>), RotateError>)
      modifies this`hostDek
      ensures r.Ok? <==> Now().Ready(scan, e)
      ensures r.Ok? ==> e.securityLevel == Some(0x33) && hostDek == Now().FileDek(scan, e) && hostDek.Some?
                        && r.value == (Body(h, hostDek.value, keyVersion, newKeys), Echo(h.cipher, keyVersion, newKeys))
    {
      var secLevel: Byte := if e.securityLevel.Some? then e.securityLevel.value else 0xFF;
      if secLevel != 0x33 {
        return Err(SecurityLevelTooLow);
      }
      var loaded :- LoadCurrentDek(scan, e);
      var built := BuildPutKey(h, hostDek.value, keyVersion, newKeys, e.cryptoFailsAt);
      return if built.None? then Err(HostCryptoFailed) else Ok(built.value);
    }

    /**
      `rotateScp03`: sends PUT KEY once if everything is ready and this is no dry
      run, else not at all, and only at security level 0x33 with the DEK loaded;
      returns normally after sending only when the chip answered with the version,
      the three check values and 90 00.
     */
    method RotateScp03(h: Host, scan: Hex.Scan, newKeys: KeySet, dryRun: bool, e: Surroundings)
      returns (r: Result<(), RotateError>)
      modifies this`card, this`hostDek, this`commands
      ensures commands == old(commands) + if !dryRun && old(Now()).Ready(scan, e) then 1 else 0
      ensures card == if dryRun then old(card) else old(Now()).CardAfter(h, scan, newKeys, e)
      ensures r.Ok? <==> if dryRun then old(Now()).Ready(scan, e) else old(Now()).Confirms(h, scan, newKeys, e)
      ensures commands > old(commands) || r.Ok? ==> e.securityLevel == Some(0x33) && hostDek.Some?
      ensures dryRun ==> commands == old(commands)
      ensures !dryRun && r.Ok? ==> old(Now()).AnswersWithChecks(h, hostDek.value, newKeys, e.refuses)
    {
      ghost var w := Now();
      var built :- BuildCommand(h, scan, newKeys, e);
      if dryRun {
        return Ok(());
      }
      r := SendPutKey(built.0, built.1, e);
      if r.Ok? {
        ConfirmedByChecks(w, h, scan, newKeys, e);
      }
    }

    /**
      The second half of `RotateScp03Command::run`: saves the keys that the card
      has confirmed and exits 0, or prints them and exits 1, if and only if a
      call that the save depends on fails.
     */
    method Persist(a: Args, e: Surroundings, keys: KeySet) returns (r: Outcome)
      modifies this`printed, fs
      ensures r == Exit(if CanSave(old(fs.files), OutPath(a, e), e.write) then 0 else 1)
      ensures printed == old(printed) + if r == Exit(0) then [] else [(a.Get("--enc"), a.Get("--mac"), a.Get("--dek"))]
      ensures old(fs.crashPoints) <= fs.crashPoints
      ensures SafelySaves(old(fs.files), e, OutPath(a, e), keys, fs.crashPoints[|old(fs.crashPoints)|..] + [fs.files],
                          CanSave(old(fs.files), OutPath(a, e), e.write))
    {
      var written := KeyFileWrite.Write(fs, OutPath(a, e), keys, e.write);
      if written.Err? {
        printed := printed + [(a.Get("--enc"), a.Get("--mac"), a.Get("--dek"))];
        return Exit(1);
      }
      return Exit(0);
    }

    /** `RotateScp03Command::run` once the operator's confirmation and the keys have been checked. */
    method RotateAndSave(h: Host, scan: Hex.Scan, a: Args, keys: KeySet, dryRun: bool, e: Surroundings)
      returns (r: Outcome)
      modifies this, fs
      ensures commands == old(commands) + if !dryRun && old(Now()).Ready(scan, e) then 1 else 0
      ensures card == if dryRun then old(card) else old(Now()).CardAfter(h, scan, keys, e)
      ensures r.Code() == old(Now()).ExitCode(h, scan, keys, OutPath(a, e), dryRun, e)
      ensures printed == old(printed) + if r == Exit(1) then [(a.Get("--enc"), a.Get("--mac"), a.Get("--dek"))] else []
      ensures old(fs.crashPoints) <= fs.crashPoints
      ensures !dryRun && old(Now()).Confirms(h, scan, keys, e)
              ==> SafelySaves(old(fs.files), e, OutPath(a, e), keys,
                              fs.crashPoints[|old(fs.crashPoints)|..] + [fs.files],
                              CanSave(old(fs.files), OutPath(a, e), e.write))
      ensures r.Thrown? || dryRun ==> fs.files == old(fs.files) && fs.crashPoints == old(fs.crashPoints)
    {
      var rotated := RotateScp03(h, scan, keys, dryRun, e);
      if rotated.Err? {
        return Thrown(rotated.error);
      }
      if dryRun {
        return Exit(0);
      }
      // Loading the DEK took the environment's path, so some path is set here:
      // the branch for "no key file to update" cannot be reached.
      assert OutPath(a, e) != "";
      r := Persist(a, e, keys);
    }

    /**
      `RotateScp03Command::run`: sends the command at most once; exits 0 exactly
      if the card confirms and the file is saved (or the dry run is ready), and 1,
      printing the new keys, exactly if the card confirms and the save fails; in
      every other case throws and leaves the disk alone.
     */
    method Run(h: Host, scan: Hex.Scan, a: Args, e: Surroundings) returns (r: Outcome)
      modifies this, fs
      ensures commands == old(commands) + if Commits(scan, a) && old(Now()).Ready(scan, e) then 1 else 0
      ensures commands > old(commands)
              ==> "--confirm" in a.opt && "--dry-run" !in a.opt && e.securityLevel == Some(0x33)
      ensures card == if Commits(scan, a) then old(Now()).CardAfter(h, scan, KeysOf(scan, a).value, e) else old(card)
      ensures r == Exit(0) <==> KeysOf(scan, a).Some?
                                && if a.Flag("--dry-run") then old(Now()).Ready(scan, e)
                                   else a.Flag("--confirm")
                                        && old(Now()).Completes(h, scan, KeysOf(scan, a).value, OutPath(a, e), e)
      ensures r == Exit(1) <==> Commits(scan, a) && old(Now()).Confirms(h, scan, KeysOf(scan, a).value, e)
                                && !CanSave(old(fs.files), OutPath(a, e), e.write)
      ensures r.Thrown? || r == Exit(0) || r == Exit(1)
      ensures printed == old(printed) + if r == Exit(1) then [(a.Get("--enc"), a.Get("--mac"), a.Get("--dek"))] else []
      ensures old(fs.crashPoints) <= fs.crashPoints
      ensures Commits(scan, a) && old(Now()).Confirms(h, scan, KeysOf(scan, a).value, e)
              ==> SafelySaves(old(fs.files), e, OutPath(a, e), KeysOf(scan, a).value,
                              fs.crashPoints[|old(fs.crashPoints)|..] + [fs.files],
                              CanSave(old(fs.files), OutPath(a, e), e.write))
      ensures r.Thrown? || a.Flag("--dry-run") ==> fs.files == old(fs.files) && fs.crashPoints == old(fs.crashPoints)
    {
      var dryRun := a.Flag("--dry-run");
      if !dryRun && !a.Flag("--confirm") {
        return Thrown(NotConfirmed);
      }
      var keys := ParseKeys(scan, a);
      if keys.None? {
        return Thrown(BadKeyArgument);
      }
      ReadyIs(Now(), scan, e);
      r := RotateAndSave(h, scan, a, keys.value, dryRun, e);
    }
  }
}
