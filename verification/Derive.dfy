/**
  tools/derive_scp03_keys.py: per-device keys, their key file text, and the
  command line that hands them to the CLI; with the CLI's `parseKey16` that takes
  them back out.
 */
module Derive {
  import opened Prelude
  import opened Keys
  import Hex
  import KeyFile
  import opened Cli

  /** `derive_scp03_keys`; `cmac` is AES-CMAC of a message under a key. */
  function DeriveKeys(cmac: (seq<Byte>, seq<Byte>) -> Block, masterKey: seq<Byte>, uid: seq<Byte>)
    : (r: Result<KeySet, string>)
    ensures r.Ok? <==> |masterKey| == 16 && |uid| == 18
  {
    if |masterKey| != 16 then Err("master key must be 16 bytes")
    else if |uid| != 18 then Err("UID must be 18 bytes")
    else
      Ok(KeySet(cmac(masterKey, [0x01] + uid), cmac(masterKey, [0x02] + uid), cmac(masterKey, [0x03] + uid)))
  }

  /** The message from which key `i` of a device is derived. */
  function Message(i: nat, uid: seq<Byte>): seq<Byte>
    requires i < 3
  {
    [i + 1] + uid
  }

  /** No two keys, of one device or of two, come from the same message. */
  lemma MessagesDiffer(uid: seq<Byte>, uid': seq<Byte>, i: nat, j: nat)
    requires i < 3 && j < 3
    ensures Message(i, uid) == Message(j, uid') <==> i == j && uid == uid'
    ensures Message(0, uid) == [0x01] + uid && Message(1, uid) == [0x02] + uid && Message(2, uid) == [0x03] + uid
  {
    assert Message(i, uid)[1..] == uid && Message(j, uid')[1..] == uid';
    assert Message(i, uid)[0] == i + 1 && Message(j, uid')[0] == j + 1;
  }

  /**
    Unless AES-CMAC collides on their messages, two derived keys are equal exactly
    if they are the same key of the same device.
   */
  lemma KeysDiffer(cmac: (seq<Byte>, seq<Byte>) -> Block, masterKey: seq<Byte>, uid: seq<Byte>, uid': seq<Byte>,
                   i: nat, j: nat)
    requires |masterKey| == 16 && |uid| == |uid'| == 18 && i < 3 && j < 3
    requires cmac(masterKey, Message(i, uid)) == cmac(masterKey, Message(j, uid'))
             ==> Message(i, uid) == Message(j, uid')
    ensures Items(DeriveKeys(cmac, masterKey, uid).value)[i].1 == Items(DeriveKeys(cmac, masterKey, uid').value)[j].1
            <==> i == j && uid == uid'
  {
    MessagesDiffer(uid, uid', i, j);
    DerivedFrom(cmac, masterKey, uid, i);
    DerivedFrom(cmac, masterKey, uid', j);
  }

  /** Each key is the AES-CMAC of its own message under the master key. */
  lemma DerivedFrom(cmac: (seq<Byte>, seq<Byte>) -> Block, masterKey: seq<Byte>, uid: seq<Byte>, i: nat)
    requires |masterKey| == 16 && |uid| == 18 && i < 3
    ensures Items(DeriveKeys(cmac, masterKey, uid).value)[i].1 == cmac(masterKey, Message(i, uid))
  {
  }

  /** The items of the dictionary of keys, in insertion order. */
  function Items(keys: KeySet): seq<(string, Block)> {
    [("ENC", keys.enc), ("MAC", keys.mac), ("DEK", keys.dek)]
  }

  /** `key_file_text`: one `f"{k} {v.hex()}\n"` for each item. */
  function ItemsText(items: seq<(string, Block)>): string {
    if items == [] then ""
    else items[0].0 + " " + Hex.Encode(items[0].1) + "\n" + ItemsText(items[1..])
  }

  /** The script's key file and the one the CLI writes after a rotation are the same, byte for byte. */
  lemma SameKeyFile(keys: KeySet)
    ensures ItemsText(Items(keys)) == KeyFile.Text(keys)
  {
    var items := Items(keys);
    var enc, mac, dek := KeyFile.Line("ENC", keys.enc), KeyFile.Line("MAC", keys.mac), KeyFile.Line("DEK", keys.dek);
    assert items[1..] == [items[1], items[2]] && items[1..][1..] == [items[2]];
    assert ItemsText([items[2]]) == dek + ItemsText([]);
    assert ItemsText([items[1], items[2]]) == mac + ItemsText([items[2]]);
    assert ItemsText(items) == enc + ItemsText([items[1], items[2]]);
  }

  /** `run_rotation`: the argument vector; an empty `key_out` is as good as none. */
  function RotationArgv(app: string, extra: seq<string>, keys: KeySet, keyOut: string, dryRun: bool): seq<string> {
    [app] + extra + RotationTokens(keys, keyOut, dryRun)
  }

  function RotationTokens(keys: KeySet, keyOut: string, dryRun: bool): seq<string> {
    ["se", "rotate-scp03"]
    + ["--enc", Hex.Encode(keys.enc), "--mac", Hex.Encode(keys.mac), "--dek", Hex.Encode(keys.dek)]
    + LastTokens(keyOut, dryRun)
  }

  function LastTokens(keyOut: string, dryRun: bool): seq<string> {
    (if keyOut != "" then ["--key-out", keyOut] else []) + [if dryRun then "--dry-run" else "--confirm"]
  }

  /** `parseKey16`: exactly 32 characters, read as 16 octets. */
  function Key16(scan: Hex.Scan, a: Args, option: string): (r: Option<Block>) {
    if |a.Get(option)| != 32 then None
    else
      var r := Hex.ScanPairs(scan, a.Get(option), 16);
      if r.None? then None else Some(r.value)
  }

  /** A key of any other length than 32 characters is refused; one of 32 digits is what they spell. */
  lemma Key16Is(scan: Hex.Scan, a: Args, option: string)
    ensures |a.Get(option)| != 32 ==> Key16(scan, a, option) == None
    ensures |a.Get(option)| == 32 && Hex.IsCanonical(a.Get(option), 16)
            ==> Key16(scan, a, option) == Some(Hex.Pairs(a.Get(option), 16))
  {
    if |a.Get(option)| == 32 && Hex.IsCanonical(a.Get(option), 16) {
      Hex.ScanCanonical(scan, a.Get(option), 16);
    }
  }

  method ParseKey16(scan: Hex.Scan, a: Args, option: string) returns (r: Option<Block>)
    ensures r == Key16(scan, a, option)
  {
    var h := a.Get(option);
    if |h| != 32 {
      return None;
    }
    var out := new Byte[16];
    var ok := Hex.Read(scan, h, out);
    if !ok {
      return None;
    }
    return Some(out[..]);
  }

  /** The units that `run_rotation` adds after the caller's extra arguments. */
  function RotationUnits(keys: KeySet, keyOut: string, dryRun: bool): seq<Unit> {
    [Positional("se"), Positional("rotate-scp03")]
    + [Valued("--enc", Hex.Encode(keys.enc)), Valued("--mac", Hex.Encode(keys.mac)),
       Valued("--dek", Hex.Encode(keys.dek))]
    + LastUnits(keyOut, dryRun)
  }

  function LastUnits(keyOut: string, dryRun: bool): seq<Unit> {
    (if keyOut != "" then [Valued("--key-out", keyOut)] else [])
    + [if dryRun then Flag("--dry-run") else Flag("--confirm")]
  }

  /** Extra arguments that are whole options: flags, and options with their values. */
  predicate WholeOptions(units: seq<Unit>) {
    forall i :: 0 <= i < |units| ==> units[i].Proper() && (units[i].Flag? || units[i].Valued?)
  }

  lemma {:induction false} RenderConcat(u: seq<Unit>, v: seq<Unit>)
    ensures Render(u + v) == Render(u) + Render(v)
  {
    if u == [] {
      assert u + v == v;
    } else {
      assert (u + v)[1..] == u[1..] + v;
      RenderConcat(u[1..], v);
    }
  }

  lemma {:induction false} PositionalsConcat(u: seq<Unit>, v: seq<Unit>)
    ensures Positionals(u + v) == Positionals(u) + Positionals(v)
  {
    if v == [] {
      assert u + v == u;
    } else {
      var init := v[..|v| - 1];
      assert u + v == u + init + [v[|v| - 1]] && v == init + [v[|v| - 1]];
      PositionalsConcat(u, init);
      Snoc(u + init, v[|v| - 1]);
      Snoc(init, v[|v| - 1]);
    }
  }

  lemma {:induction false} NoPositionals(units: seq<Unit>)
    requires forall i :: 0 <= i < |units| ==> !units[i].Positional?
    ensures Positionals(units) == []
  {
    if units != [] {
      NoPositionals(units[..|units| - 1]);
    }
  }

  lemma RenderOne(unit: Unit)
    ensures Render([unit]) == unit.Tokens()
  {
    assert [unit][1..] == [];
    assert Render([]) == [];
  }

  lemma RenderTwo(u: Unit, v: Unit)
    ensures Render([u, v]) == u.Tokens() + v.Tokens()
  {
    RenderConcat([u], [v]);
    RenderOne(u);
    RenderOne(v);
    assert [u] + [v] == [u, v];
  }

  lemma RenderThree(u: Unit, v: Unit, w: Unit)
    ensures Render([u, v, w]) == u.Tokens() + v.Tokens() + w.Tokens()
  {
    RenderTwo(u, v);
    RenderOne(w);
    RenderConcat([u, v], [w]);
    assert [u, v] + [w] == [u, v, w];
  }

  lemma RenderLast(keyOut: string, dryRun: bool)
    ensures Render(LastUnits(keyOut, dryRun)) == LastTokens(keyOut, dryRun)
  {
    var mode := if dryRun then Flag("--dry-run") else Flag("--confirm");
    RenderOne(mode);
    if keyOut != "" {
      RenderTwo(Valued("--key-out", keyOut), mode);
    }
  }

  lemma RenderRotation(keys: KeySet, keyOut: string, dryRun: bool)
    ensures Render(RotationUnits(keys, keyOut, dryRun)) == RotationTokens(keys, keyOut, dryRun)
  {
    RenderLast(keyOut, dryRun);
    var names := [Positional("se"), Positional("rotate-scp03")];
    var enc, mac := Valued("--enc", Hex.Encode(keys.enc)), Valued("--mac", Hex.Encode(keys.mac));
    var dek := Valued("--dek", Hex.Encode(keys.dek));
    RenderTwo(names[0], names[1]);
    RenderThree(enc, mac, dek);
    RenderConcat(names, [enc, mac, dek]);
    RenderConcat(names + [enc, mac, dek], LastUnits(keyOut, dryRun));
  }

  lemma RotationPositionals(keys: KeySet, keyOut: string, dryRun: bool)
    ensures Positionals(RotationUnits(keys, keyOut, dryRun)) == ["se", "rotate-scp03"]
  {
    var names := [Positional("se"), Positional("rotate-scp03")];
    var rest := [Valued("--enc", Hex.Encode(keys.enc)), Valued("--mac", Hex.Encode(keys.mac)),
                 Valued("--dek", Hex.Encode(keys.dek))] + LastUnits(keyOut, dryRun);
    assert RotationUnits(keys, keyOut, dryRun) == names + rest;
    TwoPositionals("se", "rotate-scp03");
    PositionalsConcat(names, rest);
    NoPositionals(rest);
  }

  lemma TakesValue(k: string, v: string)
    requires k == "--enc" || k == "--mac" || k == "--dek" || k == "--key-out"
    ensures AllComplete([Valued(k, v)])
  {
    IsOneOfIff(k, BOOL_FLAGS);
  }

  lemma IsMode(k: string)
    requires k == "--dry-run" || k == "--confirm"
    ensures AllComplete([Flag(k)])
  {
    IsOneOfIff(k, BOOL_FLAGS);
  }

  lemma CompleteConcat(u: seq<Unit>, v: seq<Unit>)
    requires AllComplete(u) && AllComplete(v)
    ensures AllComplete(u + v)
  {
  }

  lemma LastComplete(keyOut: string, dryRun: bool)
    ensures AllComplete(LastUnits(keyOut, dryRun))
  {
    IsMode(if dryRun then "--dry-run" else "--confirm");
    if keyOut != "" {
      TakesValue("--key-out", keyOut);
    }
  }

  lemma ThreeKeysComplete(enc: string, mac: string, dek: string)
    ensures AllComplete([Valued("--enc", enc), Valued("--mac", mac), Valued("--dek", dek)])
  {
    TakesValue("--enc", enc);
    TakesValue("--mac", mac);
    TakesValue("--dek", dek);
    CompleteConcat([Valued("--enc", enc)], [Valued("--mac", mac)]);
    CompleteConcat([Valued("--enc", enc)] + [Valued("--mac", mac)], [Valued("--dek", dek)]);
    assert [Valued("--enc", enc)] + [Valued("--mac", mac)] + [Valued("--dek", dek)]
        == [Valued("--enc", enc), Valued("--mac", mac), Valued("--dek", dek)];
  }

  lemma RotationComplete(keys: KeySet, keyOut: string, dryRun: bool)
    ensures AllComplete(RotationUnits(keys, keyOut, dryRun))
  {
    var names := [Positional("se"), Positional("rotate-scp03")];
    assert AllComplete(names);
    ThreeKeysComplete(Hex.Encode(keys.enc), Hex.Encode(keys.mac), Hex.Encode(keys.dek));
    LastComplete(keyOut, dryRun);
    var three := [Valued("--enc", Hex.Encode(keys.enc)), Valued("--mac", Hex.Encode(keys.mac)),
                  Valued("--dek", Hex.Encode(keys.dek))];
    CompleteConcat(names, three);
    CompleteConcat(names + three, LastUnits(keyOut, dryRun));
  }

  lemma UnitsOfConcat(e: seq<Unit>, v: seq<Unit>)
    requires WholeOptions(e) && AllComplete(v)
    ensures Units(Render(e) + Render(v)) == e + v
  {
    RenderConcat(e, v);
    assert WellFormed(e + v);
    RenderThenUnits(e + v);
  }

  lemma ArgvTail(app: string, extra: seq<string>, tokens: seq<string>)
    ensures From([app] + extra + tokens, 1) == extra + tokens
  {
  }

  /** The units of the argument vector that `run_rotation` passes on. */
  lemma ArgvUnits(app: string, e: seq<Unit>, keys: KeySet, keyOut: string, dryRun: bool)
    requires WholeOptions(e)
    ensures Units(From(RotationArgv(app, Render(e), keys, keyOut, dryRun), 1))
            == e + RotationUnits(keys, keyOut, dryRun)
  {
    RotationComplete(keys, keyOut, dryRun);
    UnitsOfConcat(e, RotationUnits(keys, keyOut, dryRun));
    RenderRotation(keys, keyOut, dryRun);
    ArgvTail(app, Render(e), RotationTokens(keys, keyOut, dryRun));
  }

  /** A value recorded by a unit of `v`, with no later unit for that option, is the one found. */
  lemma TailSets(e: seq<Unit>, v: seq<Unit>, k: string, i: nat)
    requires i < |v| && v[i].Sets(k).Some?
    requires forall j :: i < j < |v| ==> v[j].Sets(k).None?
    ensures Meaning(e + v).Get(k) == v[i].Sets(k).value && Meaning(e + v).Flag(k)
  {
    var units := e + v;
    assert forall j :: |e| + i < j < |units| ==> units[j] == v[j - |e|];
    LastSettingWins(units, k, |e| + i);
  }

  lemma Key16Read(scan: Hex.Scan, a: Args, option: string, key: Block)
    requires a.Get(option) == Hex.Encode(key)
    ensures Key16(scan, a, option) == Some(key)
  {
    Hex.ScanEncoded(scan, key, "");
    assert Hex.Encode(key) + "" == Hex.Encode(key);
  }

  lemma DeliversNames(e: seq<Unit>, keys: KeySet, keyOut: string, dryRun: bool)
    requires WholeOptions(e)
    ensures var a := Meaning(e + RotationUnits(keys, keyOut, dryRun)); a.group == "se" && a.command == "rotate-scp03"
  {
    PositionalsConcat(e, RotationUnits(keys, keyOut, dryRun));
    NoPositionals(e);
    RotationPositionals(keys, keyOut, dryRun);
    assert Positionals(e + RotationUnits(keys, keyOut, dryRun)) == ["se", "rotate-scp03"];
  }

  lemma KeyArrives(scan: Hex.Scan, e: seq<Unit>, v: seq<Unit>, k: string, i: nat, key: Block)
    requires SetsLast(v, k, i, Hex.Encode(key))
    ensures Key16(scan, Meaning(e + v), k) == Some(key)
  {
    TailSets(e, v, k, i);
    Key16Read(scan, Meaning(e + v), k, key);
  }

  /** Unit `i` is the only one from there on that sets `k`, and it sets it to `text`. */
  predicate SetsLast(v: seq<Unit>, k: string, i: nat, text: string) {
    i < |v| && v[i].Sets(k) == Some(text) && forall j :: i < j < |v| ==> v[j].Sets(k).None?
  }

  lemma RotationSets(keys: KeySet, keyOut: string, dryRun: bool)
    ensures var v := RotationUnits(keys, keyOut, dryRun);
            && SetsLast(v, "--enc", 2, Hex.Encode(keys.enc))
            && SetsLast(v, "--mac", 3, Hex.Encode(keys.mac))
            && SetsLast(v, "--dek", 4, Hex.Encode(keys.dek))
  {
  }

  lemma DeliversKeys(scan: Hex.Scan, e: seq<Unit>, v: seq<Unit>, keys: KeySet)
    requires SetsLast(v, "--enc", 2, Hex.Encode(keys.enc))
    requires SetsLast(v, "--mac", 3, Hex.Encode(keys.mac))
    requires SetsLast(v, "--dek", 4, Hex.Encode(keys.dek))
    ensures KeysArrive(scan, Meaning(e + v), keys)
  {
    KeyArrives(scan, e, v, "--enc", 2, keys.enc);
    KeyArrives(scan, e, v, "--mac", 3, keys.mac);
    KeyArrives(scan, e, v, "--dek", 4, keys.dek);
  }

  lemma DeliversRest(e: seq<Unit>, keys: KeySet, keyOut: string, dryRun: bool)
    ensures var a := Meaning(e + RotationUnits(keys, keyOut, dryRun));
            && (keyOut != "" ==> a.Get("--key-out") == keyOut)
            && a.Flag(if dryRun then "--dry-run" else "--confirm")
  {
    var v := RotationUnits(keys, keyOut, dryRun);
    if keyOut != "" {
      TailSets(e, v, "--key-out", 5);
    }
    TailSets(e, v, if dryRun then "--dry-run" else "--confirm", |v| - 1);
  }

  /** `parseKey16` reads the three keys of `keys` from the parsed arguments. */
  predicate KeysArrive(scan: Hex.Scan, a: Args, keys: KeySet) {
    && Key16(scan, a, "--enc") == Some(keys.enc)
    && Key16(scan, a, "--mac") == Some(keys.mac)
    && Key16(scan, a, "--dek") == Some(keys.dek)
  }

  /**
    Whatever whole options precede them, the three keys put on the command line
    come back as the same octets, for the command meant; a `--key-out` that was
    given is the one used, and the mode is the one asked for.
   */
  lemma ArgvDelivers(scan: Hex.Scan, app: string, e: seq<Unit>, keys: KeySet, keyOut: string, dryRun: bool)
    requires WholeOptions(e)
    ensures var a := Meaning(Units(From(RotationArgv(app, Render(e), keys, keyOut, dryRun), 1)));
            && a.group == "se" && a.command == "rotate-scp03"
            && KeysArrive(scan, a, keys)
            && (keyOut != "" ==> a.Get("--key-out") == keyOut)
            && a.Flag(if dryRun then "--dry-run" else "--confirm")
  {
    ArgvUnits(app, e, keys, keyOut, dryRun);
    DeliversNames(e, keys, keyOut, dryRun);
    RotationSets(keys, keyOut, dryRun);
    DeliversKeys(scan, e, RotationUnits(keys, keyOut, dryRun), keys);
    DeliversRest(e, keys, keyOut, dryRun);
  }
}
