/**
  `main`: from argv to one command run over the one channel it needs, which is
  closed again on every path.
 */
module Dispatch {
  import opened Prelude
  import Cli
  import opened Registry

  /** `argValue`: the token after the first occurrence of `flag`, wherever it stands. */
  function FirstAfter(tokens: seq<string>, flag: string): Option<string> {
    if |tokens| < 2 then None
    else if tokens[0] == flag then Some(tokens[1])
    else FirstAfter(tokens[1..], flag)
  }

  method ArgValue(argv: seq<string>, flag: string) returns (r: Option<string>)
    ensures r == FirstAfter(Cli.From(argv, 1), flag)
  {
    var i := 1;
    while i + 1 < |argv|
      invariant FirstAfter(Cli.From(argv, 1), flag) == FirstAfter(Cli.From(argv, i), flag)
    {
      if argv[i] == flag {
        return Some(argv[i + 1]);
      }
      assert argv[i..][1..] == argv[i + 1..];
      i := i + 1;
    }
    return None;
  }

  /** Unit `i` is the first to mention the flag, as its name or as its value; none does if `i` is past the end. */
  predicate MentionedFirst(units: seq<Cli.Unit>, flag: string, i: nat) {
    && i <= |units| && (i < |units| ==> flag in units[i].Tokens())
    && forall j :: 0 <= j < i ==> flag !in units[j].Tokens()
  }

  /** Unit `i` is the last to set the flag; none does if `i` is past the end. */
  predicate SetLast(units: seq<Cli.Unit>, flag: string, i: nat) {
    && i <= |units| && (i < |units| ==> units[i].Sets(flag).Some?)
    && forall j :: (if i < |units| then i else -1) < j < |units| ==> units[j].Sets(flag).None?
  }

  /** The token after the flag, where unit `i` is the first to mention it. */
  function AfterMention(units: seq<Cli.Unit>, flag: string, i: nat): Option<string> {
    if i < |units| && units[i].Valued? && units[i].name == flag then Some(units[i].value)
    else if i + 1 < |units| then Some(units[i + 1].Tokens()[0])
    else None
  }

  lemma FirstAfterSkips(tokens: seq<string>, rest: seq<string>, flag: string)
    requires |tokens| <= 2 && flag !in tokens
    ensures FirstAfter(tokens + rest, flag) == FirstAfter(rest, flag)
  {
    if tokens == [] {
      assert tokens + rest == rest;
    } else {
      assert tokens[0] in tokens && (tokens + rest)[1..] == tokens[1..] + rest;
      FirstAfterSkips(tokens[1..], rest, flag);
    }
  }

  /** With the flag in the first unit. */
  lemma FirstAfterFound(units: seq<Cli.Unit>, flag: string)
    requires Cli.WellFormed(units) && units != [] && flag in units[0].Tokens()
    ensures FirstAfter(Cli.Render(units), flag) == AfterMention(units, flag, 0)
  {
    var unit, tail := units[0], Cli.Render(units[1..]);
    assert Cli.Render(units) == unit.Tokens() + tail;
    if |units| > 1 {
      assert tail == units[1].Tokens() + Cli.Render(units[1..][1..]);
      assert tail[0] == units[1].Tokens()[0];
    } else {
      assert tail == [];
    }
    if unit.Valued? {
      assert ([unit.name, unit.value] + tail)[1..] == [unit.value] + tail;
    }
  }

  /**
    `argValue` sees tokens where `parseArgs` sees units: the first unit to mention
    the flag decides, and if that is an option whose value happens to be the flag's
    name, what comes back is the first token of the next unit.
   */
  lemma {:induction false} ArgValueFinds(units: seq<Cli.Unit>, flag: string, i: nat)
    requires Cli.WellFormed(units) && MentionedFirst(units, flag, i)
    ensures FirstAfter(Cli.Render(units), flag) == AfterMention(units, flag, i)
  {
    if units != [] {
      var rest := units[1..];
      assert Cli.WellFormed(rest);
      if i == 0 {
        FirstAfterFound(units, flag);
      } else {
        assert MentionedFirst(rest, flag, i - 1);
        ArgValueFinds(rest, flag, i - 1);
        FirstAfterSkips(units[0].Tokens(), Cli.Render(rest), flag);
      }
    }
  }

  /** What the parsed arguments have for the flag. */
  function Parsed(units: seq<Cli.Unit>, flag: string): Option<string> {
    if Cli.Meaning(units).Flag(flag) then Some(Cli.Meaning(units).Get(flag)) else None
  }

  /**
    When `argValue` and the parsed arguments agree on an option that takes a value,
    unit `i` being the first to mention it and `l` the last to set it. If `i` gives
    it a value, the last one must be the same; if `i` has its name for a value, the
    last one must be the token after that; and if nothing comes after `i`, it must
    not be the option itself, left dangling.
   */
  predicate Agree(units: seq<Cli.Unit>, flag: string, i: nat, l: nat)
    requires i <= |units| && l <= |units|
  {
    if i == |units| then true
    else if units[i].Valued? && units[i].name == flag then
      l < |units| && units[l].Sets(flag) == Some(units[i].value)
    else if i + 1 == |units| then !units[i].Dangling?
    else l < |units| && units[l].Sets(flag) == Some(units[i + 1].Tokens()[0])
  }

  lemma ParsedIsLast(units: seq<Cli.Unit>, flag: string, l: nat)
    requires SetLast(units, flag, l)
    ensures Parsed(units, flag) == if l < |units| then units[l].Sets(flag) else None
  {
    Cli.LastSettingWins(units, flag, l);
  }

  /** A unit that mentions an option that takes a value is that option, or has it for its value. */
  lemma MentionIs(unit: Cli.Unit, flag: string)
    requires unit.Proper() && Cli.IsOption(flag) && !Cli.IsBoolFlag(flag) && flag in unit.Tokens()
    ensures (unit.Dangling? && unit.name == flag) || (unit.Valued? && (unit.name == flag || unit.value == flag))
    ensures unit.Sets(flag).Some? <==> unit.name == flag
  {
  }

  lemma SetsOnlyIfMentioned(unit: Cli.Unit, flag: string)
    requires unit.Sets(flag).Some?
    ensures flag in unit.Tokens()
  {
  }

  /** `argValue` and the parsed arguments agree on an option exactly under `Agree`. */
  lemma AgreeIff(units: seq<Cli.Unit>, flag: string, i: nat, l: nat)
    requires Cli.WellFormed(units) && Cli.IsOption(flag) && !Cli.IsBoolFlag(flag)
    requires MentionedFirst(units, flag, i) && SetLast(units, flag, l)
    ensures FirstAfter(Cli.Render(units), flag) == Parsed(units, flag) <==> Agree(units, flag, i, l)
  {
    ArgValueFinds(units, flag, i);
    ParsedIsLast(units, flag, l);
    if l < |units| {
      SetsOnlyIfMentioned(units[l], flag);
    }
    if i < |units| {
      MentionIs(units[i], flag);
      assert units[i].Proper() && (units[i].Dangling? ==> i == |units| - 1);
      assert units[i].name == flag ==> l < |units|;
    }
  }

  /** An option given once, with a value, and not named as another's value before: both have that value. */
  lemma GivenOnce(units: seq<Cli.Unit>, flag: string, i: nat)
    requires Cli.WellFormed(units) && Cli.IsOption(flag) && !Cli.IsBoolFlag(flag)
    requires i < |units| && units[i].Valued? && units[i].name == flag
    requires forall j :: 0 <= j < i ==> flag !in units[j].Tokens()
    requires forall j :: i < j < |units| ==> units[j].Sets(flag).None?
    ensures FirstAfter(Cli.Render(units), flag) == Parsed(units, flag) == Some(units[i].value)
  {
    assert MentionedFirst(units, flag, i) && SetLast(units, flag, i);
    AgreeIff(units, flag, i, i);
    ParsedIsLast(units, flag, i);
  }

  /** An option given once, but after its own name as the value of another: `argValue` returns that name. */
  lemma NamedAsValue(other: string, flag: string, value: string)
    requires Cli.Valued(other, flag).Proper() && Cli.Valued(flag, value).Proper() && other != flag
    ensures var units := [Cli.Valued(other, flag), Cli.Valued(flag, value)];
            && Cli.WellFormed(units) && Cli.Render(units) == [other, flag, flag, value]
            && FirstAfter(Cli.Render(units), flag) == Some(flag) && Parsed(units, flag) == Some(value)
  {
    var units := [Cli.Valued(other, flag), Cli.Valued(flag, value)];
    assert units[1..] == [units[1]] && [units[1]][1..] == [];
    assert Cli.Render([units[1]]) == units[1].Tokens() + Cli.Render([]);
    assert MentionedFirst(units, flag, 0);
    ArgValueFinds(units, flag, 0);
    ParsedIsLast(units, flag, 1);
  }

  /** Unit `i` gives the option a value, no unit before it mentions the option, and no later one sets it. */
  predicate OnlyAt(units: seq<Cli.Unit>, flag: string, i: nat) {
    && i < |units| && units[i].Valued? && units[i].name == flag
    && (forall j :: 0 <= j < i ==> flag !in units[j].Tokens())
    && (forall j :: i < j < |units| ==> units[j].Sets(flag).None?)
  }

  /** An option that no unit mentions has no value, for either reader. */
  lemma NeverGiven(units: seq<Cli.Unit>, flag: string)
    requires Cli.WellFormed(units) && forall j :: 0 <= j < |units| ==> flag !in units[j].Tokens()
    ensures FirstAfter(Cli.Render(units), flag) == None
  {
    ArgValueFinds(units, flag, |units|);
  }

  /** `--log --port --port x`: the log goes to a file of the name of the option, and so does the connection. */
  lemma PortAsLogPath(port: string)
    ensures Cli.Units(["--log", "--port", "--port", port])
            == [Cli.Valued("--log", "--port"), Cli.Valued("--port", port)]
    ensures FirstAfter(["--log", "--port", "--port", port], "--port") == Some("--port")
    ensures Parsed(Cli.Units(["--log", "--port", "--port", port]), "--port") == Some(port)
  {
    TakesValue("--log");
    TakesValue("--port");
    NamedAsValue("--log", "--port", port);
    Cli.UnitsIff(["--log", "--port", "--port", port], [Cli.Valued("--log", "--port"), Cli.Valued("--port", port)]);
  }

  lemma TakesValue(option: string)
    requires option == "--log" || option == "--port" || option == "--pkcs11"
    ensures Cli.IsOption(option) && !Cli.IsBoolFlag(option)
  {
    Cli.IsOneOfIff(option, Cli.BOOL_FLAGS);
  }

  // ---------- channels ----------

  /** The element takes one SCP03 channel at a time. */
  datatype Channel = Closed | Pkcs11(lib: string) | Sss(port: Option<string>, skipsApplet: bool)

  /** What fails on the way to the command, and what the command returns; None when it throws. */
  datatype Conditions = Conditions(pkcs11Fails: bool, openFails: bool, keyStoreFails: bool, exitCode: Option<int>)

  /** The channel that a command gets: PKCS#11 only if it needs no more than cryptography and a library is named. */
  function ChannelFor(need: SessionNeed, lib: Option<string>, port: Option<string>): Channel {
    if need.Crypto? && lib.Some? then Pkcs11(lib.value) else Sss(port, need.Isd?)
  }

  /** What `main` does to channels and commands, in order. */
  datatype Event = Open(channel: Channel) | Run(command: Command, channel: Channel) | Close(channel: Channel)

  /** Nothing happened, or one channel was opened, perhaps used by one command, and closed. */
  predicate OneChannel(events: seq<Event>) {
    || events == []
    || (|events| == 2 && events[0].Open? && events[1] == Close(events[0].channel))
    || (|events| == 3 && events[0].Open? && events[1].Run? && events[1].channel == events[0].channel
        && events[2] == Close(events[0].channel))
  }

  /** The command that the parsed arguments name, and the channel it gets. */
  function Target(commands: seq<Command>, argv: seq<string>, portEnv: Option<string>): Option<(Command, Channel)> {
    var a := Cli.Meaning(Cli.Units(Cli.From(argv, 1)));
    var found := Scan(commands, a.group, a.command);
    var port := FirstAfter(Cli.From(argv, 1), "--port");
    if a.group == "" || found.None? then None
    else Some((found.value, ChannelFor(found.value.need, FirstAfter(Cli.From(argv, 1), "--pkcs11"),
                                       if port.Some? then port else portEnv)))
  }

  predicate ChannelOpens(channel: Channel, c: Conditions) {
    if channel.Pkcs11? then !c.pkcs11Fails else !c.openFails && !c.keyStoreFails
  }

  /** The channel that `main` chooses for a command line of these units. */
  ghost predicate Chosen(commands: seq<Command>, argv: seq<string>, portEnv: Option<string>, units: seq<Cli.Unit>,
                         need: SessionNeed, channel: Channel)
  {
    && Cli.Units(Cli.From(argv, 1)) == units
    && Target(commands, argv, portEnv).Some?
    && Target(commands, argv, portEnv).value.0.need == need && Target(commands, argv, portEnv).value.1 == channel
  }

  lemma ArgvRendered(argv: seq<string>, units: seq<Cli.Unit>)
    requires Cli.Units(Cli.From(argv, 1)) == units
    ensures Cli.WellFormed(units) && Cli.Render(units) == Cli.From(argv, 1)
  {
    Cli.UnitsThenRender(Cli.From(argv, 1));
  }

  /**
    Over SSS, a port given once is the port, whatever the environment holds; without
    one mentioned it is the environment's.
   */
  lemma PortChosen(commands: seq<Command>, argv: seq<string>, portEnv: Option<string>, units: seq<Cli.Unit>,
                   need: SessionNeed, channel: Channel, i: nat)
    requires Chosen(commands, argv, portEnv, units, need, channel) && channel.Sss?
    ensures OnlyAt(units, "--port", i) ==> channel.port == Some(units[i].value)
    ensures (forall j :: 0 <= j < |units| ==> "--port" !in units[j].Tokens()) ==> channel.port == portEnv
  {
    ArgvRendered(argv, units);
    TakesValue("--port");
    if OnlyAt(units, "--port", i) {
      GivenOnce(units, "--port", i);
    }
    if forall j :: 0 <= j < |units| ==> "--port" !in units[j].Tokens() {
      NeverGiven(units, "--port");
    }
  }

  /**
    PKCS#11 is for cryptographic commands with `--pkcs11`, and with the library
    given; every other command runs over SSS, and only one for the ISD skips the
    applet.
   */
  lemma PathChosen(commands: seq<Command>, argv: seq<string>, portEnv: Option<string>, units: seq<Cli.Unit>,
                   need: SessionNeed, channel: Channel, i: nat)
    requires Chosen(commands, argv, portEnv, units, need, channel)
    ensures OnlyAt(units, "--pkcs11", i) && need.Crypto? ==> channel == Pkcs11(units[i].value)
    ensures (forall j :: 0 <= j < |units| ==> "--pkcs11" !in units[j].Tokens()) || !need.Crypto? ==> channel.Sss?
    ensures channel.Sss? ==> (channel.skipsApplet <==> need.Isd?)
  {
    ArgvRendered(argv, units);
    TakesValue("--pkcs11");
    if OnlyAt(units, "--pkcs11", i) {
      GivenOnce(units, "--pkcs11", i);
    }
    if forall j :: 0 <= j < |units| ==> "--pkcs11" !in units[j].Tokens() {
      NeverGiven(units, "--pkcs11");
    }
  }

  /** `app se rotate-scp03 --port b`: the channel is opened on `b`, for the ISD, also if the environment says `a`. */
  lemma RotatesOnPortGiven(app: string, a: string, b: string)
    ensures Target(COMMANDS, [app, "se", "rotate-scp03", "--port", b], Some(a)) == Some((ROTATE, Sss(Some(b), true)))
  {
    var argv := [app, "se", "rotate-scp03", "--port", b];
    var units := [Cli.Positional("se"), Cli.Positional("rotate-scp03"), Cli.Valued("--port", b)];
    TakesValue("--port");
    ThreeUnits("se", "rotate-scp03", "--port", b);
    assert Cli.From(argv, 1) == ["se", "rotate-scp03", "--port", b];
    RotateIsFound();
    assert Chosen(COMMANDS, argv, Some(a), units, Isd, Target(COMMANDS, argv, Some(a)).value.1);
    assert OnlyAt(units, "--port", 2);
    PathChosen(COMMANDS, argv, Some(a), units, Isd, Target(COMMANDS, argv, Some(a)).value.1, 0);
    PortChosen(COMMANDS, argv, Some(a), units, Isd, Target(COMMANDS, argv, Some(a)).value.1, 2);
  }

  lemma ThreeUnits(p: string, q: string, option: string, value: string)
    requires !Cli.IsOption(p) && !Cli.IsOption(q) && Cli.IsOption(option) && !Cli.IsBoolFlag(option)
    ensures Cli.Units([p, q, option, value]) == [Cli.Positional(p), Cli.Positional(q), Cli.Valued(option, value)]
    ensures Cli.Meaning(Cli.Units([p, q, option, value])).group == p
    ensures Cli.Meaning(Cli.Units([p, q, option, value])).command == q
  {
    var units := [Cli.Positional(p), Cli.Positional(q), Cli.Valued(option, value)];
    assert units[1..] == [units[1], units[2]] && units[1..][1..] == [units[2]] && [units[2]][1..] == [];
    assert Cli.Render([units[2]]) == [option, value] + Cli.Render([]);
    assert Cli.Render(units[1..]) == [q] + Cli.Render([units[2]]);
    assert Cli.Render(units) == [p] + Cli.Render(units[1..]);
    assert Cli.Render(units) == [p, q, option, value];
    Cli.RenderThenUnits(units);
    Cli.TwoPositionals(p, q);
    Cli.Snoc([units[0], units[1]], units[2]);
    assert units == [units[0], units[1]] + [units[2]];
  }

  class Program {
    var events: seq<Event>

    constructor ()
      ensures events == []
    {
      events := [];
    }

    /** `main` up to the command: what it is to run and over which channel, if it gets that far. */
    method Connect(argv: seq<string>, registry: CommandRegistry, portEnv: Option<string>, c: Conditions)
      returns (r: Option<(Cli.Args, Command, Channel)>)
      requires registry.Valid() && events == []
      modifies this
      ensures var target := Target(registry.commands, argv, portEnv);
              && r == (if target.None? || !ChannelOpens(target.value.1, c) then None
                       else Some((Cli.Meaning(Cli.Units(Cli.From(argv, 1))), target.value.0, target.value.1)))
              && (target.None? ==> events == [])
              && (target.Some? && target.value.0.need != Crypto ==> target.value.1.Sss?)
      ensures r.None? ==> OneChannel(events) && |events| < 3
      ensures r.Some? ==> if r.value.2.Pkcs11? then !c.pkcs11Fails else !c.openFails && !c.keyStoreFails
      ensures r.Some? ==> events == [Open(r.value.2), Run(r.value.1, r.value.2)]
    {
      if |argv| < 2 {
        return None;
      }
      var a := Cli.ParseArgs(argv);
      if a.group == "" {
        return None;
      }
      var found := registry.Find(a.group, a.command);
      if found.None? {
        return None;
      }
      var port := ArgValue(argv, "--port");
      if port.None? {
        port := portEnv;
      }
      var lib := ArgValue(argv, "--pkcs11");
      var need := found.value.need;
      var channel;
      if lib.Some? && need.Crypto? {
        channel := Pkcs11(lib.value);
        if c.pkcs11Fails {
          return None;
        }
        events := events + [Open(channel)];
      } else {
        channel := Sss(port, need.Isd?);
        if c.openFails {
          return None;
        }
        events := events + [Open(channel)];
        if c.keyStoreFails {
          events := events + [Close(channel)];
          return None;
        }
      }
      events := events + [Run(found.value, channel)];
      return Some((a, found.value, channel));
    }

    /** `main` after the command: closes the channel. */
    method Disconnect(channel: Channel)
      modifies this
      ensures events == old(events) + [Close(channel)]
    {
      events := events + [Close(channel)];
    }

    /**
      `main` after logging is set up. It runs the command that the parsed
      arguments name if and only if there is one and its channel opens; that
      channel is the one the command needs, the only one opened, and closed at
      the end.
     */
    method Execute(argv: seq<string>, registry: CommandRegistry, portEnv: Option<string>, c: Conditions)
      returns (rc: int)
      requires registry.Valid() && events == []
      modifies this
      ensures OneChannel(events)
      ensures var target := Target(registry.commands, argv, portEnv);
              && (target.None? ==> events == [] && rc == 1)
              && (target.Some?
                  ==> var (command, channel) := target.value;
                      && (ChannelOpens(channel, c) <==> |events| == 3)
                      && (ChannelOpens(channel, c) ==> events[1] == Run(command, channel)
                                                       && rc == if c.exitCode.Some? then c.exitCode.value else 1)
                      && (!ChannelOpens(channel, c) ==> rc == 1)
                      && (command.need != Crypto ==> channel.Sss?))
    {
      var running := Connect(argv, registry, portEnv, c);
      if running.None? {
        return 1;
      }
      rc := if c.exitCode.Some? then c.exitCode.value else 1;
      Disconnect(running.value.2);
    }
  }
}
