/**
  Command-line parsing: `parseArgs` as a scan over argv, and what its result
  means for every argv, read as a sequence of units.
 */
module Cli {
  import opened Prelude

  /** `Args`: up to three positionals and the option map. */
  datatype Args = Args(group: string, command: string, positional: string, opt: map<string, string>) {
    predicate Flag(k: string) {
      k in opt
    }

    function Get(k: string): string {
      if k in opt then opt[k] else ""
    }
  }

  predicate IsOption(t: string) {
    |t| >= 2 && t[0] == '-' && t[1] == '-'
  }

  /** Flags that do not take a value. */
  const BOOL_FLAGS: seq<string> := [
    "--force", "--dry-run", "--confirm", "--pem", "--rewritable", "--debug", "--verbose"
  ]

  predicate IsOneOf(t: string, names: seq<string>) {
    names != [] && (t == names[0] || IsOneOf(t, names[1..]))
  }

  predicate IsBoolFlag(t: string) {
    IsOneOf(t, BOOL_FLAGS)
  }

  lemma {:induction false} IsOneOfIff(t: string, names: seq<string>)
    ensures IsOneOf(t, names) <==> t in names
  {
    if names != [] {
      IsOneOfIff(t, names[1..]);
      assert names == [names[0]] + names[1..];
    }
  }

  lemma BoolFlagIsOption(t: string)
    requires IsBoolFlag(t)
    ensures IsOption(t)
  {
    IsOneOfIff(t, BOOL_FLAGS);
  }

  /** What one or two consecutive tokens stand for. */
  datatype Unit =
    | Positional(text: string)
    | Flag(name: string)
    | Valued(name: string, value: string)
    | Dangling(name: string) // a last option without its value
  {
    predicate Proper() {
      match this
      case Positional(t) => !IsOption(t)
      case Flag(k) => IsBoolFlag(k)
      case Valued(k, _) => IsOption(k) && !IsBoolFlag(k)
      case Dangling(k) => IsOption(k) && !IsBoolFlag(k)
    }

    function Tokens(): seq<string> {
      match this
      case Positional(t) => [t]
      case Flag(k) => [k]
      case Valued(k, v) => [k, v]
      case Dangling(k) => [k]
    }

    function RecordIn(opt: map<string, string>): map<string, string> {
      match this
      case Positional(_) => opt
      case Flag(k) => opt[k := "1"]
      case Valued(k, v) => opt[k := v]
      case Dangling(k) => opt[k := "1"]
    }

    /** The value this unit records for option `k`, if it records one. */
    function Sets(k: string): Option<string> {
      match this
      case Positional(_) => None
      case Flag(name) => if name == k then Some("1") else None
      case Valued(name, v) => if name == k then Some(v) else None
      case Dangling(name) => if name == k then Some("1") else None
    }
  }

  predicate WellFormed(units: seq<Unit>) {
    forall i :: 0 <= i < |units| ==> units[i].Proper() && (units[i].Dangling? ==> i == |units| - 1)
  }

  function Render(units: seq<Unit>): seq<string> {
    if units == [] then [] else units[0].Tokens() + Render(units[1..])
  }

  /** The unit that a token list starts with. */
  function FirstUnit(tokens: seq<string>): Unit
    requires tokens != []
  {
    var t := tokens[0];
    if !IsOption(t) then Positional(t)
    else if IsBoolFlag(t) then Flag(t)
    else if |tokens| > 1 then Valued(t, tokens[1])
    else Dangling(t)
  }

  function Units(tokens: seq<string>): seq<Unit> {
    if tokens == [] then []
    else
      var unit := FirstUnit(tokens);
      [unit] + Units(tokens[|unit.Tokens()|..])
  }

  /** The unit read first is proper, its tokens come first, and a dangling one is the last. */
  lemma FirstUnitRead(tokens: seq<string>)
    requires tokens != []
    ensures var unit := FirstUnit(tokens);
            && unit.Proper() && |unit.Tokens()| <= |tokens|
            && tokens == unit.Tokens() + tokens[|unit.Tokens()|..]
            && (unit.Dangling? ==> tokens[|unit.Tokens()|..] == [])
  {
  }

  /** A proper unit in front is the unit read first. */
  lemma FirstUnitRendered(unit: Unit, rest: seq<string>)
    requires unit.Proper() && (unit.Dangling? ==> rest == [])
    ensures FirstUnit(unit.Tokens() + rest) == unit
  {
    if unit.Flag? {
      BoolFlagIsOption(unit.name);
    }
  }

  lemma {:induction false} RenderThenUnits(units: seq<Unit>)
    requires WellFormed(units)
    ensures Units(Render(units)) == units
  {
    if units != [] {
      var unit, rest := units[0], Render(units[1..]);
      assert unit.Proper() && (unit.Dangling? ==> 0 == |units| - 1);
      RenderThenUnits(units[1..]);
      FirstUnitRendered(unit, rest);
      assert (unit.Tokens() + rest)[|unit.Tokens()|..] == rest;
      assert [unit] + units[1..] == units;
    }
  }

  lemma {:induction false} UnitsThenRender(tokens: seq<string>)
    ensures WellFormed(Units(tokens)) && Render(Units(tokens)) == tokens
    decreases |tokens|
  {
    if tokens != [] {
      var unit := FirstUnit(tokens);
      var rest := tokens[|unit.Tokens()|..];
      FirstUnitRead(tokens);
      UnitsThenRender(rest);
      WellFormedCons(unit, Units(rest));
      assert ([unit] + Units(rest))[1..] == Units(rest);
    }
  }

  lemma WellFormedCons(unit: Unit, units: seq<Unit>)
    requires unit.Proper() && (unit.Dangling? ==> units == []) && WellFormed(units)
    ensures WellFormed([unit] + units)
  {
    var all := [unit] + units;
    forall i | 0 <= i < |all|
      ensures all[i].Proper() && (all[i].Dangling? ==> i == |all| - 1)
    {
      assert i > 0 ==> all[i] == units[i - 1];
    }
  }

  /** Every token list is the rendering of exactly one well-formed sequence of units. */
  lemma UnitsIff(tokens: seq<string>, units: seq<Unit>)
    ensures Units(tokens) == units <==> WellFormed(units) && Render(units) == tokens
  {
    UnitsThenRender(tokens);
    if WellFormed(units) {
      RenderThenUnits(units);
    }
  }

  // ---------- what the units mean ----------

  function Positionals(units: seq<Unit>): seq<string> {
    if units == [] then []
    else
      var init, last := Positionals(units[..|units| - 1]), units[|units| - 1];
      if last.Positional? then init + [last.text] else init
  }

  /** Later settings of an option replace earlier ones. */
  function Options(units: seq<Unit>): map<string, string> {
    if units == [] then map[]
    else
      units[|units| - 1].RecordIn(Options(units[..|units| - 1]))
  }

  function At(s: seq<string>, i: nat): string {
    if i < |s| then s[i] else ""
  }

  /** The first three positionals, with the `rng <nbytes>` shorthand, and the options. */
  function Collect(pos: seq<string>, opt: map<string, string>): Args {
    var a := Args(At(pos, 0), At(pos, 1), At(pos, 2), opt);
    if a.group == "rng" && a.positional == "" then a.(positional := a.command) else a
  }

  function Meaning(units: seq<Unit>): Args {
    Collect(Positionals(units), Options(units))
  }

  lemma Snoc(units: seq<Unit>, unit: Unit)
    ensures Positionals(units + [unit])
            == if unit.Positional? then Positionals(units) + [unit.text] else Positionals(units)
    ensures Options(units + [unit]) == unit.RecordIn(Options(units))
  {
    assert (units + [unit])[..|units|] == units;
  }

  /**
    The three names of a command line with positionals `p`: in their order, except
    that `rng` without a third takes the second for it.
   */
  lemma NamesOf(units: seq<Unit>)
    ensures var p, a := Positionals(units), Meaning(units);
            && a.group == (if |p| > 0 then p[0] else "")
            && a.command == (if |p| > 1 then p[1] else "")
            && (|p| > 2 && (p[0] != "rng" || p[2] != "") ==> a.positional == p[2])
            && (|p| > 1 && p[0] == "rng" && (|p| == 2 || p[2] == "") ==> a.positional == p[1])
            && (|p| <= 2 && !(|p| == 2 && p[0] == "rng") ==> a.positional == "")
  {
  }

  /** `rng 16`: the count is the second token, and arrives as the third name. */
  lemma RngCount(count: string)
    requires !IsOption(count)
    ensures Meaning(Units(["rng", count])) == Args("rng", count, count, map[])
  {
    TwoPositionals("rng", count);
    assert ["rng", count][1..] == [count] && [count][1..] == [];
    assert Units([count]) == [Positional(count)] + Units([]);
    assert Units(["rng", count]) == [Positional("rng"), Positional(count)];
  }

  /** What one more unit adds: a flag, and an option without its value at the end, are recorded as "1". */
  lemma RecordedAs(units: seq<Unit>, k: string, v: string)
    ensures Options(units + [Positional(v)]) == Options(units)
    ensures Options(units + [Flag(k)]) == Options(units)[k := "1"]
    ensures Options(units + [Valued(k, v)]) == Options(units)[k := v]
    ensures Options(units + [Dangling(k)]) == Options(units)[k := "1"]
  {
    Snoc(units, Positional(v));
    Snoc(units, Flag(k));
    Snoc(units, Valued(k, v));
    Snoc(units, Dangling(k));
  }

  /** The seven options that take no value; every other token after two dashes does. */
  lemma BoolFlags(t: string)
    ensures IsBoolFlag(t) <==> t == "--force" || t == "--dry-run" || t == "--confirm" || t == "--pem"
                               || t == "--rewritable" || t == "--debug" || t == "--verbose"
    ensures IsOption(t) <==> |t| >= 2 && t[..2] == "--"
  {
    IsOneOfIff(t, BOOL_FLAGS);
  }

  /** The tokens the scan has not reached. */
  function From(argv: seq<string>, i: nat): seq<string> {
    if i <= |argv| then argv[i..] else []
  }

  /** Where the scan stands at `i`: `done` is what it has read, `pos` and `opt` are what that means. */
  ghost predicate ScannedTo(argv: seq<string>, i: nat, done: seq<Unit>, pos: seq<string>, opt: map<string, string>) {
    Units(From(argv, 1)) == done + Units(From(argv, i)) && pos == Positionals(done) && opt == Options(done)
  }

  lemma ScansOn(argv: seq<string>, i: nat, done: seq<Unit>, pos: seq<string>, opt: map<string, string>)
    requires i < |argv| && ScannedTo(argv, i, done, pos, opt)
    ensures var unit := FirstUnit(argv[i..]);
            ScannedTo(argv, i + |unit.Tokens()|, done + [unit],
                      if unit.Positional? then pos + [unit.text] else pos, unit.RecordIn(opt))
  {
    var unit := FirstUnit(argv[i..]);
    var next := i + |unit.Tokens()|;
    assert argv[i..][|unit.Tokens()|..] == argv[next..];
    assert Units(From(argv, i)) == [unit] + Units(From(argv, next));
    assert done + ([unit] + Units(From(argv, next))) == done + [unit] + Units(From(argv, next));
    Snoc(done, unit);
  }

  lemma ScannedAll(argv: seq<string>, i: nat, done: seq<Unit>, pos: seq<string>, opt: map<string, string>)
    requires i >= |argv| && ScannedTo(argv, i, done, pos, opt)
    ensures Collect(pos, opt) == Meaning(Units(From(argv, 1)))
  {
    assert From(argv, i) == [];
    assert done + [] == done;
  }

  /** One turn of the loop: consumes the unit at `i`. */
  method Scan(argv: seq<string>, i: nat, pos: seq<string>, opt: map<string, string>)
    returns (i': nat, pos': seq<string>, opt': map<string, string>)
    requires i < |argv|
    ensures var unit := FirstUnit(argv[i..]);
            && i' == i + |unit.Tokens()|
            && pos' == (if unit.Positional? then pos + [unit.text] else pos)
            && opt' == unit.RecordIn(opt)
  {
    i', pos', opt' := i, pos, opt;
    var t := argv[i];
    if IsOption(t) {
      if IsBoolFlag(t) {
        opt' := opt[t := "1"];
      } else if i + 1 < |argv| {
        i' := i + 1;
        opt' := opt[t := argv[i']];
      } else {
        opt' := opt[t := "1"];
      }
    } else {
      pos' := pos + [t];
    }
    i' := i' + 1;
  }

  /** `parseArgs`: the scan from argv[1] on computes the meaning of argv's units. */
  method ParseArgs(argv: seq<string>) returns (a: Args)
    ensures a == Meaning(Units(From(argv, 1)))
  {
    var opt: map<string, string>, pos: seq<string> := map[], [];
    var i := 1;
    ghost var done: seq<Unit> := [];
    assert [] + Units(From(argv, 1)) == Units(From(argv, 1));
    while i < |argv|
      invariant ScannedTo(argv, i, done, pos, opt)
    {
      ScansOn(argv, i, done, pos, opt);
      done := done + [FirstUnit(argv[i..])];
      i, pos, opt := Scan(argv, i, pos, opt);
    }
    ScannedAll(argv, i, done, pos, opt);
    a := Collect(pos, opt);
  }

  /**
    An option has the value of the last unit that sets it, at whatever place
    `i`; an option that no unit sets is absent.
   */
  lemma {:induction false} LastSettingWins(units: seq<Unit>, k: string, i: nat)
    requires i <= |units|
    requires i < |units| ==> units[i].Sets(k).Some?
    requires forall j :: (if i < |units| then i else -1) < j < |units| ==> units[j].Sets(k).None?
    ensures Meaning(units).Flag(k) <==> i < |units|
    ensures i < |units| ==> Meaning(units).Get(k) == units[i].Sets(k).value
  {
    if units != [] && i != |units| - 1 {
      var init := units[..|units| - 1];
      LastSettingWins(init, k, if i == |units| then i - 1 else i);
      assert units[|units| - 1].Sets(k).None?;
    }
  }

  /** The values that successive units record for `k`. */
  function Settings(units: seq<Unit>, k: string): seq<string> {
    if units == [] then []
    else
      var init, last := Settings(units[..|units| - 1], k), units[|units| - 1].Sets(k);
      if last.Some? then init + [last.value] else init
  }

  lemma {:induction false} OptionsAreLastSettings(units: seq<Unit>, k: string)
    ensures k in Options(units) <==> Settings(units, k) != []
    ensures k in Options(units) ==> Options(units)[k] == Settings(units, k)[|Settings(units, k)| - 1]
  {
    if units != [] {
      OptionsAreLastSettings(units[..|units| - 1], k);
    }
  }

  /**
    Two command lines with the same positionals in the same order, and for each
    option the same values in the same order, mean the same, however their units
    are interleaved.
   */
  lemma OrderDoesNotMatter(u: seq<Unit>, v: seq<Unit>)
    requires Positionals(u) == Positionals(v)
    requires forall k :: Settings(u, k) == Settings(v, k)
    ensures Meaning(u) == Meaning(v)
  {
    forall k: string
      ensures k in Options(u) <==> k in Options(v)
      ensures k in Options(u) ==> Options(u)[k] == Options(v)[k]
    {
      OptionsAreLastSettings(u, k);
      OptionsAreLastSettings(v, k);
    }
    assert Options(u) == Options(v);
  }

  // ---------- printing ----------

  /** What every parsed command line satisfies. */
  predicate Parsed(a: Args) {
    && !IsOption(a.group) && !IsOption(a.command) && !IsOption(a.positional)
    && (a.group == "rng" && a.positional == "" ==> a.command == "")
    && forall k :: k in a.opt ==> IsOption(k) && (IsBoolFlag(k) ==> a.opt[k] == "1")
  }

  lemma {:induction false} CollectedParts(units: seq<Unit>)
    requires forall i :: 0 <= i < |units| ==> units[i].Proper()
    ensures forall i :: 0 <= i < |Positionals(units)| ==> !IsOption(Positionals(units)[i])
    ensures forall k :: k in Options(units) ==> IsOption(k) && (IsBoolFlag(k) ==> Options(units)[k] == "1")
  {
    if units != [] {
      var last := units[|units| - 1];
      CollectedParts(units[..|units| - 1]);
      assert last.Proper();
      if last.Flag? {
        BoolFlagIsOption(last.name);
      }
    }
  }

  lemma ParseYieldsParsed(tokens: seq<string>)
    ensures Parsed(Meaning(Units(tokens)))
  {
    UnitsThenRender(tokens);
    CollectedParts(Units(tokens));
  }

  function PrintOptions(opt: map<string, string>, keys: seq<string>): seq<Unit>
    requires forall k :: k in keys ==> k in opt
  {
    if keys == [] then []
    else
      var k := keys[|keys| - 1];
      PrintOptions(opt, keys[..|keys| - 1]) + [PrintedUnit(opt, k)]
  }

  /** All three positionals, then each option in the given order. */
  function Print(a: Args, keys: seq<string>): seq<Unit>
    requires forall k :: k in keys ==> k in a.opt
  {
    [Positional(a.group), Positional(a.command), Positional(a.positional)] + PrintOptions(a.opt, keys)
  }

  lemma OnePositional(p: string)
    ensures Positionals([Positional(p)]) == [p] && Options([Positional(p)]) == map[]
  {
    Snoc([], Positional(p));
    assert [] + [Positional(p)] == [Positional(p)];
  }

  lemma TwoPositionals(p: string, q: string)
    ensures Positionals([Positional(p), Positional(q)]) == [p, q]
    ensures Options([Positional(p), Positional(q)]) == map[]
  {
    OnePositional(p);
    Snoc([Positional(p)], Positional(q));
    assert [Positional(p)] + [Positional(q)] == [Positional(p), Positional(q)];
  }

  lemma ThreePositionals(p: string, q: string, r: string)
    ensures Positionals([Positional(p), Positional(q), Positional(r)]) == [p, q, r]
    ensures Options([Positional(p), Positional(q), Positional(r)]) == map[]
  {
    TwoPositionals(p, q);
    Snoc([Positional(p), Positional(q)], Positional(r));
    assert [Positional(p), Positional(q)] + [Positional(r)] == [Positional(p), Positional(q), Positional(r)];
  }

  predicate AllComplete(units: seq<Unit>) {
    forall i :: 0 <= i < |units| ==> units[i].Proper() && !units[i].Dangling?
  }

  lemma AllCompleteSnoc(units: seq<Unit>, unit: Unit)
    requires AllComplete(units) && unit.Proper() && !unit.Dangling?
    ensures AllComplete(units + [unit])
  {
  }

  /** The unit that an option is printed as. */
  function PrintedUnit(opt: map<string, string>, k: string): Unit
    requires k in opt
  {
    if IsBoolFlag(k) then Flag(k) else Valued(k, opt[k])
  }

  lemma PrintNone(a: Args)
    ensures Print(a, []) == [Positional(a.group), Positional(a.command), Positional(a.positional)]
  {
  }

  lemma PrintSnoc(a: Args, init: seq<string>, k: string)
    requires k in a.opt && (forall j :: j in init ==> j in a.opt)
    requires IsBoolFlag(k) ==> a.opt[k] == "1"
    ensures Print(a, init + [k]) == Print(a, init) + [PrintedUnit(a.opt, k)]
    ensures Positionals(Print(a, init + [k])) == Positionals(Print(a, init))
    ensures Options(Print(a, init + [k])) == Options(Print(a, init))[k := a.opt[k]]
  {
    var units, unit := Print(a, init), PrintedUnit(a.opt, k);
    assert (init + [k])[..|init|] == init;
    assert Print(a, init + [k]) == units + [unit];
    Snoc(units, unit);
  }

  lemma {:induction false} PrintedShape(a: Args, keys: seq<string>)
    requires Parsed(a) && forall k :: k in keys ==> k in a.opt
    ensures AllComplete(Print(a, keys))
    ensures Positionals(Print(a, keys)) == [a.group, a.command, a.positional]
  {
    if keys == [] {
      ThreePositionals(a.group, a.command, a.positional);
      PrintNone(a);
    } else {
      var init, k := keys[..|keys| - 1], keys[|keys| - 1];
      assert keys == init + [k] && k in a.opt;
      PrintedShape(a, init);
      PrintSnoc(a, init, k);
      AllCompleteSnoc(Print(a, init), PrintedUnit(a.opt, k));
    }
  }

  lemma {:induction false} PrintedValue(a: Args, keys: seq<string>, k: string)
    requires Parsed(a) && forall j :: j in keys ==> j in a.opt
    ensures k in Options(Print(a, keys)) <==> k in keys
    ensures k in keys ==> Options(Print(a, keys))[k] == a.opt[k]
  {
    if keys == [] {
      ThreePositionals(a.group, a.command, a.positional);
      PrintNone(a);
    } else {
      var init, last := keys[..|keys| - 1], keys[|keys| - 1];
      assert keys == init + [last] && last in a.opt;
      PrintedValue(a, init, k);
      PrintSnoc(a, init, last);
    }
  }

  /** Printing a parsed command line, its options in any order, and parsing the result gives it back. */
  lemma PrintThenParse(a: Args, keys: seq<string>)
    requires Parsed(a) && forall k :: k in keys <==> k in a.opt
    ensures Meaning(Units(Render(Print(a, keys)))) == a
  {
    PrintedShape(a, keys);
    RenderThenUnits(Print(a, keys));
    forall k: string
      ensures k in Options(Print(a, keys)) <==> k in a.opt
      ensures k in a.opt ==> Options(Print(a, keys))[k] == a.opt[k]
    {
      PrintedValue(a, keys, k);
    }
    assert Options(Print(a, keys)) == a.opt;
  }
}
