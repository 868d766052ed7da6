/** The command registry: an index that must agree with a scan of what was added. */
module Registry {
  import opened Prelude

  datatype SessionNeed = Crypto | Management | Isd

  datatype Command = Command(group: string, name: string, aliases: seq<string>, need: SessionNeed) {
    predicate AnswersTo(group: string, name: string) {
      this.group == group && (this.name == name || name in aliases)
    }
  }

  /** The last added command that answers to a group and a name. */
  function LastNamed(commands: seq<Command>, group: string, name: string): Option<Command> {
    if commands == [] then None
    else
      var last := commands[|commands| - 1];
      if last.AnswersTo(group, name) then Some(last)
      else LastNamed(commands[..|commands| - 1], group, name)
  }

  /** What `find` should return: the command of that name, else the group's default, else nothing. */
  function Scan(commands: seq<Command>, group: string, name: string): Option<Command> {
    var named := LastNamed(commands, group, name);
    if named.Some? then named else LastNamed(commands, group, "")
  }

  /** An index after the name and the first `n` aliases of a command have been put in. */
  function Indexed(index: map<(string, string), Command>, c: Command, n: nat): map<(string, string), Command>
    requires n <= |c.aliases|
  {
    if n == 0 then index[(c.group, c.name) := c]
    else Indexed(index, c, n - 1)[(c.group, c.aliases[n - 1]) := c]
  }

  lemma {:induction false} IndexedAt(
    index: map<(string, string), Command>, c: Command, n: nat, group: string, name: string)
    requires n <= |c.aliases|
    ensures var hit := c.group == group && (c.name == name || name in c.aliases[..n]);
            && ((group, name) in Indexed(index, c, n) <==> hit || (group, name) in index)
            && ((group, name) in Indexed(index, c, n)
                ==> Indexed(index, c, n)[(group, name)] == if hit then c else index[(group, name)])
  {
    if n > 0 {
      IndexedAt(index, c, n - 1, group, name);
      assert c.aliases[..n] == c.aliases[..n - 1] + [c.aliases[n - 1]];
    }
  }

  /** The index has under this key what the scan of the commands finds, or nothing if that finds nothing. */
  predicate Agrees(commands: seq<Command>, index: map<(string, string), Command>, group: string, name: string) {
    var found := LastNamed(commands, group, name);
    ((group, name) in index <==> found.Some?) && (found.Some? ==> index[(group, name)] == found.value)
  }

  lemma AgreesAfterAdd(commands: seq<Command>, index: map<(string, string), Command>, c: Command, group: string,
                       name: string)
    requires Agrees(commands, index, group, name)
    ensures Agrees(commands + [c], Indexed(index, c, |c.aliases|), group, name)
  {
    IndexedAt(index, c, |c.aliases|, group, name);
    assert c.aliases[..|c.aliases|] == c.aliases;
    assert (commands + [c])[..|commands|] == commands;
  }

  const ROTATE := Command("se", "rotate-scp03", [], Isd)

  const COMMANDS: seq<Command> := [
    Command("rng", "", [], Crypto),
    Command("se", "uid", [], Management),
    ROTATE,
    Command("se", "write-info", [], Management),
    Command("se", "read-info", [], Management),
    Command("se", "verify-info", [], Management),
    Command("rsa", "genkey", ["provision"], Crypto),
    Command("rsa", "pub", [], Crypto),
    Command("rsa", "sign", [], Crypto),
    Command("rsa", "verify", [], Crypto),
    Command("rsa", "csr", [], Crypto),
    Command("rsa", "write-cert", [], Management),
    Command("rsa", "verify-binding", [], Management)
  ]

  /** No command that is added later takes `se rotate-scp03` over. */
  lemma RotateIsFound()
    ensures Scan(COMMANDS, "se", "rotate-scp03") == Some(ROTATE)
  {
    assert COMMANDS[2].AnswersTo("se", "rotate-scp03");
    LastNamedIs(COMMANDS, "se", "rotate-scp03", 2);
  }

  /** A command is found by its alias: `rsa provision` is `rsa genkey`. */
  lemma ProvisionIsGenkey()
    ensures Scan(COMMANDS, "rsa", "provision") == Scan(COMMANDS, "rsa", "genkey") == Some(COMMANDS[6])
    ensures COMMANDS[6].name == "genkey"
  {
    assert COMMANDS[6].aliases[0] == "provision";
    assert COMMANDS[6].AnswersTo("rsa", "provision") && COMMANDS[6].AnswersTo("rsa", "genkey");
    LastNamedIs(COMMANDS, "rsa", "provision", 6);
    LastNamedIs(COMMANDS, "rsa", "genkey", 6);
  }

  /** Without a command of that name the group's default is taken, and nothing else is. */
  lemma FallsBack(commands: seq<Command>, group: string, name: string)
    ensures LastNamed(commands, group, name).Some? ==> Scan(commands, group, name) == LastNamed(commands, group, name)
    ensures LastNamed(commands, group, name).None? ==> Scan(commands, group, name) == LastNamed(commands, group, "")
    ensures Scan(commands, group, name).Some?
            ==> Scan(commands, group, name).value.AnswersTo(group, name)
                || Scan(commands, group, name).value.AnswersTo(group, "")
  {
    FoundAnswers(commands, group, name);
    FoundAnswers(commands, group, "");
  }

  lemma {:induction false} FoundAnswers(commands: seq<Command>, group: string, name: string)
    ensures LastNamed(commands, group, name).Some? ==> LastNamed(commands, group, name).value.AnswersTo(group, name)
    ensures LastNamed(commands, group, name).None? <==> forall i :: 0 <= i < |commands|
                                                               ==> !commands[i].AnswersTo(group, name)
  {
    if commands != [] && !commands[|commands| - 1].AnswersTo(group, name) {
      FoundAnswers(commands[..|commands| - 1], group, name);
      assert forall i :: 0 <= i < |commands| - 1 ==> commands[..|commands| - 1][i] == commands[i];
    }
  }

  /** `rng 16` finds the random numbers, whatever the second token is. */
  lemma RngIsDefault(name: string)
    ensures Scan(COMMANDS, "rng", name) == Some(COMMANDS[0])
  {
    assert COMMANDS[0].AnswersTo("rng", "");
    LastNamedIs(COMMANDS, "rng", "", 0);
    if name != "" {
      FoundAnswers(COMMANDS, "rng", name);
    }
  }

  class CommandRegistry {
    var commands: seq<Command>
    var index: map<(string, string), Command>

    /** Every key of the index leads to the last added command that answers to it, and no other key is there. */
    ghost predicate Valid()
      reads this
    {
      forall g: string, n: string :: Agrees(commands, index, g, n)
    }

    constructor Empty()
      ensures Valid() && commands == []
    {
      commands, index := [], map[];
    }

    /** The constructor of main's registry: it adds the commands of this program, in this order. */
    constructor Standard()
      ensures Valid() && commands == COMMANDS
    {
      commands, index := [], map[];
      new;
      var i := 0;
      while i < |COMMANDS|
        invariant i <= |COMMANDS| && Valid() && commands == COMMANDS[..i]
      {
        Add(COMMANDS[i]);
        i := i + 1;
      }
    }

    /** `add`: indexes the name and every alias, replacing what they led to. */
    method Add(c: Command)
      requires Valid()
      modifies this
      ensures Valid() && commands == old(commands) + [c]
    {
      ghost var before, old' := commands, index;
      index := index[(c.group, c.name) := c];
      var i := 0;
      while i < |c.aliases|
        invariant i <= |c.aliases| && commands == before
        invariant index == Indexed(old', c, i)
      {
        index := index[(c.group, c.aliases[i]) := c];
        i := i + 1;
      }
      commands := commands + [c];
      forall g: string, n: string
        ensures Agrees(commands, index, g, n)
      {
        AgreesAfterAdd(before, old', c, g, n);
      }
    }

    /** `find` is the linear scan. */
    method Find(group: string, name: string) returns (r: Option<Command>)
      requires Valid()
      ensures r == Scan(commands, group, name)
    {
      assert Agrees(commands, index, group, name) && Agrees(commands, index, group, "");
      if (group, name) in index {
        return Some(index[(group, name)]);
      }
      if (group, "") in index {
        return Some(index[(group, "")]);
      }
      return None;
    }
  }

  /** The scan picks a command if no later one answers, whatever came before it. */
  lemma {:induction false} LastNamedIs(commands: seq<Command>, group: string, name: string, i: nat)
    requires i < |commands| && commands[i].AnswersTo(group, name)
    requires forall j :: i < j < |commands| ==> !commands[j].AnswersTo(group, name)
    ensures LastNamed(commands, group, name) == Some(commands[i])
  {
    if i < |commands| - 1 {
      LastNamedIs(commands[..|commands| - 1], group, name, i);
    }
  }
}
