/**
  Any number of runs of `se rotate-scp03`, one after the other, each of which may
  be killed at any point that leaves a disk of its own: they take only the steps
  of the rotation protocol, and so every disk they leave is safe.
 */
module Runs {
  import opened Prelude
  import opened Keys
  import KeyFile
  import opened KeyFileWrite
  import opened PutKey
  import opened Rotation
  import opened RotateCommand
  import opened Cli

  /**
    One run: its arguments, its surroundings, and the disk at which it is killed,
    counted over those it passes through; None if it is left to end.
   */
  datatype Attempt = Attempt(args: Args, around: Surroundings, cut: Option<nat>) {
    /** The run saves where it reads. */
    predicate StaysOn(path: string) {
      around.keyPath == Some(path) && OutPath(args, around) == path
    }
  }

  /** The session opens: the file holds the card's own keys. */
  predicate Opens(su: Setup, w: Station) {
    KeysIn(su, w.disk, su.path) == Some(w.card.keys)
  }

  predicate Transmits(su: Setup, w: Station, t: Attempt) {
    Opens(su, w) && Commits(su.scan, t.args) && w.Ready(su.scan, t.around)
  }

  /** The card's answer makes the run go on to save. */
  predicate Confirmed(su: Setup, w: Station, t: Attempt) {
    Opens(su, w) && Commits(su.scan, t.args)
    && w.Confirms(su.host, su.scan, KeysOf(su.scan, t.args).value, t.around)
  }

  /** The card once the attempt has got as far as it can. */
  function CardAfter(su: Setup, w: Station, t: Attempt): Card {
    if Transmits(su, w, t) then w.CardAfter(su.host, su.scan, KeysOf(su.scan, t.args).value, t.around) else w.card
  }

  /** The card and the disk between two runs, with what is on record of the runs before. */
  ghost predicate Rests(w: Station, s: State) {
    s == State(w.card, w.disk, Idle, s.target, s.previous)
  }

  /**
    What a run leaves behind: if the card confirmed, disks that are all crash-safe,
    the last with the new keys if the run got to its end and the save could get
    through; else nothing new.
   */
  ghost predicate Leaves(su: Setup, t: Attempt, w: Station, disks: seq<Disk>, ended: bool) {
    if Confirmed(su, w, t)
    then SafelySaves(w.disk, t.around, su.path, KeysOf(su.scan, t.args).value, disks,
                     ended && CanSave(w.disk, su.path, t.around.write))
    else forall k :: 0 <= k < |disks| ==> disks[k] == w.disk
  }

  /** The disks an attempt passes through, from the one it starts from to the one at which it is cut off. */
  ghost predicate PassesThrough(su: Setup, t: Attempt, w: Station, disks: seq<Disk>, cut: Option<nat>) {
    && disks != [] && disks[0] == w.disk && (cut.Some? ==> |disks| <= cut.value + 1)
    && Leaves(su, t, w, disks, cut.None?)
  }

  /** Where an attempt stands when the card has answered, or when it has sent nothing. */
  ghost function Answer(su: Setup, t: Attempt, w: Station, s: State): State {
    if Transmits(su, w, t) then
      var keys := KeysOf(su.scan, t.args).value;
      State(CardAfter(su, w, t), w.disk, if Confirmed(su, w, t) then Accepted else Idle, keys, w.card.keys)
    else s
  }

  /**
    What an attempt that starts in `s`, beside the chip of `w`, passes through and
    leaves: the card and the record as the answer left them, and the last disk.
   */
  ghost predicate Attempted(su: Setup, t: Attempt, w: Station, s: State, disks: seq<Disk>, cut: Option<nat>,
                            s': State)
  {
    && Rests(w, s) && PassesThrough(su, t, w, disks, cut)
    && s' == Answer(su, t, w, s).(disk := disks[|disks| - 1], phase := Idle)
  }

  // ---------- behaviours ----------

  /** A behaviour of the protocol from one state to another. */
  ghost predicate Leads(su: Setup, origin: State, b: seq<State>, s: State) {
    IsBehaviour(su, b) && b[0] == origin && b[|b| - 1] == s
  }

  /** It passes through this state, in whatever phase. */
  ghost predicate Passes(b: seq<State>, s: State) {
    exists i :: 0 <= i < |b| && b[i].(phase := Idle) == s.(phase := Idle)
  }

  ghost predicate Covers(b: seq<State>, disks: seq<Disk>, s: State) {
    forall k :: 0 <= k < |disks| ==> Passes(b, s.(disk := disks[k]))
  }

  lemma Step(su: Setup, origin: State, b: seq<State>, s: State, s': State) returns (b': seq<State>)
    requires Leads(su, origin, b, s) && Next(su, s, s')
    ensures Leads(su, origin, b', s') && b' == b + [s']
  {
    b' := b + [s'];
    forall i: nat | i + 1 < |b'|
      ensures StepsAt(su, b', i)
    {
      assert i + 1 < |b| ==> StepsAt(su, b, i);
    }
  }

  /** What the host offers in this attempt, and what the card makes of it. */
  lemma AnswerIsProcessed(su: Setup, t: Attempt, w: Station)
    requires IsCard(w.chip, su.host.cipher) && Transmits(su, w, t)
    ensures var keys, e := KeysOf(su.scan, t.args).value, t.around;
            var answer := Process(su.host.cipher, w.card, Header(w.keyVersion),
                                  Body(su.host, w.FileDek(su.scan, e).value, w.keyVersion, keys), e.refuses);
            && CardAfter(su, w, t) == (if e.link.LosesCommand? then w.card else answer.0)
            && (Confirmed(su, w, t)
                ==> !e.link.LosesCommand? && Accepts(answer.1, Echo(su.host.cipher, w.keyVersion, keys)))
  {
  }

  /** The command and its answer, as one step of the protocol. */
  lemma TransmissionStep(su: Setup, t: Attempt, w: Station, loaded: State, sent: State)
    requires IsCard(w.chip, su.host.cipher) && Transmits(su, w, t) && w.keyVersion == w.card.kvn
    requires var keys := KeysOf(su.scan, t.args).value;
             && loaded == State(w.card, w.disk, Loaded(w.FileDek(su.scan, t.around).value), keys, w.card.keys)
             && sent == loaded.(card := CardAfter(su, w, t),
                                phase := if Confirmed(su, w, t) then Accepted else Idle)
    ensures Next(su, loaded, sent)
  {
    AnswerIsProcessed(su, t, w);
    if t.around.link.LosesCommand? {
      assert Stops(loaded, sent);
    } else {
      assert Sends(su, loaded, sent, t.around.refuses);
    }
  }

  /** The steps of a run that sends the command, up to the answer. */
  lemma Answered(su: Setup, t: Attempt, w: Station, origin: State, b0: seq<State>, s: State)
    returns (b: seq<State>)
    requires Leads(su, origin, b0, s) && Rests(w, s) && Transmits(su, w, t)
    requires IsCard(w.chip, su.host.cipher) && w.keyVersion == w.card.kvn && t.StaysOn(su.path)
    ensures Leads(su, origin, b, Answer(su, t, w, s))
  {
    var keys, dek := KeysOf(su.scan, t.args).value, w.FileDek(su.scan, t.around).value;
    var opened' := State(w.card, w.disk, Opened, keys, w.card.keys);
    var loaded := State(w.card, w.disk, Loaded(dek), keys, w.card.keys);
    assert Begins(su, s, opened');
    b := Step(su, origin, b0, s, opened');
    assert LoadsDek(su, opened', loaded);
    b := Step(su, origin, b, opened', loaded);
    TransmissionStep(su, t, w, loaded, Answer(su, t, w, s));
    b := Step(su, origin, b, loaded, Answer(su, t, w, s));
  }

  // A row of states linked by any relation at all: what follows needs no more of the protocol than that.

  ghost predicate Linked(next: (State, State) -> bool, b: seq<State>, i: nat)
    requires i + 1 < |b|
  {
    next(b[i], b[i + 1])
  }

  ghost predicate IsChain(next: (State, State) -> bool, b: seq<State>) {
    b != [] && forall i: nat :: i + 1 < |b| ==> Linked(next, b, i)
  }

  ghost function NextOf(su: Setup): (State, State) -> bool {
    (s: State, s': State) => Next(su, s, s')
  }

  lemma BehaviourIsChain(su: Setup, b: seq<State>)
    ensures IsBehaviour(su, b) <==> IsChain(NextOf(su), b)
  {
    forall i: nat | i + 1 < |b|
      ensures StepsAt(su, b, i) <==> Linked(NextOf(su), b, i)
    {
    }
  }

  /** The states of a save that leaves these disks. */
  ghost function SaveStates(saving: State, disks: seq<Disk>): (states: seq<State>)
    ensures |states| == |disks|
    ensures forall k :: 0 <= k < |disks| ==> states[k] == saving.(disk := disks[k])
  {
    seq(|disks|, k requires 0 <= k < |disks| => saving.(disk := disks[k]))
  }

  /** Two chains, the second of which starts where the first one ends, are one. */
  lemma ChainsJoin(next: (State, State) -> bool, b: seq<State>, states: seq<State>)
    requires IsChain(next, b) && IsChain(next, [b[|b| - 1]] + states)
    ensures IsChain(next, b + states)
  {
    var c := [b[|b| - 1]] + states;
    forall i: nat | i + 1 < |b + states|
      ensures Linked(next, b + states, i)
    {
      if i + 1 < |b| {
        assert Linked(next, b, i);
      } else {
        var k: nat := i + 1 - |b|;
        assert Linked(next, c, k);
        assert (b + states)[i] == c[k] && (b + states)[i + 1] == c[k + 1];
      }
    }
  }

  lemma SaveStep(su: Setup, c: seq<State>, i: nat, saving: State, readable: bool)
    requires i + 1 < |c| && saving.phase.Saving?
    requires c[i] == saving.(disk := c[i].disk) && c[i + 1] == saving.(disk := c[i + 1].disk)
    requires CrashSafe(saving.phase.before, c[i + 1].disk, su.path, KeyFile.Text(saving.target), readable)
    ensures Linked(NextOf(su), c, i)
  {
    assert Saves(su, c[i], c[i + 1], readable);
  }

  /** These disks, in the state of a save that may leave any of them. */
  ghost predicate SaveRow(c: seq<State>, saving: State, disks: seq<Disk>) {
    && |c| == |disks| + 1
    && (forall k :: 0 <= k < |c| ==> c[k] == saving.(disk := c[k].disk))
    && (forall k :: 0 <= k < |disks| ==> c[k + 1].disk == disks[k])
  }

  /** A save may leave any row of crash-safe disks, one after the other. */
  lemma SavesAreChain(su: Setup, confirmed: State, disks: seq<Disk>, readable: bool, c: seq<State>)
    requires AllCrashSafe(confirmed.disk, disks, su.path, KeyFile.Text(confirmed.target), readable)
    requires SaveRow(c, SavingOf(confirmed), disks)
    ensures IsChain(NextOf(su), c)
  {
    forall i: nat | i + 1 < |c|
      ensures Linked(NextOf(su), c, i)
    {
      assert c[i + 1].disk == disks[i];
      SaveStep(su, c, i, SavingOf(confirmed), readable);
    }
  }

  ghost function SavingOf(confirmed: State): State {
    confirmed.(phase := Saving(confirmed.disk))
  }

  lemma BehaviourGoesOn(su: Setup, b0: seq<State>, states: seq<State>)
    requires IsBehaviour(su, b0) && IsChain(NextOf(su), [b0[|b0| - 1]] + states)
    ensures IsBehaviour(su, b0 + states)
  {
    BehaviourIsChain(su, b0);
    ChainsJoin(NextOf(su), b0, states);
    BehaviourIsChain(su, b0 + states);
  }

  lemma LeadsOn(su: Setup, origin: State, b0: seq<State>, s: State, states: seq<State>)
    requires Leads(su, origin, b0, s) && IsChain(NextOf(su), [s] + states) && states != []
    ensures Leads(su, origin, b0 + states, states[|states| - 1])
  {
    BehaviourGoesOn(su, b0, states);
  }

  lemma SavingBegins(su: Setup, origin: State, b0: seq<State>, confirmed: State) returns (b: seq<State>)
    requires Leads(su, origin, b0, confirmed) && confirmed.phase.Accepted?
    ensures Leads(su, origin, b, SavingOf(confirmed))
  {
    assert StartsSaving(confirmed, SavingOf(confirmed));
    b := Step(su, origin, b0, confirmed, SavingOf(confirmed));
  }

  lemma SavingEnds(su: Setup, origin: State, b0: seq<State>, saved: State) returns (b: seq<State>)
    requires Leads(su, origin, b0, saved)
    ensures Leads(su, origin, b, saved.(phase := Idle)) && b == b0 + [saved.(phase := Idle)]
  {
    assert Stops(saved, saved.(phase := Idle));
    b := Step(su, origin, b0, saved, saved.(phase := Idle));
  }

  lemma SaveStatesCover(b0: seq<State>, saving: State, disks: seq<Disk>, end: State)
    requires end == saving.(phase := Idle, disk := end.disk)
    ensures Covers(b0 + SaveStates(saving, disks) + [end], disks, end)
  {
    var b := b0 + SaveStates(saving, disks) + [end];
    forall k | 0 <= k < |disks|
      ensures Passes(b, end.(disk := disks[k]))
    {
      assert b[|b0| + k] == saving.(disk := disks[k]);
    }
  }

  lemma SavesGoOn(su: Setup, confirmed: State, disks: seq<Disk>, readable: bool)
    requires AllCrashSafe(confirmed.disk, disks, su.path, KeyFile.Text(confirmed.target), readable)
    ensures IsChain(NextOf(su), [SavingOf(confirmed)] + SaveStates(SavingOf(confirmed), disks))
  {
    SavesAreChain(su, confirmed, disks, readable, [SavingOf(confirmed)] + SaveStates(SavingOf(confirmed), disks));
  }

  /** A row of disks that the protocol lets a save leave, from the card's confirmation to the end. */
  lemma SavedThrough(su: Setup, origin: State, b0: seq<State>, confirmed: State, disks: seq<Disk>)
    returns (b: seq<State>)
    requires Leads(su, origin, b0, confirmed) && confirmed.phase.Accepted? && disks != []
    requires IsChain(NextOf(su), [SavingOf(confirmed)] + SaveStates(SavingOf(confirmed), disks))
    ensures Leads(su, origin, b, confirmed.(disk := disks[|disks| - 1], phase := Idle))
    ensures Covers(b, disks, confirmed.(disk := disks[|disks| - 1], phase := Idle))
  {
    var saving, last := SavingOf(confirmed), disks[|disks| - 1];
    var b1 := SavingBegins(su, origin, b0, confirmed);
    LeadsOn(su, origin, b1, saving, SaveStates(saving, disks));
    b := SavingEnds(su, origin, b1 + SaveStates(saving, disks), saving.(disk := last));
    SaveStatesCover(b1, saving, disks, confirmed.(disk := last, phase := Idle));
  }

  /** From the card's confirmation through every disk of the save to its end. */
  lemma Saved(su: Setup, origin: State, b0: seq<State>, confirmed: State, disks: seq<Disk>, readable: bool)
    returns (b: seq<State>)
    requires Leads(su, origin, b0, confirmed) && confirmed.phase.Accepted? && disks != []
    requires AllCrashSafe(confirmed.disk, disks, su.path, KeyFile.Text(confirmed.target), readable)
    ensures Leads(su, origin, b, confirmed.(disk := disks[|disks| - 1], phase := Idle))
    ensures Covers(b, disks, confirmed.(disk := disks[|disks| - 1], phase := Idle))
  {
    SavesGoOn(su, confirmed, disks, readable);
    b := SavedThrough(su, origin, b0, confirmed, disks);
  }

  lemma AnswerReached(su: Setup, t: Attempt, w: Station, origin: State, b0: seq<State>, s: State)
    returns (b: seq<State>)
    requires Leads(su, origin, b0, s) && Rests(w, s)
    requires IsCard(w.chip, su.host.cipher) && w.keyVersion == w.card.kvn && t.StaysOn(su.path)
    ensures Leads(su, origin, b, Answer(su, t, w, s))
  {
    b := b0;
    if Transmits(su, w, t) {
      b := Answered(su, t, w, origin, b0, s);
    }
  }

  /** Without the card's confirmation an attempt ends where it stands. */
  lemma EndsUnconfirmed(su: Setup, t: Attempt, w: Station, b: seq<State>, s: State, disks: seq<Disk>, s': State)
    requires Rests(w, s) && !Confirmed(su, w, t) && disks != [] && b != [] && b[|b| - 1] == Answer(su, t, w, s)
    requires forall k :: 0 <= k < |disks| ==> disks[k] == w.disk
    requires s' == Answer(su, t, w, s).(disk := disks[|disks| - 1], phase := Idle)
    ensures s' == Answer(su, t, w, s) && Covers(b, disks, s')
  {
    forall k | 0 <= k < |disks|
      ensures Passes(b, s'.(disk := disks[k]))
    {
      assert b[|b| - 1].(phase := Idle) == s'.(disk := disks[k]).(phase := Idle);
    }
  }

  /** An attempt is a stretch of a behaviour that passes through every disk it leaves on the way. */
  lemma AttemptIsBehaviour(su: Setup, t: Attempt, w: Station, origin: State, b0: seq<State>, s: State,
                           disks: seq<Disk>, cut: Option<nat>, s': State)
    returns (b: seq<State>)
    requires Leads(su, origin, b0, s) && Attempted(su, t, w, s, disks, cut, s')
    requires IsCard(w.chip, su.host.cipher) && w.keyVersion == w.card.kvn && t.StaysOn(su.path)
    ensures Leads(su, origin, b, s') && Covers(b, disks, s')
  {
    b := AnswerReached(su, t, w, origin, b0, s);
    if Confirmed(su, w, t) {
      b := Saved(su, origin, b, Answer(su, t, w, s), disks, su.path in w.disk && !t.around.write.openRead);
    } else {
      EndsUnconfirmed(su, t, w, b, s, disks, s');
    }
  }

  // ---------- the runs ----------

  lemma SafelySavesFromStart(before: Disk, e: Surroundings, path: string, keys: KeySet, rest: seq<Disk>,
                             disks: seq<Disk>, done: bool)
    requires SafelySaves(before, e, path, keys, rest, done) && disks == [before] + rest
    ensures SafelySaves(before, e, path, keys, disks, done)
  {
    var text, readable := KeyFile.Text(keys), path in before && !e.write.openRead;
    assert CrashSafe(before, before, path, text, readable);
    forall k | 0 <= k < |disks|
      ensures CrashSafe(before, disks[k], path, text, readable)
    {
      assert k > 0 ==> CrashSafe(before, rest[k - 1], path, text, readable);
    }
  }

  /** The disks up to the one at which a run is killed; all of them if it does not get that far. */
  function UpTo(disks: seq<Disk>, cut: Option<nat>): seq<Disk> {
    if cut.Some? && cut.value < |disks| then disks[..cut.value + 1] else disks
  }

  lemma SafelySavesUpTo(before: Disk, e: Surroundings, path: string, keys: KeySet, disks: seq<Disk>, done: bool,
                        cut: Option<nat>)
    requires SafelySaves(before, e, path, keys, disks, done)
    ensures SafelySaves(before, e, path, keys, UpTo(disks, cut), cut.None? && done)
  {
    var kept := UpTo(disks, cut);
    forall k | 0 <= k < |kept|
      ensures CrashSafe(before, kept[k], path, KeyFile.Text(keys), path in before && !e.write.openRead)
    {
      assert kept[k] == disks[k];
    }
  }

  /** A run that is not killed passes through the disk it starts from and those of its save. */
  lemma Uncut(su: Setup, t: Attempt, w: Station, rest: seq<Disk>, disks: seq<Disk>)
    requires disks == [w.disk] + rest
    requires Leaves(su, t, w, rest, true)
    ensures PassesThrough(su, t, w, disks, None)
  {
    if Confirmed(su, w, t) {
      SafelySavesFromStart(w.disk, t.around, su.path, KeysOf(su.scan, t.args).value, rest, disks,
                           CanSave(w.disk, su.path, t.around.write));
    }
  }

  /** A run that is killed passes through the disks up to that one. */
  lemma CutOff(su: Setup, t: Attempt, w: Station, disks: seq<Disk>, cut: Option<nat>)
    requires PassesThrough(su, t, w, disks, None)
    ensures PassesThrough(su, t, w, UpTo(disks, cut), cut)
  {
    if Confirmed(su, w, t) {
      SafelySavesUpTo(w.disk, t.around, su.path, KeysOf(su.scan, t.args).value, disks,
                      CanSave(w.disk, su.path, t.around.write), cut);
    }
  }

  /** The disks after the first of an attempt that is left to end: those on record, and the last. */
  function Tail(su: Setup, w: Station, recorded: seq<Disk>, end: Disk): seq<Disk> {
    if Opens(su, w) then recorded + [end] else []
  }

  function Row(su: Setup, w: Station, recorded: seq<Disk>, end: Disk): seq<Disk> {
    [w.disk] + Tail(su, w, recorded, end)
  }

  /** The command with a session open; `recorded` is what it adds to the record. */
  method RunInSession(d: Device, su: Setup, t: Attempt) returns (recorded: seq<Disk>)
    requires t.StaysOn(su.path) && Opens(su, d.Now())
    modifies d, d.fs
    ensures d.card == CardAfter(su, old(d.Now()), t)
    ensures d.fs.crashPoints == old(d.fs.crashPoints) + recorded
    ensures Leaves(su, t, old(d.Now()), recorded + [d.fs.files], true)
  {
    var before := d.fs.crashPoints;
    var outcome := d.Run(su.host, su.scan, t.args, t.around);
    recorded := d.fs.crashPoints[|before|..];
    OldAndNew(before, d.fs.crashPoints);
  }

  lemma OldAndNew(before: seq<Disk>, now: seq<Disk>)
    requires before <= now
    ensures now == before + now[|before|..]
  {
  }

  /** The session opens and the command runs, or it does not open. */
  method RunOnce(d: Device, su: Setup, t: Attempt) returns (recorded: seq<Disk>)
    requires t.StaysOn(su.path)
    modifies d, d.fs
    ensures d.card == CardAfter(su, old(d.Now()), t)
    ensures d.fs.crashPoints == old(d.fs.crashPoints) + recorded
    ensures Leaves(su, t, old(d.Now()), Tail(su, old(d.Now()), recorded, d.fs.files), true)
    ensures !Opens(su, old(d.Now())) ==> recorded == [] && d.fs.files == old(d.fs.files)
  {
    recorded := [];
    if Opens(su, d.Now()) {
      recorded := RunInSession(d, su, t);
    }
  }

  /** An attempt that is left to end. */
  method RunToEnd(d: Device, su: Setup, t: Attempt) returns (recorded: seq<Disk>)
    requires t.StaysOn(su.path)
    modifies d, d.fs
    ensures d.card == CardAfter(su, old(d.Now()), t)
    ensures d.fs.crashPoints == old(d.fs.crashPoints) + recorded
    ensures PassesThrough(su, t, old(d.Now()), Row(su, old(d.Now()), recorded, d.fs.files), None)
    ensures !Opens(su, old(d.Now())) ==> recorded == [] && d.fs.files == old(d.fs.files)
  {
    ghost var w := d.Now();
    recorded := RunOnce(d, su, t);
    Uncut(su, t, w, Tail(su, w, recorded, d.fs.files), Row(su, w, recorded, d.fs.files));
  }

  /** What an attempt adds to the record, the disk it ends with unless it is killed, and the disks it passes through. */
  datatype Passage = Passage(recorded: seq<Disk>, end: Disk, disks: seq<Disk>)

  /** They are all its disks, up to the one at which it is killed. */
  ghost predicate IsPassage(su: Setup, t: Attempt, w: Station, p: Passage) {
    && p.disks == UpTo(Row(su, w, p.recorded, p.end), t.cut)
    && PassesThrough(su, t, w, Row(su, w, p.recorded, p.end), None)
    && (!Opens(su, w) ==> p.recorded == [])
  }

  /** One attempt, killed at the disk where it is cut off, if it gets that far; the record keeps what was to follow. */
  method Try(d: Device, su: Setup, t: Attempt) returns (p: Passage)
    requires t.StaysOn(su.path)
    modifies d, d.fs
    ensures d.card == CardAfter(su, old(d.Now()), t)
    ensures d.fs.crashPoints == old(d.fs.crashPoints) + p.recorded
    ensures IsPassage(su, t, old(d.Now()), p) && p.disks != [] && d.fs.files == p.disks[|p.disks| - 1]
  {
    var w := d.Now();
    var recorded := RunToEnd(d, su, t);
    var row := Row(su, w, recorded, d.fs.files);
    p := Passage(recorded, d.fs.files, UpTo(row, t.cut));
    d.fs.files := p.disks[|p.disks| - 1];
  }

  lemma Left(su: Setup, t: Attempt, w: Station, s: State, disks: seq<Disk>, cut: Option<nat>) returns (s': State)
    requires Rests(w, s) && PassesThrough(su, t, w, disks, cut)
    ensures Attempted(su, t, w, s, disks, cut, s') && disks != []
    ensures s' == Answer(su, t, w, s).(disk := disks[|disks| - 1], phase := Idle)
    ensures s' == State(CardAfter(su, w, t), disks[|disks| - 1], Idle, s'.target, s'.previous)
  {
    s' := Answer(su, t, w, s).(disk := disks[|disks| - 1], phase := Idle);
  }

  /** Every one of these disks is safe beside the card and the record of this state. */
  ghost predicate AllSafe(su: Setup, disks: seq<Disk>, s': State) {
    forall k :: 0 <= k < |disks| ==> Safe(su, s'.(disk := disks[k]))
  }

  lemma CoveredIsSafe(su: Setup, origin: State, b: seq<State>, disks: seq<Disk>, s: State)
    requires KeepsIv(su.host) && Initial(su, origin) && Leads(su, origin, b, s) && Covers(b, disks, s)
    ensures AllSafe(su, disks, s)
  {
    forall k | 0 <= k < |disks|
      ensures Safe(su, s.(disk := disks[k]))
    {
      assert Passes(b, s.(disk := disks[k]));
      var i :| 0 <= i < |b| && b[i].(phase := Idle) == s.(disk := disks[k]).(phase := Idle);
      EveryStateIsSafe(su, b, i);
    }
  }

  /** Every disk on the way to the end of an attempt is safe, also beside what it leaves when it is killed. */
  lemma RowIsSafe(su: Setup, t: Attempt, w: Station, origin: State, b0: seq<State>, s: State, row: seq<Disk>, s': State)
    requires IsCard(w.chip, su.host.cipher) && KeepsIv(su.host) && w.keyVersion == w.card.kvn && t.StaysOn(su.path)
    requires Initial(su, origin) && Leads(su, origin, b0, s) && Rests(w, s) && PassesThrough(su, t, w, row, None)
    requires s' == Answer(su, t, w, s).(disk := s'.disk, phase := Idle)
    ensures AllSafe(su, row, s')
  {
    var end := Left(su, t, w, s, row, None);
    var b := AttemptIsBehaviour(su, t, w, origin, b0, s, row, None, end);
    CoveredIsSafe(su, origin, b, row, end);
    forall k | 0 <= k < |row|
      ensures Safe(su, s'.(disk := row[k]))
    {
      assert s'.(disk := row[k]) == end.(disk := row[k]);
    }
  }

  /** One attempt of a sequence: what it does, and that all its disks are safe, those it is cut off from included. */
  ghost predicate SafeAttempt(su: Setup, t: Attempt, w: Station, s: State, p: Passage, s': State) {
    && Attempted(su, t, w, s, p.disks, t.cut, s') && IsPassage(su, t, w, p)
    && AllSafe(su, Row(su, w, p.recorded, p.end), s') && AllSafe(su, p.recorded, s')
  }

  lemma RecordedInRow(su: Setup, w: Station, p: Passage)
    requires !Opens(su, w) ==> p.recorded == []
    ensures p.recorded == [] || Row(su, w, p.recorded, p.end) == [w.disk] + p.recorded + [p.end]
  {
  }

  lemma InnerHold(holds: Disk -> bool, first: Disk, inner: seq<Disk>, last: Disk, row: seq<Disk>)
    requires (forall k :: 0 <= k < |row| ==> holds(row[k])) && (inner == [] || row == [first] + inner + [last])
    ensures forall k :: 0 <= k < |inner| ==> holds(inner[k])
  {
    forall k | 0 <= k < |inner|
      ensures holds(inner[k])
    {
      assert row[k + 1] == inner[k];
    }
  }

  lemma InnerIsSafe(su: Setup, first: Disk, inner: seq<Disk>, last: Disk, row: seq<Disk>, s': State)
    requires AllSafe(su, row, s') && (inner == [] || row == [first] + inner + [last])
    ensures AllSafe(su, inner, s')
  {
    InnerHold((d: Disk) => Safe(su, s'.(disk := d)), first, inner, last, row);
  }

  lemma SafelyLeft(su: Setup, t: Attempt, w: Station, origin: State, b0: seq<State>, s: State, p: Passage)
    returns (b: seq<State>, s': State)
    requires IsCard(w.chip, su.host.cipher) && KeepsIv(su.host) && w.keyVersion == w.card.kvn && t.StaysOn(su.path)
    requires Initial(su, origin) && Leads(su, origin, b0, s) && Rests(w, s) && IsPassage(su, t, w, p)
    ensures SafeAttempt(su, t, w, s, p, s') && Leads(su, origin, b, s') && Covers(b, p.disks, s')
    ensures p.disks != [] && s' == State(CardAfter(su, w, t), p.disks[|p.disks| - 1], Idle, s'.target, s'.previous)
  {
    var row := Row(su, w, p.recorded, p.end);
    CutOff(su, t, w, row, t.cut);
    s' := Left(su, t, w, s, p.disks, t.cut);
    b := AttemptIsBehaviour(su, t, w, origin, b0, s, p.disks, t.cut, s');
    RowIsSafe(su, t, w, origin, b0, s, row, s');
    RecordedInRow(su, w, p);
    InnerIsSafe(su, w.disk, p.recorded, p.end, row, s');
  }

  /**
    One attempt of a card and a disk that a behaviour of the protocol has led to:
    it goes on with that behaviour, and every disk on its way is safe.
   */
  method RunAsBehaviour(d: Device, su: Setup, t: Attempt, ghost origin: State, ghost b0: seq<State>, ghost s: State)
    returns (p: Passage, ghost b: seq<State>, ghost s': State)
    requires IsCard(d.chip, su.host.cipher) && KeepsIv(su.host) && d.keyVersion == d.card.kvn && t.StaysOn(su.path)
    requires Initial(su, origin) && Leads(su, origin, b0, s) && Rests(d.Now(), s)
    modifies d, d.fs
    ensures d.fs.crashPoints == old(d.fs.crashPoints) + p.recorded
    ensures SafeAttempt(su, t, old(d.Now()), s, p, s') && Rests(d.Now(), s') && d.card.kvn == old(d.card).kvn
    ensures Leads(su, origin, b, s') && Covers(b, p.disks, s')
  {
    ghost var w := d.Now();
    p := Try(d, su, t);
    b, s' := SafelyLeft(su, t, w, origin, b0, s, p);
    SameVersion(su, origin, b0, s);
    SameVersion(su, origin, b, s');
  }

  lemma SameVersion(su: Setup, origin: State, b: seq<State>, s: State)
    requires KeepsIv(su.host) && Initial(su, origin) && Leads(su, origin, b, s)
    ensures s.card.kvn == origin.card.kvn
  {
    EveryStateIsSafe(su, b, |b| - 1);
  }

  /** What all these attempts have added to the record, in order. */
  function AllRecorded(passages: seq<Passage>): seq<Disk> {
    if passages == [] then []
    else AllRecorded(passages[..|passages| - 1]) + passages[|passages| - 1].recorded
  }

  /** A row of states with a passage from each to the next, and a relation that holds of every one. */
  ghost predicate LinkedAt(link: (nat, State, Passage, State) -> bool, states: seq<State>, passages: seq<Passage>,
                           i: nat)
    requires i < |passages| && i + 1 < |states|
  {
    link(i, states[i], passages[i], states[i + 1])
  }

  ghost predicate AllLinked(link: (nat, State, Passage, State) -> bool, states: seq<State>, passages: seq<Passage>) {
    |states| == |passages| + 1 && forall i :: 0 <= i < |passages| ==> LinkedAt(link, states, passages, i)
  }

  lemma OneMore(link: (nat, State, Passage, State) -> bool, states: seq<State>, passages: seq<Passage>, p: Passage,
                s': State)
    requires AllLinked(link, states, passages) && link(|passages|, states[|passages|], p, s')
    ensures AllLinked(link, states + [s'], passages + [p])
  {
    forall i | 0 <= i < |passages| + 1
      ensures LinkedAt(link, states + [s'], passages + [p], i)
    {
      assert i < |passages| ==> LinkedAt(link, states, passages, i);
    }
  }

  /** Attempt `i` leads from one state to the next, safely. */
  ghost function Attempts(su: Setup, chip: Chip, kvn: Byte, attempts: seq<Attempt>)
    : (nat, State, Passage, State) -> bool
  {
    (i: nat, s: State, p: Passage, s': State) =>
      i < |attempts| && SafeAttempt(su, attempts[i], Station(chip, kvn, s.card, s.disk), s, p, s')
  }

  /**
    Any sequence of runs, the first with the card's keys in the file. Whatever
    fails in them and wherever each is killed, on every disk that the file system
    recorded, and on every other disk on the way, the card's keys are the file's,
    or they are the latest run's new ones and the set before them is whole at the
    path or at the backup.
   */
  method RunAll(d: Device, su: Setup, attempts: seq<Attempt>, ghost was: State)
    returns (ghost states: seq<State>, ghost passages: seq<Passage>)
    requires IsCard(d.chip, su.host.cipher) && KeepsIv(su.host) && d.keyVersion == d.card.kvn
    requires Opens(su, d.Now()) && Rests(d.Now(), was)
    requires forall i :: 0 <= i < |attempts| ==> attempts[i].StaysOn(su.path)
    modifies d, d.fs
    ensures |passages| == |attempts| && AllLinked(Attempts(su, d.chip, d.keyVersion, attempts), states, passages)
    ensures states[0] == was && Rests(d.Now(), states[|attempts|])
    ensures d.fs.crashPoints == old(d.fs.crashPoints) + AllRecorded(passages)
  {
    ghost var b, s := [was], was;
    ghost var link := Attempts(su, d.chip, d.keyVersion, attempts);
    states, passages := [was], [];
    var i := 0;
    while i < |attempts|
      invariant i <= |attempts| && |states| == i + 1 && |passages| == i
      invariant states[0] == was && states[i] == s && Rests(d.Now(), s)
      invariant Leads(su, was, b, s) && d.keyVersion == d.card.kvn
      invariant d.fs.crashPoints == old(d.fs.crashPoints) + AllRecorded(passages)
      invariant AllLinked(link, states, passages)
    {
      var p;
      p, b, s := RunAsBehaviour(d, su, attempts[i], was, b, s);
      OneMore(link, states, passages, p, s);
      RecordedToo(old(d.fs.crashPoints), passages, p);
      states, passages := states + [s], passages + [p];
      i := i + 1;
    }
  }

  lemma RecordedToo(before: seq<Disk>, passages: seq<Passage>, p: Passage)
    ensures before + AllRecorded(passages + [p]) == before + AllRecorded(passages) + p.recorded
  {
    assert (passages + [p])[..|passages|] == passages;
  }
}
