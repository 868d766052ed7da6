/**
  SCP03 key rotation as a protocol between the host, the card and the disk, over
  any number of runs, each of which may fail or be cut off between any two steps.
 */
module Rotation {
  import opened Prelude
  import opened Keys
  import Hex
  import KeyFile
  import opened KeyFileWrite
  import opened PutKey

  /** What stays the same over all runs: the host's crypto, its scanner, and the key file's path. */
  datatype Setup = Setup(host: Host, scan: Hex.Scan, path: string)

  /** The host's CBC call leaves the caller's IV as it was. */
  ghost predicate KeepsIv(h: Host) {
    forall iv: Block, out: Block :: h.ivAfter(iv, out) == iv
  }

  /**
    Where the current run stands. Idle is between runs: after a normal end, an
    exception or a crash alike.
   */
  datatype Phase = Idle | Opened | Loaded(dek: Block) | Accepted | Saving(before: Disk)

  /**
    The card, the disk and the run; `target` and `previous` record the keys that
    the latest run was to install and those it found on the card.
   */
  datatype State = State(card: Card, disk: Disk, phase: Phase, target: KeySet, previous: KeySet)

  /** The key set in a file, if the file is there and whole. */
  function KeysIn(su: Setup, d: Disk, name: string): Option<KeySet> {
    if name in d then KeyFile.ReadText(su.scan, d[name]) else None
  }

  /** A session opens only with the card's own keys, which the boot path takes from the key file. */
  ghost predicate Begins(su: Setup, s: State, s': State) {
    && s.phase.Idle? && KeysIn(su, s.disk, su.path) == Some(s.card.keys)
    && s' == s.(phase := Opened, target := s'.target, previous := s.card.keys)
  }

  ghost predicate LoadsDek(su: Setup, s: State, s': State) {
    && s.phase.Opened? && s'.phase.Loaded? && s' == s.(phase := s'.phase)
    && su.path in s.disk && KeyFile.Find(su.scan, s.disk[su.path], "DEK") == Some(s'.phase.dek)
  }

  /**
    PUT KEY reaches the card, which answers or refuses. The answer may get lost;
    only the expected echo takes the run further.
   */
  ghost predicate Sends(su: Setup, s: State, s': State, refuses: bool) {
    && s.phase.Loaded?
    && var (card, response) := Process(su.host.cipher, s.card, Header(s.card.kvn),
                                       Body(su.host, s.phase.dek, s.card.kvn, s.target), refuses);
       && s' == s.(card := card, phase := s'.phase)
       && (s'.phase.Idle?
           || (s'.phase.Accepted? && Accepts(response, Echo(su.host.cipher, s.card.kvn, s.target))))
  }

  ghost predicate StartsSaving(s: State, s': State) {
    s.phase.Accepted? && s' == s.(phase := Saving(s.disk))
  }

  /** Any state of the disk that a write of the target can leave behind. */
  ghost predicate Saves(su: Setup, s: State, s': State, readable: bool) {
    && s.phase.Saving? && s' == s.(disk := s'.disk)
    && CrashSafe(s.phase.before, s'.disk, su.path, KeyFile.Text(s.target), readable)
  }

  /** The run ends, by whatever cause, with the card and the disk as they are. */
  ghost predicate Stops(s: State, s': State) {
    s' == s.(phase := Idle)
  }

  ghost predicate Next(su: Setup, s: State, s': State) {
    || Begins(su, s, s') || LoadsDek(su, s, s') || StartsSaving(s, s') || Stops(s, s')
    || (exists refuses :: Sends(su, s, s', refuses))
    || (exists readable :: Saves(su, s, s', readable))
  }

  ghost predicate StepsAt(su: Setup, states: seq<State>, i: nat)
    requires i + 1 < |states|
  {
    Next(su, states[i], states[i + 1])
  }

  ghost predicate IsBehaviour(su: Setup, states: seq<State>) {
    && states != []
    && forall i: nat :: i + 1 < |states| ==> StepsAt(su, states, i)
  }

  ghost predicate Initial(su: Setup, s: State) {
    s.phase.Idle? && KeysIn(su, s.disk, su.path) == Some(s.card.keys)
  }

  /**
    The card's keys are in the file, or they are the latest run's new keys and
    the set before them is whole at the path or at the backup.
   */
  ghost predicate Safe(su: Setup, s: State) {
    || KeysIn(su, s.disk, su.path) == Some(s.card.keys)
    || (&& s.card.keys == s.target
        && (KeysIn(su, s.disk, su.path) == Some(s.previous)
            || KeysIn(su, s.disk, Backup(su.path)) == Some(s.previous)))
  }

  /** What each phase keeps. */
  ghost predicate Invariant(su: Setup, s: State) {
    match s.phase
    case Idle => Safe(su, s)
    case Opened => s.card.keys == s.previous && KeysIn(su, s.disk, su.path) == Some(s.previous)
    case Loaded(dek) =>
      && s.card.keys == s.previous && KeysIn(su, s.disk, su.path) == Some(s.previous)
      && dek == s.previous.dek
    case Accepted => s.card.keys == s.target && KeysIn(su, s.disk, su.path) == Some(s.previous)
    case Saving(before) =>
      && s.card.keys == s.target && KeysIn(su, before, su.path) == Some(s.previous)
      && exists readable :: CrashSafe(before, s.disk, su.path, KeyFile.Text(s.target), readable)
  }

  /** A save that has not moved anything is itself crash-safe, as is any disk it leaves. */
  lemma CrashSafeIsSafe(su: Setup, s: State, before: Disk, readable: bool)
    requires s.card.keys == s.target && KeysIn(su, before, su.path) == Some(s.previous)
    requires CrashSafe(before, s.disk, su.path, KeyFile.Text(s.target), readable)
    ensures Safe(su, s)
  {
    KeyFile.ReadAfterWrite(su.scan, s.target);
  }

  lemma InvariantIsSafe(su: Setup, s: State)
    requires Invariant(su, s)
    ensures Safe(su, s)
  {
    if s.phase.Saving? {
      var readable :| CrashSafe(s.phase.before, s.disk, su.path, KeyFile.Text(s.target), readable);
      CrashSafeIsSafe(su, s, s.phase.before, readable);
    }
  }

  /** A command wrapped with the card's own DEK installs exactly the target, or nothing. */
  lemma CommandInstallsTarget(h: Host, card: Card, target: KeySet, refuses: bool)
    requires KeepsIv(h)
    ensures Process(h.cipher, card, Header(card.kvn), Body(h, card.keys.dek, card.kvn, target), refuses)
            == if refuses then (card, SW_WRONG_DATA)
               else (Card(card.kvn, target), Echo(h.cipher, card.kvn, target) + SW_OK)
    ensures Accepts(Echo(h.cipher, card.kvn, target) + SW_OK, Echo(h.cipher, card.kvn, target))
    ensures !Accepts(SW_WRONG_DATA, Echo(h.cipher, card.kvn, target))
  {
    EchoAccepted(Echo(h.cipher, card.kvn, target));
    BodyRoundTrip(h, card.keys.dek, card.kvn, target);
  }

  lemma SendKeepsInvariant(su: Setup, s: State, s': State, refuses: bool)
    requires KeepsIv(su.host) && Invariant(su, s) && Sends(su, s, s', refuses)
    ensures Invariant(su, s') && s'.card.kvn == s.card.kvn
  {
    CommandInstallsTarget(su.host, s.card, s.target, refuses);
  }

  lemma NextKeepsInvariant(su: Setup, s: State, s': State)
    requires KeepsIv(su.host) && Invariant(su, s) && Next(su, s, s')
    ensures Invariant(su, s') && s'.card.kvn == s.card.kvn
  {
    if Stops(s, s') {
      InvariantIsSafe(su, s);
    } else if refuses :| Sends(su, s, s', refuses) {
      SendKeepsInvariant(su, s, s', refuses);
    } else if StartsSaving(s, s') {
      assert CrashSafe(s.disk, s'.disk, su.path, KeyFile.Text(s'.target), false);
    }
  }

  lemma StepKeepsInvariant(su: Setup, states: seq<State>, i: nat)
    requires KeepsIv(su.host) && IsBehaviour(su, states) && i + 1 < |states| && Invariant(su, states[i])
    ensures Invariant(su, states[i + 1]) && states[i + 1].card.kvn == states[i].card.kvn
  {
    assert StepsAt(su, states, i);
    NextKeepsInvariant(su, states[i], states[i + 1]);
  }

  /** What holds at the start and is kept by every step holds everywhere. */
  lemma {:induction false} HoldsThroughout(states: seq<State>, holds: State -> bool, i: nat)
    requires i < |states| && holds(states[0])
    requires forall j: nat :: j + 1 < |states| && holds(states[j]) ==> holds(states[j + 1])
    ensures holds(states[i])
  {
    if i > 0 {
      HoldsThroughout(states, holds, i - 1);
    }
  }

  lemma InvariantAlwaysHolds(su: Setup, states: seq<State>, i: nat)
    requires KeepsIv(su.host) && IsBehaviour(su, states) && Initial(su, states[0]) && i < |states|
    ensures Invariant(su, states[i]) && states[i].card.kvn == states[0].card.kvn
  {
    var holds := (s: State) => Invariant(su, s) && s.card.kvn == states[0].card.kvn;
    forall j: nat | j + 1 < |states| && holds(states[j])
      ensures holds(states[j + 1])
    {
      StepKeepsInvariant(su, states, j);
    }
    HoldsThroughout(states, holds, i);
  }

  /**
    Over every sequence of runs, with a failure or a crash between any two steps,
    the card's keys are the file's or the latest run's new keys; while they
    differ from the file's, the set before them is whole at the path or at the
    backup. The key version never changes.
   */
  lemma EveryStateIsSafe(su: Setup, states: seq<State>, i: nat)
    requires KeepsIv(su.host) && IsBehaviour(su, states) && Initial(su, states[0]) && i < |states|
    ensures Safe(su, states[i]) && states[i].card.kvn == states[0].card.kvn
  {
    InvariantAlwaysHolds(su, states, i);
    InvariantIsSafe(su, states[i]);
  }
}
