/**
  Operations on one PKCS#11 session: which of them leave the session idle, by
  the rules of PKCS#11 v2.40 section 5.2 for functions that return output.
 */
module Pkcs11 {
  import opened Prelude

  datatype Kind = Find | Sign | Verify | Encrypt | Decrypt

  datatype Operation = Idle | Active(kind: Kind)

  /** The session, and how many `*Init` calls it has refused with CKR_OPERATION_ACTIVE. */
  datatype State = State(operation: Operation, clashes: nat)

  /** How the token ends a call that had a buffer to fill. */
  datatype Output = Done(data: seq<Byte>) | TooSmall | Failed

  /**
    What the token answers during one sign, encrypt or decrypt: whether it
    refuses the Init, the length it reports to a call without a buffer (None: it
    fails), and what it does with a buffer of that length.
   */
  datatype Answers = Answers(refuses: bool, length: Option<nat>, output: Output) {
    /** The length is positive, and a buffer of that length is large enough. */
    predicate Consistent() {
      !refuses && length.Some? ==> length.value > 0 && !output.TooSmall?
    }
  }

  datatype TokenError = OperationActive | Refused | NotInitialized | BufferTooSmall | FunctionFailed

  class Session {
    var state: State

    constructor ()
      ensures state == State(Idle, 0)
    {
      state := State(Idle, 0);
    }

    method Init(kind: Kind, refuses: bool) returns (r: Result<(), TokenError>)
      modifies this
      ensures r.Ok? <==> old(state).operation.Idle? && !refuses
      ensures state == if old(state).operation.Active? then old(state).(clashes := old(state).clashes + 1)
                       else if refuses then old(state)
                       else old(state).(operation := Active(kind))
    {
      if state.operation.Active? {
        state := state.(clashes := state.clashes + 1);
        return Err(OperationActive);
      }
      if refuses {
        return Err(Refused);
      }
      state := state.(operation := Active(kind));
      return Ok(());
    }

    /** A call without a buffer asks for the length and leaves the operation active, unless it fails. */
    method Query(kind: Kind, length: Option<nat>) returns (r: Result<nat, TokenError>)
      modifies this
      ensures r.Ok? <==> old(state).operation == Active(kind) && length.Some?
      ensures r.Ok? ==> r.value == length.value && state == old(state)
      ensures r.Err? ==> state == if old(state).operation == Active(kind) then old(state).(operation := Idle)
                                  else old(state)
    {
      if state.operation != Active(kind) {
        return Err(NotInitialized);
      }
      if length.None? {
        state := state.(operation := Idle);
        return Err(FunctionFailed);
      }
      return Ok(length.value);
    }

    /** A call with a buffer ends the operation, unless the buffer is too small. */
    method Execute(kind: Kind, output: Output) returns (r: Result<seq<Byte>, TokenError>)
      modifies this
      ensures r.Ok? <==> old(state).operation == Active(kind) && output.Done?
      ensures r.Ok? ==> r.value == output.data
      ensures state == if old(state).operation == Active(kind) && !output.TooSmall?
                       then old(state).(operation := Idle)
                       else old(state)
    {
      if state.operation != Active(kind) {
        return Err(NotInitialized);
      }
      if output.TooSmall? {
        return Err(BufferTooSmall);
      }
      state := state.(operation := Idle);
      return if output.Done? then Ok(output.data) else Err(FunctionFailed);
    }

    /**
      `signRsa`, `encryptRsa` and `decryptRsa`: Init, ask for the length, then
      call again with a vector of that length. An empty vector has no buffer, so
      that for length 0 the second call is another question for the length.
     */
    method OneShot(kind: Kind, a: Answers) returns (r: Result<seq<Byte>, TokenError>)
      modifies this
      ensures state == After(old(state), Produce(kind, a))
      ensures r.Ok? <==> old(state).operation.Idle? && !a.refuses && a.length.Some?
                         && (a.length.value == 0 || a.output.Done?)
      ensures r.Ok? ==> r.value == if a.length.value == 0 then [] else a.output.data
    {
      var begun :- Init(kind, a.refuses);
      var n :- Query(kind, a.length);
      if n == 0 {
        var again := Query(kind, a.length);
        return Ok([]);
      }
      r := Execute(kind, a.output);
    }

    /** `verifyRsa`: C_Verify ends the operation whatever it finds. */
    method VerifyRsa(refuses: bool, valid: bool) returns (ok: bool)
      modifies this
      ensures state == After(old(state), Check(refuses))
      ensures ok <==> old(state).operation.Idle? && !refuses && valid
    {
      var begun := Init(Verify, refuses);
      if begun.Err? {
        return false;
      }
      var done := Execute(Verify, if valid then Done([]) else Failed);
      return done.Ok?;
    }

    /** `C_FindObjectsFinal`: ends the search, unless it fails. */
    method FindFinal(fails: bool) returns (r: Result<(), TokenError>)
      modifies this
      ensures r.Ok? <==> old(state).operation == Active(Find) && !fails
      ensures state == if r.Ok? then old(state).(operation := Idle) else old(state)
    {
      if state.operation != Active(Find) {
        return Err(NotInitialized);
      }
      if fails {
        return Err(FunctionFailed);
      }
      state := state.(operation := Idle);
      return Ok(());
    }

    /** `findKey`: the statuses of the search and of its end are not looked at. */
    method FindKey(refuses: bool, handle: Option<nat>, finalFails: bool) returns (found: Option<nat>)
      modifies this
      ensures state == After(old(state), Search(refuses, finalFails))
      ensures found == if old(state).operation.Idle? && !refuses then handle else None
    {
      var begun := Init(Find, refuses);
      if begun.Err? {
        return None;
      }
      var ignored := FindFinal(finalFails);
      return handle;
    }
  }

  /** The public calls that use an operation of the session. */
  datatype Call =
    | Produce(kind: Kind, answers: Answers)
    | Check(refuses: bool)
    | Search(refuses: bool, finalFails: bool)
  {
    /** The token answers the call in a way that lets it end its operation. */
    predicate Consistent() {
      match this
      case Produce(_, answers) => answers.Consistent()
      case Check(_) => true
      case Search(refuses, finalFails) => !refuses ==> !finalFails
    }

    /** The operation that the call begins. */
    function Begins(): Kind {
      match this
      case Produce(kind, _) => kind
      case Check(_) => Verify
      case Search(_, _) => Find
    }
  }

  function After(s: State, c: Call): State {
    if s.operation.Active? then s.(clashes := s.clashes + 1)
    else if !c.Consistent() then s.(operation := Active(c.Begins()))
    else s
  }

  function AfterAll(s: State, calls: seq<Call>): State {
    if calls == [] then s
    else After(AfterAll(s, calls[..|calls| - 1]), calls[|calls| - 1])
  }

  predicate AllConsistent(calls: seq<Call>) {
    forall i :: 0 <= i < |calls| ==> calls[i].Consistent()
  }

  /**
    Starting idle, a sequence of calls, failing ones included, ends idle with
    every Init issued in an idle session if and only if the token never reports
    a length of 0 or one that turns out too small, and never fails to end a search.
   */
  lemma {:induction false} IdleBetweenCalls(calls: seq<Call>)
    ensures AfterAll(State(Idle, 0), calls) == State(Idle, 0) <==> AllConsistent(calls)
    ensures AfterAll(State(Idle, 0), calls).clashes > 0 ==> AfterAll(State(Idle, 0), calls).operation.Active?
  {
    if calls != [] {
      var init, last := calls[..|calls| - 1], calls[|calls| - 1];
      IdleBetweenCalls(init);
      assert calls == init + [last];
      assert AllConsistent(calls) <==> AllConsistent(init) && last.Consistent();
    }
  }

  /** What the token must answer to every sign, encrypt and decrypt, and to every search. */
  lemma IdleIff(calls: seq<Call>)
    ensures AfterAll(State(Idle, 0), calls) == State(Idle, 0)
            <==> forall i :: 0 <= i < |calls|
                   ==> && (calls[i].Produce? && !calls[i].answers.refuses && calls[i].answers.length.Some?
                           ==> calls[i].answers.length.value > 0 && !calls[i].answers.output.TooSmall?)
                       && (calls[i].Search? && !calls[i].refuses ==> !calls[i].finalFails)
  {
    IdleBetweenCalls(calls);
  }

  /** A token that reports length 0: the operation stays active, and no later call gets through. */
  lemma ZeroLengthBlocks(kind: Kind, later: Call)
    ensures var s := AfterAll(State(Idle, 0), [Produce(kind, Answers(false, Some(0), Failed))]);
            s == State(Active(kind), 0) && After(s, later) == State(Active(kind), 1)
  {
    var call := Produce(kind, Answers(false, Some(0), Failed));
    assert [call][..0] == [];
    assert AfterAll(State(Idle, 0), []) == State(Idle, 0);
  }
}
