/**
  The objects on the secure element, and the commands that create, overwrite and
  erase them, over SSS or over PKCS#11.
 */
module ObjectStore {
  import opened Prelude

  type Id = x: int | 0 <= x < 0x1_0000_0000

  /** The rights that matter here; fixed when the object is created. */
  datatype Policy = Policy(canDelete: bool, canWrite: bool, canGenerate: bool, canSign: bool, canDecrypt: bool)

  /** The element's default: no restrictions. */
  const UNRESTRICTED := Policy(true, true, true, true, true)

  /** `Full`, `SignOnly` or `SignDecrypt`. */
  datatype KeyPolicy = Full | SignOnly | SignDecrypt {
    /** The policy `generateKeyWithPolicy` passes; none for Full. */
    function Rights(): Policy {
      match this
      case Full => UNRESTRICTED
      case SignOnly => Policy(false, false, true, true, false)
      case SignDecrypt => Policy(false, false, true, true, true)
    }
  }

  /** A binary object with its octets, or an RSA pair with its (abstract) key material. */
  datatype Object =
    | Binary(data: seq<Byte>, policy: Policy)
    | RsaPair(key: nat, bits: nat, policy: Policy)

  type Store = map<Id, Object>

  /** `readBinary` offers this many octets. */
  const READ_CAPACITY := 2048

  /** A handle that has been opened, which takes every pair for one of 2048 bits, offers this many. */
  const EXPORT_CAPACITY := 2048 / 8 + 64

  // ---------- what the element does ----------

  /** Erasing takes the object's consent. */
  function Erased(s: Store, id: Id): Option<Store> {
    if id in s && s[id].policy.canDelete then Some(s - {id}) else None
  }

  /**
    Setting the octets of a binary object creates it without restrictions, or
    overwrites the beginning of a writable one of at least that size.
   */
  function WithBinary(s: Store, id: Id, data: seq<Byte>): Option<Store> {
    if id !in s then Some(s[id := Binary(data, UNRESTRICTED)])
    else if s[id].Binary? && s[id].policy.canWrite && |data| <= |s[id].data| then
      Some(s[id := Binary(data + s[id].data[|data|..], s[id].policy)])
    else None
  }

  /** Generating creates a pair under the given policy, or a new key in a pair that allows it; policies stay. */
  function WithKey(s: Store, id: Id, bits: nat, policy: Policy, newKey: nat): Option<Store> {
    if id !in s then Some(s[id := RsaPair(newKey, bits, policy)])
    else if s[id].RsaPair? && s[id].bits == bits && s[id].policy.canGenerate then
      Some(s[id := RsaPair(newKey, bits, s[id].policy)])
    else None
  }

  /** What the element has to show of an object: a record's octets, a pair's SubjectPublicKeyInfo. */
  function Octets(publicDer: nat -> seq<Byte>, o: Object): seq<Byte> {
    match o
    case Binary(data, _) => data
    case RsaPair(key, _, _) => publicDer(key)
  }

  /** `sss_key_store_get_key` into a buffer of `capacity` octets. */
  function GetKey(publicDer: nat -> seq<Byte>, o: Object, capacity: nat): Option<seq<Byte>> {
    if |Octets(publicDer, o)| <= capacity then Some(Octets(publicDer, o)) else None
  }

  datatype StoreError = NotFound | CallFailed

  /**
    Calls that fail for reasons of their own: transport, memory, a broken session.
    Only the deletion of a key over PKCS#11 erases a second time.
   */
  datatype Faults = Faults(erase: bool, eraseAgain: bool, store: bool, generate: bool, read: bool)

  const NO_FAULTS := Faults(false, false, false, false, false)

  // ---------- the program ----------

  class SecureElement {
    var objects: Store

    constructor (objects: Store)
      ensures this.objects == objects
    {
      this.objects := objects;
    }

    /** `objectExists`, with reliable look-ups. */
    method ObjectExists(id: Id) returns (b: bool)
      ensures b <==> id in objects
    {
      b := id in objects;
    }

    /** `sss_key_store_erase_key` */
    method Erase(id: Id, fails: bool) returns (ok: bool)
      modifies this
      ensures ok <==> !fails && Erased(old(objects), id).Some?
      ensures objects == if ok then Erased(old(objects), id).value else old(objects)
    {
      var r := Erased(objects, id);
      ok := !fails && r.Some?;
      if ok {
        objects := r.value;
      }
    }

    /** `eraseObject` of se05x_provision.cpp, which does not look at any status. */
    method EraseObject(id: Id, f: Faults)
      modifies this
      ensures objects == if !f.erase && Erased(old(objects), id).Some? then Erased(old(objects), id).value
                         else old(objects)
    {
      var ignored := Erase(id, f.erase);
    }

    /** `eraseKey` of se05x_crypto.cpp, which throws when the erase fails. */
    method EraseKey(id: Id, f: Faults) returns (r: Result<(), StoreError>)
      modifies this
      ensures r.Ok? <==> !f.erase && Erased(old(objects), id).Some?
      ensures objects == if r.Ok? then Erased(old(objects), id).value else old(objects)
    {
      var ok := Erase(id, f.erase);
      return if ok then Ok(()) else Err(CallFailed);
    }

    method StoreBinaryObject(id: Id, data: seq<Byte>, f: Faults) returns (r: Result<(), StoreError>)
      modifies this
      ensures r.Ok? <==> !f.store && WithBinary(old(objects), id, data).Some?
      ensures objects == if r.Ok? then WithBinary(old(objects), id, data).value else old(objects)
    {
      var s := WithBinary(objects, id, data);
      if f.store || s.None? {
        return Err(CallFailed);
      }
      objects := s.value;
      return Ok(());
    }

    /** `writeCert`: erases what is there, then stores. */
    method WriteCert(id: Id, der: seq<Byte>, f: Faults) returns (r: Result<(), StoreError>)
      modifies this
      ensures objects == After(old(objects), CertWrite(id, der, f))
      ensures r.Ok? <==> !f.store && WithBinary(Cleared(old(objects), id, f), id, der).Some?
      ensures r.Ok? ==> id in objects && objects[id].Binary? && der <= objects[id].data
      ensures r.Ok? && (id !in old(objects) || (!f.erase && old(objects)[id].policy.canDelete))
              ==> objects == old(objects)[id := Binary(der, UNRESTRICTED)]
    {
      var exists' := ObjectExists(id);
      if exists' {
        EraseObject(id, f);
      }
      r := StoreBinaryObject(id, der, f);
    }

    /** `writeBinary`: false when the object is there and `force` is not given. */
    method WriteBinary(id: Id, data: seq<Byte>, force: bool, f: Faults) returns (r: Result<bool, StoreError>)
      modifies this
      ensures objects == After(old(objects), InfoWrite(id, data, force, f))
      ensures r == Ok(false) <==> id in old(objects) && !force
      ensures r.Err? <==> (id in old(objects) ==> force)
                          && (f.store || WithBinary(Cleared(old(objects), id, f), id, data).None?)
      ensures r == Ok(true) ==> id in objects && objects[id].Binary? && data <= objects[id].data
      ensures r == Ok(true) && (id !in old(objects) || (!f.erase && old(objects)[id].policy.canDelete))
              ==> objects == old(objects)[id := Binary(data, UNRESTRICTED)]
      ensures r == Ok(false) ==> objects == old(objects)
    {
      var exists' := ObjectExists(id);
      if exists' {
        if !force {
          return Ok(false);
        }
        EraseObject(id, f);
      }
      var stored :- StoreBinaryObject(id, data, f);
      return Ok(true);
    }

    /** `readBinary`: whatever the element shows of the object there, if it fits the buffer. */
    method ReadBinary(publicDer: nat -> seq<Byte>, id: Id, f: Faults) returns (r: Result<seq<Byte>, StoreError>)
      ensures r.Ok? <==> id in objects && |Octets(publicDer, objects[id])| <= 2048 && !f.read
      ensures r.Ok? ==> r.value == Octets(publicDer, objects[id])
      ensures r == Err(NotFound) <==> id !in objects
    {
      if id !in objects {
        return Err(NotFound);
      }
      var octets := GetKey(publicDer, objects[id], READ_CAPACITY);
      if f.read || octets.None? {
        return Err(CallFailed);
      }
      return Ok(octets.value);
    }

    /** `VerifyInfoCommand::run`: exit code 0 for equal contents, 2 for different ones. */
    method VerifyInfo(publicDer: nat -> seq<Byte>, id: Id, expected: seq<Byte>, f: Faults)
      returns (r: Result<int, StoreError>)
      ensures r == Ok(0) <==> !f.read && id in objects && |Octets(publicDer, objects[id])| <= 2048
                              && Octets(publicDer, objects[id]) == expected
      ensures r == Ok(2) <==> !f.read && id in objects && |Octets(publicDer, objects[id])| <= 2048
                              && Octets(publicDer, objects[id]) != expected
      ensures r == Ok(0) <==> !f.read && Reads(publicDer, objects, id, expected)
      ensures r.Ok? ==> r.value == 0 || r.value == 2
    {
      var actual :- ReadBinary(publicDer, id, f);
      return Ok(if actual == expected then 0 else 2);
    }

    /** `SssBackend::deleteKey` */
    method DeleteKey(id: Id, f: Faults) returns (r: Result<(), StoreError>)
      modifies this
      ensures r.Ok? <==> id !in old(objects) || (!f.erase && Erased(old(objects), id).Some?)
      ensures objects == if r.Ok? then old(objects) - {id} else old(objects)
    {
      var exists' := ObjectExists(id);
      if exists' {
        r := EraseKey(id, f);
      } else {
        r := Ok(());
      }
    }

    /**
      `SssBackend::generateKey`: a policy is only ever given to a new object; in an
      existing pair that allows it, a new key comes under the old policy.
     */
    method GenerateKey(id: Id, bits: nat, policy: KeyPolicy, newKey: nat, f: Faults) returns (r: Result<(), StoreError>)
      modifies this
      ensures r.Ok? <==> !f.generate
                         && (id in old(objects)
                             ==> var o := old(objects)[id]; o.RsaPair? && o.bits == bits && o.policy.canGenerate)
      ensures r.Ok? ==> id in objects && objects[id].RsaPair? && objects[id].key == newKey && objects[id].bits == bits
                        && objects[id].policy == if id in old(objects) then old(objects)[id].policy else policy.Rights()
      ensures objects - {id} == old(objects) - {id} && (r.Err? ==> objects == old(objects))
      ensures objects == Generated(old(objects), id, bits, policy.Rights(), newKey, f)
    {
      var s := WithKey(objects, id, bits, policy.Rights(), newKey);
      if f.generate || s.None? {
        return Err(CallFailed);
      }
      objects := s.value;
      return Ok(());
    }

    /** `SssBackend::getSpki`: opens the object and exports it. */
    method GetSpki(publicDer: nat -> seq<Byte>, id: Id, f: Faults) returns (r: Result<seq<Byte>, StoreError>)
      ensures r.Ok? <==> !f.read && id in objects && |Octets(publicDer, objects[id])| <= 320
      ensures r.Ok? ==> r.value == Octets(publicDer, objects[id])
    {
      if id !in objects {
        return Err(NotFound);
      }
      var octets := GetKey(publicDer, objects[id], EXPORT_CAPACITY);
      if f.read || octets.None? {
        return Err(CallFailed);
      }
      return Ok(octets.value);
    }

    /**
      `GenkeyCommand::run` on the SSS backend; `out` says whether the public key is
      to be exported. The export comes last: when it fails, the store has changed.
     */
    method Genkey(publicDer: nat -> seq<Byte>, id: Id, bits: nat, policy: KeyPolicy, force: bool, out: bool,
                  newKey: nat, f: Faults)
      returns (r: Result<Option<seq<Byte>>, StoreError>)
      modifies this
      ensures objects == After(old(objects), KeyGeneration(id, bits, policy, force, newKey, f))
      ensures r.Ok? <==> GenkeyExits0(publicDer, old(objects), KeyGeneration(id, bits, policy, force, newKey, f), out)
      ensures r.Ok? ==> r.value == if out then Some(Octets(publicDer, objects[id])) else None
      ensures r.Ok? ==> if id in old(objects) && !force then objects == old(objects)
                        else objects == old(objects)[id := RsaPair(newKey, bits, policy.Rights())]
      ensures id in old(objects) && force && (f.erase || !old(objects)[id].policy.canDelete)
              ==> r.Err? && objects == old(objects)
      ensures !out ==> (r.Ok? <==> (id in old(objects) && !force)
                                   || (!f.generate && (id in old(objects) ==> !f.erase
                                                                              && old(objects)[id].policy.canDelete)))
    {
      var exists' := ObjectExists(id);
      if exists' && force {
        var deleted :- DeleteKey(id, f);
      }
      if !exists' || force {
        var generated :- GenerateKey(id, bits, policy, newKey, f);
      }
      if !out {
        return Ok(None);
      }
      var spki :- GetSpki(publicDer, id, f);
      return Ok(Some(spki));
    }

    /** `Pkcs11Ctx::findKey`: both halves of a pair are the same object; records are not found. */
    method FindPair(id: Id) returns (b: bool)
      ensures b <==> id in objects && objects[id].RsaPair?
    {
      b := id in objects && objects[id].RsaPair?;
    }

    /** `Pkcs11Backend::deleteKey`: destroys the private, then the public key, and does not look at any status. */
    method DestroyPair(id: Id, f: Faults)
      modifies this
      ensures objects == Destroyed(old(objects), id, f)
      ensures id in old(objects) && old(objects)[id].RsaPair? && old(objects)[id].policy.canDelete
              && (!f.erase || !f.eraseAgain)
              ==> objects == old(objects) - {id}
      ensures id !in old(objects) || !old(objects)[id].RsaPair? || !old(objects)[id].policy.canDelete
              ==> objects == old(objects)
    {
      var private' := FindPair(id);
      if private' {
        EraseObject(id, f);
      }
      var public' := FindPair(id);
      if public' {
        EraseObject(id, f.(erase := f.eraseAgain));
      }
    }

    /**
      `GenkeyCommand::run` on the PKCS#11 backend, which passes no policy on. The
      export takes a buffer of the key's own size; it fails only if a call does.
     */
    method GenkeyOverPkcs11(id: Id, bits: nat, force: bool, out: bool, newKey: nat, f: Faults)
      returns (r: Result<(), StoreError>)
      modifies this
      ensures objects == After(old(objects), TokenKeyGeneration(id, bits, force, newKey, f))
      ensures r.Ok? <==> (if id in old(objects) && old(objects)[id].RsaPair? && !force then true
                          else !f.generate
                               && WithKey(Destroyed(old(objects), id, f), id, bits, UNRESTRICTED, newKey).Some?)
                         && (out ==> !f.read)
      ensures r.Ok? ==> if id in old(objects) && old(objects)[id].RsaPair? && !force then objects == old(objects)
                        else id in objects && objects[id].RsaPair?
                             && objects[id].key == newKey && objects[id].bits == bits
    {
      var exists' := FindPair(id);
      if exists' && force {
        DestroyPair(id, f);
      }
      if !exists' || force {
        var generated :- GenerateKey(id, bits, Full, newKey, f);
      }
      return if out && f.read then Err(CallFailed) else Ok(());
    }
  }

  // ---------- commands as transitions ----------

  /** The commands that touch objects, with their flags; every other command only reads. */
  datatype Command =
    | InfoWrite(id: Id, data: seq<Byte>, force: bool, f: Faults)
    | CertWrite(id: Id, data: seq<Byte>, f: Faults)
    | KeyGeneration(id: Id, bits: nat, policy: KeyPolicy, force: bool, newKey: nat, f: Faults)
    | TokenKeyGeneration(id: Id, bits: nat, force: bool, newKey: nat, f: Faults) // `genkey --pkcs11`
    | ReadOnly

  /** The store after an erase whose failure is ignored. */
  function Cleared(s: Store, id: Id, f: Faults): Store {
    if !f.erase && Erased(s, id).Some? then Erased(s, id).value else s
  }

  /** The store after the two erases of a pair over PKCS#11. */
  function Destroyed(s: Store, id: Id, f: Faults): Store {
    if id in s && s[id].RsaPair? && s[id].policy.canDelete && (!f.erase || !f.eraseAgain) then s - {id} else s
  }

  function Stored(s: Store, id: Id, data: seq<Byte>, f: Faults): Store {
    if !f.store && WithBinary(s, id, data).Some? then WithBinary(s, id, data).value else s
  }

  function Generated(s: Store, id: Id, bits: nat, policy: Policy, newKey: nat, f: Faults): Store {
    if !f.generate && WithKey(s, id, bits, policy, newKey).Some? then WithKey(s, id, bits, policy, newKey).value else s
  }

  /** The store after a command, whether it succeeds or throws. */
  function After(s: Store, c: Command): Store {
    match c
    case ReadOnly => s
    case InfoWrite(id, data, force, f) =>
      if id in s && !force then s else Stored(Cleared(s, id, f), id, data, f)
    case CertWrite(id, data, f) => Stored(Cleared(s, id, f), id, data, f)
    case KeyGeneration(id, bits, policy, force, newKey, f) =>
      if id in s && (!force || f.erase || Erased(s, id).None?) then s
      else Generated(s - {id}, id, bits, policy.Rights(), newKey, f)
    case TokenKeyGeneration(id, bits, force, newKey, f) =>
      if id in s && s[id].RsaPair? && !force then s
      else Generated(Destroyed(s, id, f), id, bits, UNRESTRICTED, newKey, f)
  }

  /** `genkey` over SSS comes to its end: the key is there, and can be exported if that is asked for. */
  predicate GenkeyExits0(publicDer: nat -> seq<Byte>, s: Store, c: Command, out: bool)
    requires c.KeyGeneration?
  {
    && ((c.id in s && !c.force) || (!c.f.generate && (c.id in s ==> !c.f.erase && Erased(s, c.id).Some?)))
    && (out ==> var t := After(s, c);
                !c.f.read && c.id in t && |Octets(publicDer, t[c.id])| <= EXPORT_CAPACITY)
  }

  function AfterAll(s: Store, commands: seq<Command>): Store
    decreases |commands|
  {
    if commands == [] then s else AfterAll(After(s, commands[0]), commands[1..])
  }

  /** An object that may not be deleted, and that is a key or may not be written. */
  predicate Restricted(s: Store, id: Id) {
    id in s && !s[id].policy.canDelete && (s[id].RsaPair? || !s[id].policy.canWrite)
  }

  /**
    The one way into a restricted object: `genkey --pkcs11 --force` with the pair's
    own size, on a pair that allows generation, with a new key as the outcome.
   */
  predicate Regenerates(o: Object, c: Command, id: Id) {
    && c.TokenKeyGeneration? && c.id == id && c.force && !c.f.generate
    && o.RsaPair? && o.bits == c.bits && o.policy.canGenerate && c.newKey != o.key
  }

  /** What one command, with any flags and any failures, makes of a restricted object. */
  lemma OnRestricted(s: Store, c: Command, id: Id)
    requires Restricted(s, id)
    ensures Restricted(After(s, c), id)
    ensures After(s, c)[id] == if Regenerates(s[id], c, id) then s[id].(key := c.newKey) else s[id]
  {
  }

  /** The object is the same after every single one of the commands. */
  predicate Keeps(s: Store, commands: seq<Command>, id: Id)
    decreases |commands|
  {
    && id in s
    && (commands != [] ==> var t := After(s, commands[0]); id in t && t[id] == s[id] && Keeps(t, commands[1..], id))
  }

  lemma {:induction false} KeptToTheEnd(s: Store, commands: seq<Command>, id: Id)
    requires Keeps(s, commands, id)
    ensures id in AfterAll(s, commands) && AfterAll(s, commands)[id] == s[id]
    decreases |commands|
  {
    if commands != [] {
      KeptToTheEnd(After(s, commands[0]), commands[1..], id);
    }
  }

  predicate NeverRegenerates(o: Object, commands: seq<Command>, id: Id) {
    forall i :: 0 <= i < |commands| ==> !Regenerates(o, commands[i], id)
  }

  /**
    Over every sequence of commands, on either path, with any flags and any
    failures, a restricted object stays as it is if and only if no command
    regenerates it over PKCS#11.
   */
  lemma {:induction false} RestrictedObjectKeptIff(s: Store, commands: seq<Command>, id: Id)
    requires Restricted(s, id)
    ensures Keeps(s, commands, id) <==> NeverRegenerates(s[id], commands, id)
    decreases |commands|
  {
    if commands != [] {
      OnRestricted(s, commands[0], id);
      var rest := commands[1..];
      if !Regenerates(s[id], commands[0], id) {
        RestrictedObjectKeptIff(After(s, commands[0]), rest, id);
        assert commands == [commands[0]] + rest;
        assert NeverRegenerates(s[id], commands, id) <==> NeverRegenerates(s[id], rest, id);
      }
    }
  }

  /** Whatever is run, a restricted pair stays a pair of its size under its policy. */
  lemma {:induction false} RestrictedPairStaysRestricted(s: Store, commands: seq<Command>, id: Id)
    requires Restricted(s, id) && s[id].RsaPair?
    ensures Restricted(AfterAll(s, commands), id)
    ensures exists key :: AfterAll(s, commands)[id] == s[id].(key := key)
    decreases |commands|
  {
    if commands == [] {
      assert s[id] == s[id].(key := s[id].key);
    } else {
      OnRestricted(s, commands[0], id);
      RestrictedPairStaysRestricted(After(s, commands[0]), commands[1..], id);
    }
  }

  /**
    A key created over SSS as sign-only or sign-decrypt keeps its material, its size
    and its policy through every sequence of commands exactly if no `genkey
    --pkcs11 --force` with the same size puts another key in its place; over SSS
    alone it always does.
   */
  lemma CreatedKeyKeptIff(s: Store, id: Id, bits: nat, policy: KeyPolicy, force: bool, newKey: nat, f: Faults,
                          commands: seq<Command>)
    requires policy != Full && !f.generate && id !in s
    ensures var t := After(s, KeyGeneration(id, bits, policy, force, newKey, f));
            var pair := RsaPair(newKey, bits, policy.Rights());
            && id in t && t[id] == pair
            && (Keeps(t, commands, id)
                <==> forall i :: 0 <= i < |commands|
                                 ==> !(commands[i].TokenKeyGeneration? && commands[i].id == id && commands[i].force
                                       && !commands[i].f.generate && commands[i].bits == bits
                                       && commands[i].newKey != newKey))
            && ((forall i :: 0 <= i < |commands| ==> !commands[i].TokenKeyGeneration?)
                ==> id in AfterAll(t, commands) && AfterAll(t, commands)[id] == pair)
  {
    var t := After(s, KeyGeneration(id, bits, policy, force, newKey, f));
    var pair := RsaPair(newKey, bits, policy.Rights());
    RestrictedObjectKeptIff(t, commands, id);
    assert forall i :: 0 <= i < |commands| ==> (Regenerates(pair, commands[i], id)
                                                <==> commands[i].TokenKeyGeneration? && commands[i].id == id
                                                     && commands[i].force && !commands[i].f.generate
                                                     && commands[i].bits == bits && commands[i].newKey != newKey);
    if Keeps(t, commands, id) {
      KeptToTheEnd(t, commands, id);
    }
  }

  /** The same command line, whatever the element generates and whatever fails. */
  predicate SameLine(c: Command, c': Command) {
    match c
    case ReadOnly => c'.ReadOnly?
    case InfoWrite(id, data, force, _) => c'.InfoWrite? && c' == InfoWrite(id, data, force, c'.f)
    case CertWrite(id, data, _) => c'.CertWrite? && c' == CertWrite(id, data, c'.f)
    case KeyGeneration(id, bits, policy, force, _, _) =>
      c'.KeyGeneration? && c' == KeyGeneration(id, bits, policy, force, c'.newKey, c'.f)
    case TokenKeyGeneration(id, bits, force, _, _) =>
      c'.TokenKeyGeneration? && c' == TokenKeyGeneration(id, bits, force, c'.newKey, c'.f)
  }

  predicate SameLines(lines: seq<Command>, commands: seq<Command>) {
    |lines| == |commands| && forall i :: 0 <= i < |lines| ==> SameLine(lines[i], commands[i])
  }

  /** The command line `genkey --pkcs11 --force` with this id and size. */
  predicate AsksForAnother(c: Command, id: Id, bits: nat) {
    c.TokenKeyGeneration? && c.id == id && c.force && c.bits == bits
  }

  /**
    A pair under a restricting policy outlives a row of command lines, whatever
    comes of each of them, if and only if no `genkey --pkcs11 --force` with its id
    and size is among them.
   */
  lemma KeptUnderEveryOutcomeIff(s: Store, lines: seq<Command>, id: Id)
    requires Restricted(s, id) && s[id].RsaPair? && s[id].policy.canGenerate
    ensures (forall commands :: SameLines(lines, commands) ==> Keeps(s, commands, id))
            <==> forall i :: 0 <= i < |lines| ==> !AsksForAnother(lines[i], id, s[id].bits)
  {
    if i :| 0 <= i < |lines| && AsksForAnother(lines[i], id, s[id].bits) {
      var commands := lines[i := TokenKeyGeneration(id, s[id].bits, true, s[id].key + 1, NO_FAULTS)];
      assert SameLines(lines, commands);
      assert Regenerates(s[id], commands[i], id);
      RestrictedObjectKeptIff(s, commands, id);
    } else {
      forall commands | SameLines(lines, commands)
        ensures Keeps(s, commands, id)
      {
        assert forall i :: 0 <= i < |lines| ==> SameLine(lines[i], commands[i]);
        RestrictedObjectKeptIff(s, commands, id);
      }
    }
  }

  /**
    The same two command lines but for `--pkcs11`, with nothing failing: over SSS
    the refused erase stops the second `genkey`, and the key stays; over PKCS#11
    the refusal is not looked at, and another key takes its place.
   */
  lemma RefusedEraseMustStop(s: Store, id: Id, bits: nat, policy: KeyPolicy, key: nat, newKey: nat)
    requires policy != Full && id !in s
    ensures var created := KeyGeneration(id, bits, policy, false, key, NO_FAULTS);
            var bySss := AfterAll(s, [created, KeyGeneration(id, bits, policy, true, newKey, NO_FAULTS)]);
            var byToken := AfterAll(s, [created, TokenKeyGeneration(id, bits, true, newKey, NO_FAULTS)]);
            && id in bySss && bySss[id] == RsaPair(key, bits, policy.Rights())
            && id in byToken && byToken[id] == RsaPair(newKey, bits, policy.Rights())
  {
    var created := KeyGeneration(id, bits, policy, false, key, NO_FAULTS);
    TwoCommands(s, created, KeyGeneration(id, bits, policy, true, newKey, NO_FAULTS));
    TwoCommands(s, created, TokenKeyGeneration(id, bits, true, newKey, NO_FAULTS));
  }

  lemma TwoCommands(s: Store, c: Command, d: Command)
    ensures AfterAll(s, [c, d]) == After(After(s, c), d)
  {
    assert [c, d][1..] == [d] && [d][1..] == [];
    assert AfterAll(After(s, c), [d]) == AfterAll(After(After(s, c), d), []);
  }

  /** No `--force`, and no `write-cert`, which overwrites without being asked. */
  predicate Gentle(c: Command) {
    match c
    case ReadOnly => true
    case InfoWrite(_, _, force, _) => !force
    case CertWrite(_, _, _) => false
    case KeyGeneration(_, _, _, force, _, _) => !force
    case TokenKeyGeneration(_, _, force, _, _) => !force
  }

  /** Gentle commands, in any number, leave every existing object as it is. */
  lemma {:induction false} GentleCommandsKeepObjects(s: Store, commands: seq<Command>, id: Id)
    requires id in s && forall i :: 0 <= i < |commands| ==> Gentle(commands[i])
    ensures id in AfterAll(s, commands) && AfterAll(s, commands)[id] == s[id]
    decreases |commands|
  {
    if commands != [] {
      assert Gentle(commands[0]);
      GentleCommandsKeepObjects(After(s, commands[0]), commands[1..], id);
    }
  }

  /** Commands on other targets, in any number, leave an object or its absence as it is. */
  lemma {:induction false} OthersDoNotMatter(s: Store, commands: seq<Command>, id: Id)
    requires forall i :: 0 <= i < |commands| ==> commands[i].ReadOnly? || commands[i].id != id
    ensures id in AfterAll(s, commands) <==> id in s
    ensures id in s ==> AfterAll(s, commands)[id] == s[id]
    decreases |commands|
  {
    if commands != [] {
      assert commands[0].ReadOnly? || commands[0].id != id;
      OthersDoNotMatter(After(s, commands[0]), commands[1..], id);
    }
  }

  /** What `read-info` reads at `id`. */
  predicate Reads(publicDer: nat -> seq<Byte>, s: Store, id: Id, data: seq<Byte>) {
    id in s && GetKey(publicDer, s[id], READ_CAPACITY) == Some(data)
  }

  /**
    A write that the element stores, forced or to a free id, is read back exactly,
    after any commands on other objects, if and only if the data fit the read buffer
    and the old object was absent or erased before, or had the data's length.
   */
  lemma WriteReadsBack(publicDer: nat -> seq<Byte>, s: Store, id: Id, data: seq<Byte>, force: bool, f: Faults,
                       commands: seq<Command>)
    requires force || id !in s
    requires !f.store && WithBinary(Cleared(s, id, f), id, data).Some?
    requires forall i :: 0 <= i < |commands| ==> commands[i].ReadOnly? || commands[i].id != id
    ensures var all := [InfoWrite(id, data, force, f)] + commands;
            Reads(publicDer, AfterAll(s, all), id, data)
            <==> |data| <= 2048
                 && (id !in s || (s[id].policy.canDelete && !f.erase) || (s[id].Binary? && |s[id].data| == |data|))
  {
    var all := [InfoWrite(id, data, force, f)] + commands;
    assert all[1..] == commands;
    OthersDoNotMatter(After(s, all[0]), commands, id);
    StoredIs(Cleared(s, id, f), id, data);
  }

  /** The same of a certificate, which is written as if forced. */
  lemma CertificateReadsBack(publicDer: nat -> seq<Byte>, s: Store, id: Id, der: seq<Byte>, f: Faults,
                             commands: seq<Command>)
    requires !f.store && WithBinary(Cleared(s, id, f), id, der).Some?
    requires forall i :: 0 <= i < |commands| ==> commands[i].ReadOnly? || commands[i].id != id
    ensures var all := [CertWrite(id, der, f)] + commands;
            Reads(publicDer, AfterAll(s, all), id, der)
            <==> |der| <= 2048
                 && (id !in s || (s[id].policy.canDelete && !f.erase) || (s[id].Binary? && |s[id].data| == |der|))
  {
    var all := [CertWrite(id, der, f)] + commands;
    assert all[1..] == commands;
    OthersDoNotMatter(After(s, all[0]), commands, id);
    StoredIs(Cleared(s, id, f), id, der);
  }

  /** Stored data are there in front of what remains of the old ones, and alone if there were no more. */
  lemma StoredIs(s: Store, id: Id, data: seq<Byte>)
    requires WithBinary(s, id, data).Some?
    ensures var t := WithBinary(s, id, data).value;
            && id in t && t[id].Binary? && data <= t[id].data
            && (t[id].data == data <==> id !in s || |s[id].data| == |data|)
  {
    if id in s {
      assert |data| == |s[id].data| ==> data + s[id].data[|data|..] == data;
    }
  }

  /** A new record, and a new key, are there after any commands on other objects. */
  lemma FreshObjectStays(s: Store, id: Id, data: seq<Byte>, bits: nat, policy: KeyPolicy, newKey: nat, force: bool,
                         f: Faults, commands: seq<Command>)
    requires id !in s && !f.store && !f.generate
    requires forall i :: 0 <= i < |commands| ==> commands[i].ReadOnly? || commands[i].id != id
    ensures var t := AfterAll(After(s, InfoWrite(id, data, force, f)), commands);
            id in t && t[id] == Binary(data, UNRESTRICTED)
    ensures var t := AfterAll(After(s, KeyGeneration(id, bits, policy, force, newKey, f)), commands);
            id in t && t[id] == RsaPair(newKey, bits, policy.Rights())
    ensures var t := AfterAll(After(s, TokenKeyGeneration(id, bits, force, newKey, f)), commands);
            id in t && t[id] == RsaPair(newKey, bits, UNRESTRICTED)
  {
    OthersDoNotMatter(After(s, InfoWrite(id, data, force, f)), commands, id);
    OthersDoNotMatter(After(s, KeyGeneration(id, bits, policy, force, newKey, f)), commands, id);
    OthersDoNotMatter(After(s, TokenKeyGeneration(id, bits, force, newKey, f)), commands, id);
  }

  /** A forced `genkey` replaces a pair that may be deleted, on either path. */
  lemma DeletablePairReplaced(s: Store, id: Id, bits: nat, policy: KeyPolicy, newKey: nat, f: Faults)
    requires id in s && s[id].RsaPair? && s[id].policy.canDelete && !f.erase && !f.generate
    ensures After(s, KeyGeneration(id, bits, policy, true, newKey, f))
            == s[id := RsaPair(newKey, bits, policy.Rights())]
    ensures After(s, TokenKeyGeneration(id, bits, true, newKey, f)) == s[id := RsaPair(newKey, bits, UNRESTRICTED)]
  {
  }

  /** What each policy grants: only `full` may be erased or overwritten, and `sign-only` cannot decrypt. */
  lemma RightsGranted(policy: KeyPolicy)
    ensures policy.Rights().canSign && policy.Rights().canGenerate
    ensures policy.Rights().canDecrypt <==> policy != SignOnly
    ensures policy.Rights().canDelete <==> policy == Full
    ensures policy.Rights().canWrite <==> policy == Full
  {
  }

  /** A forced write of one octet over three, of which the erase failed: the other two are still there. */
  lemma OldTailReadBack(publicDer: nat -> seq<Byte>, id: Id)
    ensures var s := After(map[id := Binary([1, 2, 3], UNRESTRICTED)],
                           InfoWrite(id, [9], true, NO_FAULTS.(erase := true)));
            Reads(publicDer, s, id, [9, 2, 3]) && !Reads(publicDer, s, id, [9])
  {
    var before: seq<Byte>, after: seq<Byte> := [1, 2, 3], [9];
    assert after + before[1..] == [9, 2, 3];
    var s := map[id := Binary(before, UNRESTRICTED)];
    assert WithBinary(s, id, after) == Some(s[id := Binary([9, 2, 3], UNRESTRICTED)]);
  }
}
