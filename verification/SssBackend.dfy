/**
  RSA keys through the SSS session: what RsaKey can sign and export, and the
  certificate request it makes of both.
 */
module SssBackend {
  import opened Prelude
  import opened ObjectStore
  import Der
  import Spki
  import Csr
  import Pem

  /** RSA on the element: the modulus of a pair, and its signature on a digest. */
  datatype Rsa = Rsa(modulus: nat -> seq<Byte>, sign: (nat, seq<Byte>) -> seq<Byte>)

  /** The pair has one of the three sizes on offer, and its numbers have that size. */
  ghost predicate Sound(rsa: Rsa, o: Object) {
    && o.RsaPair? && (o.bits == 2048 || o.bits == 3072 || o.bits == 4096)
    && |rsa.modulus(o.key)| == o.bits / 8 && rsa.modulus(o.key)[0] >= 128
    && forall digest: seq<Byte> :: |rsa.sign(o.key, digest)| == o.bits / 8
  }

  /** The public key of each pair, as the element exports it. */
  function PublicDer(rsa: Rsa): nat -> seq<Byte> {
    (key: nat) => Spki.SpkiDer(rsa.modulus(key), Spki.F4)
  }

  datatype BackendError = NoSuchKey | KeyCallFailed | RequestFailed(error: Csr.CsrError)

  /** `RsaKey`: a handle to a pair on the element, with the size it believes the pair has. */
  class RsaKey {
    const held: Object
    const bits: nat
    const owns: bool

    /** `RsaKey::open`: whatever the pair's size, the handle keeps the default of 2048. */
    constructor Open(held: Object)
      ensures this.held == held && bits == 2048 && !owns
    {
      this.held, bits, owns := held, 2048, false;
    }

    /** `sign`: the element fills a buffer of `bits / 8` octets, or fails. */
    method Sign(rsa: Rsa, digest: seq<Byte>) returns (r: Option<seq<Byte>>)
      ensures r == Signed(rsa, held, bits, digest)
    {
      if !held.RsaPair? || !held.policy.canSign {
        return None;
      }
      var signature := rsa.sign(held.key, digest);
      return if |signature| <= bits / 8 then Some(signature) else None;
    }

    /** `publicKeyDer`: the element fills a buffer of `bits / 8 + 64` octets, or fails. */
    method PublicKeyDer(rsa: Rsa) returns (r: Option<seq<Byte>>)
      ensures r == Exported(rsa, held, bits)
      ensures bits == 2048 ==> (r.Some? <==> |Octets(PublicDer(rsa), held)| <= EXPORT_CAPACITY)
    {
      r := GetKey(PublicDer(rsa), held, bits / 8 + 64);
    }
  }

  function Signed(rsa: Rsa, o: Object, bits: nat, digest: seq<Byte>): Option<seq<Byte>> {
    if !o.RsaPair? || !o.policy.canSign || |rsa.sign(o.key, digest)| > bits / 8 then None
    else Some(rsa.sign(o.key, digest))
  }

  /** What the handle exports: a pair's public key, or a record as it stands. */
  function Exported(rsa: Rsa, o: Object, bits: nat): Option<seq<Byte>> {
    GetKey(PublicDer(rsa), o, bits / 8 + 64)
  }

  /**
    A handle that has been opened, not generated, signs and exports if and only
    if the pair has 2048 bits; the larger sizes that `genkey` offers do not fit
    the buffers it offers.
   */
  lemma OnlyFor2048(rsa: Rsa, o: Object, digest: seq<Byte>)
    requires Sound(rsa, o)
    ensures Exported(rsa, o, 2048).Some? <==> o.bits == 2048
    ensures Signed(rsa, o, 2048, digest).Some? <==> o.bits == 2048 && o.policy.canSign
  {
    Spki.SizeOfGenerated(rsa.modulus(o.key));
  }

  /**
    A new key over SSS: the pair is made whatever its size, and `genkey` exits with
    0 if and only if it is not to be exported or has 2048 bits.
   */
  lemma NewKeyExits0Iff(rsa: Rsa, s: Store, id: Id, bits: nat, policy: KeyPolicy, force: bool, out: bool,
                        newKey: nat, f: Faults)
    requires id !in s && !f.generate && !f.read && Sound(rsa, RsaPair(newKey, bits, policy.Rights()))
    ensures var c := KeyGeneration(id, bits, policy, force, newKey, f);
            && After(s, c) == s[id := RsaPair(newKey, bits, policy.Rights())]
            && (GenkeyExits0(PublicDer(rsa), s, c, out) <==> !out || bits == 2048)
  {
    OnlyFor2048(rsa, RsaPair(newKey, bits, policy.Rights()), []);
    assert s - {id} == s;
  }

  /** A pair with a restricting policy is in the way of every later `genkey --force` over SSS. */
  lemma NoSecondTry(publicDer: nat -> seq<Byte>, s: Store, id: Id, again: Command, out: bool)
    requires id in s && !s[id].policy.canDelete && again.KeyGeneration? && again.id == id && again.force
    ensures !GenkeyExits0(publicDer, s, again, out) && After(s, again) == s
  {
  }

  /** Every pair of this size and policy is sound, whatever its key. */
  ghost predicate AllSound(rsa: Rsa, bits: nat, policy: Policy) {
    forall key: nat :: Sound(rsa, RsaPair(key, bits, policy))
  }

  /**
    A key that `genkey` created over SSS as sign-only or sign-decrypt: whatever is
    run after that, on either path, what is at its id can be used over SSS if and
    only if it was created with 2048 bits. It can never be removed, so that with
    3072 or 4096 bits the id is lost for good.
   */
  lemma CreatedKeyUsableIff(s: Store, id: Id, bits: nat, policy: KeyPolicy, force: bool, newKey: nat, f: Faults,
                            commands: seq<Command>, rsa: Rsa, digest: seq<Byte>)
    requires policy != KeyPolicy.Full && !f.generate && id !in s && AllSound(rsa, bits, policy.Rights())
    ensures var end := AfterAll(After(s, KeyGeneration(id, bits, policy, force, newKey, f)), commands);
            && id in end && Erased(end, id).None?
            && (Exported(rsa, end[id], 2048).Some? <==> bits == 2048)
            && (Signed(rsa, end[id], 2048, digest).Some? <==> bits == 2048)
  {
    var t := After(s, KeyGeneration(id, bits, policy, force, newKey, f));
    assert t[id] == RsaPair(newKey, bits, policy.Rights());
    RestrictedPairStaysRestricted(t, commands, id);
    var key :| AfterAll(t, commands)[id] == t[id].(key := key);
    assert Sound(rsa, RsaPair(key, bits, policy.Rights()));
    OnlyFor2048(rsa, AfterAll(t, commands)[id], digest);
  }

  /** The request that a handle opened on this object makes, if it makes one. */
  function Requested(names: Option<seq<Byte>>, rsa: Rsa, o: Object, sha256: seq<Byte> -> Option<seq<Byte>>)
    : Option<seq<Byte>>
  {
    var spki := Exported(rsa, o, 2048);
    if spki.None? then None
    else Csr.Issued(names, spki.value, Csr.Prehashed(sha256, (digest: seq<Byte>) => Signed(rsa, o, 2048, digest)))
  }

  /** `SssBackend::makeCsr`: opens the key, exports it, and has the request issued and signed. */
  method MakeCsr(objects: Store, id: Id, names: Option<seq<Byte>>, rsa: Rsa,
                 sha256: seq<Byte> -> Option<seq<Byte>>)
    returns (r: Result<string, BackendError>)
    ensures r == Err(NoSuchKey) <==> id !in objects
    ensures r.Ok? <==> id in objects && Requested(names, rsa, objects[id], sha256).Some?
    ensures r.Ok? ==> Pem.PemBytes(Pem.REQUEST_HEADER, Pem.REQUEST_FOOTER, r.value)
                      == Requested(names, rsa, objects[id], sha256)
  {
    if id !in objects {
      return Err(NoSuchKey);
    }
    var key := new RsaKey.Open(objects[id]);
    var spki := key.PublicKeyDer(rsa);
    if spki.None? {
      return Err(KeyCallFailed);
    }
    var csr := Csr.MakeCsr(names, spki.value, sha256, (digest: seq<Byte>) => Signed(rsa, objects[id], 2048, digest));
    r := if csr.Ok? then Ok(csr.value) else Err(RequestFailed(csr.error));
  }

  /**
    For a sound pair a request is made if and only if the pair has 2048 bits and
    may sign, the digest is computed, and the subject is valid and leaves room
    for the key.
   */
  lemma RequestOfSoundPair(names: Option<seq<Byte>>, rsa: Rsa, o: Object, sha256: seq<Byte> -> Option<seq<Byte>>)
    requires Sound(rsa, o)
    ensures Requested(names, rsa, o, sha256).Some?
            <==> o.bits == 2048 && o.policy.canSign && names.Some?
                 && |Csr.CriDer(names.value, SpkiOf(rsa, o))| <= Csr.CRI_CAPACITY
                 && sha256(Csr.CriDer(names.value, SpkiOf(rsa, o))).Some?
  {
    OnlyFor2048(rsa, o, []);
    if names.Some? {
      var cri := Csr.CriDer(names.value, SpkiOf(rsa, o));
      if sha256(cri).Some? {
        OnlyFor2048(rsa, o, sha256(cri).value);
        if |cri| <= Csr.CRI_CAPACITY {
          RequestSize(cri, rsa.sign(o.key, sha256(cri).value));
        }
      }
    }
  }

  /** With a subject of one DER element, the request parses to that subject and the pair's own numbers. */
  lemma RequestCarriesPair(name: Der.Element, rsa: Rsa, o: Object, sha256: seq<Byte> -> Option<seq<Byte>>)
    requires name.tag % 32 != 31 && o.RsaPair? && Requested(Some(name.Encoded()), rsa, o, sha256).Some?
    ensures var q := Csr.ParseRequest(Requested(Some(name.Encoded()), rsa, o, sha256).value);
            && q.Some? && q.value.info.subject == name
            && Spki.ParseSpki(q.value.info.spki) == Some((Spki.Magnitude(rsa.modulus(o.key)), Spki.F4))
            && sha256(q.value.info.Encoded()).Some?
            && q.value.signature == rsa.sign(o.key, sha256(q.value.info.Encoded()).value)
  {
    var signer := Csr.Prehashed(sha256, (digest: seq<Byte>) => Signed(rsa, o, 2048, digest));
    Csr.IssuedRequestIsSelfSigned(name, Der.Element(Der.SEQUENCE, Spki.SpkiBody(rsa.modulus(o.key), Spki.F4)), signer);
    Spki.IssuedRequestCarriesKey(name, rsa.modulus(o.key), Spki.F4,
                                 Csr.Prehashed(sha256, (digest: seq<Byte>) => Signed(rsa, o, 2048, digest)));
  }

  lemma RequestSize(cri: seq<Byte>, signature: seq<Byte>)
    requires |cri| <= Csr.CRI_CAPACITY && |signature| <= 512
    ensures |Csr.CsrDer(cri, signature)| <= Csr.CSR_CAPACITY
  {
    Der.SmallLength(|[0] + signature|);
    Der.SmallLength(|Csr.CsrBody(cri, signature)|);
  }

  /** The pair's public key as a SubjectPublicKeyInfo. */
  function SpkiOf(rsa: Rsa, o: Object): seq<Byte>
    requires o.RsaPair?
  {
    Spki.SpkiDer(rsa.modulus(o.key), Spki.F4)
  }
}
