/**
  The GlobalPlatform PUT KEY body (Card Specification 2.3.1, section 11.8): how
  the host builds it from three new keys and the current DEK, and how the card
  takes it apart.
 */
module PutKey {
  import opened Prelude
  import opened Keys

  const KEY_TYPE_AES: Byte := 0x88
  const KEY_LENGTH: Byte := 16
  const KCV_LENGTH: Byte := 3
  const BLOCK_SIZE := 23
  const ZEROS: Block := [0, 0, 0, 0, 0, 0, 0, 0, 0, 0, 0, 0, 0, 0, 0, 0]
  const ONES: Block := [1, 1, 1, 1, 1, 1, 1, 1, 1, 1, 1, 1, 1, 1, 1, 1]

  // ---------- the cipher ----------

  datatype RawCipher = RawCipher(encrypt: (Block, Block) -> Block, decrypt: (Block, Block) -> Block)

  ghost predicate Invertible(c: RawCipher) {
    forall key: Block, block: Block :: c.decrypt(key, c.encrypt(key, block)) == block
  }

  /** AES on one block: for each key, `decrypt` undoes `encrypt`. Nothing else is known of it. */
  type Cipher = c: RawCipher | Invertible(c)
    ghost witness RawCipher((key: Block, block: Block) => block, (key: Block, block: Block) => block)

  function PowerOfTwo(n: nat): nat {
    if n == 0 then 1 else 2 * PowerOfTwo(n - 1)
  }

  /** Exclusive or of the `n` low bits. */
  function XorBits(a: nat, b: nat, n: nat): (x: nat)
    ensures x < PowerOfTwo(n)
  {
    if n == 0 then 0 else 2 * XorBits(a / 2, b / 2, n - 1) + (a % 2 + b % 2) % 2
  }

  function XorByte(a: Byte, b: Byte): Byte {
    EightBits();
    XorBits(a, b, 8)
  }

  lemma EightBits()
    ensures PowerOfTwo(8) == 256
  {
    assert PowerOfTwo(2) == 4;
    assert PowerOfTwo(4) == 16;
    assert PowerOfTwo(6) == 64;
  }

  function Xor(a: Block, b: Block): Block {
    seq(16, i requires 0 <= i < 16 => XorByte(a[i], b[i]))
  }

  lemma {:induction false} XorBitsIdentity(a: nat, b: nat, n: nat)
    requires a < PowerOfTwo(n) && b < PowerOfTwo(n)
    ensures XorBits(a, b, n) == b <==> a == 0
  {
    if n > 0 {
      XorBitsIdentity(a / 2, b / 2, n - 1);
    }
  }

  lemma XorByteIdentity(a: Byte, b: Byte)
    ensures XorByte(a, b) == b <==> a == 0
  {
    EightBits();
    XorBitsIdentity(a, b, 8);
  }

  lemma XorIdentity(a: Block, b: Block)
    ensures Xor(a, b) == b <==> a == ZEROS
  {
    forall i | 0 <= i < 16
      ensures Xor(a, b)[i] == b[i] <==> a[i] == ZEROS[i]
    {
      XorByteIdentity(a[i], b[i]);
    }
  }

  /** One block of CBC encryption. */
  function Cbc(c: Cipher, key: Block, iv: Block, plain: Block): Block {
    c.encrypt(key, Xor(iv, plain))
  }

  /** The key check value as the card recomputes it: the first octets of an encrypted block of ones. */
  function Kcv(c: Cipher, key: Block): (kcv: seq<Byte>)
    ensures |kcv| == 3
  {
    c.encrypt(key, ONES)[..3]
  }

  /**
    The host's crypto library: its cipher, and what a CBC call leaves in the
    caller's IV, given the IV passed in and the last block put out.
   */
  datatype Host = Host(cipher: Cipher, ivAfter: (Block, Block) -> Block)

  /** The IV that the wrapping call of a key finds: the one its KCV call left. */
  function WrapIv(h: Host, key: Block): Block {
    h.ivAfter(ZEROS, Cbc(h.cipher, key, ZEROS, ONES))
  }

  function Wrapped(h: Host, dek: Block, key: Block): Block {
    Cbc(h.cipher, dek, WrapIv(h, key), key)
  }

  /**
    The key that comes out of unwrapping is the key that went in if and only if
    the KCV computation left the shared IV zero.
   */
  lemma UnwrapsIff(h: Host, dek: Block, key: Block)
    ensures h.cipher.decrypt(dek, Wrapped(h, dek, key)) == key <==> WrapIv(h, key) == ZEROS
  {
    XorIdentity(WrapIv(h, key), key);
  }

  lemma HostKcvIsKcv(c: Cipher, key: Block)
    ensures Cbc(c, key, ZEROS, ONES)[..3] == Kcv(c, key)
  {
    XorIdentity(ZEROS, ONES);
  }

  // ---------- the body ----------

  function KeyBlock(h: Host, dek: Block, key: Block): (block: seq<Byte>)
    ensures |block| == BLOCK_SIZE
  {
    [KEY_TYPE_AES, KEY_LENGTH + 1, KEY_LENGTH] + Wrapped(h, dek, key) + [KCV_LENGTH] + Kcv(h.cipher, key)
  }

  /** The key version number and the blocks of the first `n` keys. */
  function BodyOf(h: Host, dek: Block, kvn: Byte, keys: seq<Block>, n: nat): (body: seq<Byte>)
    requires n <= |keys|
    ensures |body| == 1 + BLOCK_SIZE * n
  {
    if n == 0 then [kvn] else BodyOf(h, dek, kvn, keys, n - 1) + KeyBlock(h, dek, keys[n - 1])
  }

  function EchoOf(c: Cipher, kvn: Byte, keys: seq<Block>, n: nat): (echo: seq<Byte>)
    requires n <= |keys|
    ensures |echo| == 1 + 3 * n
  {
    if n == 0 then [kvn] else EchoOf(c, kvn, keys, n - 1) + Kcv(c, keys[n - 1])
  }

  function InOrder(keys: KeySet): seq<Block> {
    [keys.enc, keys.mac, keys.dek]
  }

  function Body(h: Host, dek: Block, kvn: Byte, keys: KeySet): seq<Byte> {
    BodyOf(h, dek, kvn, InOrder(keys), 3)
  }

  /** What the card answers once it holds `keys` at version `kvn`. */
  function Echo(c: Cipher, kvn: Byte, keys: KeySet): seq<Byte> {
    EchoOf(c, kvn, InOrder(keys), 3)
  }

  lemma BodyPieces(h: Host, dek: Block, kvn: Byte, keys: KeySet)
    ensures var body := Body(h, dek, kvn, keys);
            && |body| == 70 && body[0] == kvn
            && body[1..24] == KeyBlock(h, dek, keys.enc)
            && body[24..47] == KeyBlock(h, dek, keys.mac)
            && body[47..] == KeyBlock(h, dek, keys.dek)
  {
    var k := InOrder(keys);
    assert BodyOf(h, dek, kvn, k, 1) == [kvn] + KeyBlock(h, dek, k[0]);
    assert BodyOf(h, dek, kvn, k, 2) == BodyOf(h, dek, kvn, k, 1) + KeyBlock(h, dek, k[1]);
  }

  lemma BlockOctets(h: Host, dek: Block, key: Block)
    ensures var block := KeyBlock(h, dek, key);
            && |block| == 23
            && block[0] == 0x88 && block[1] == 17 && block[2] == 16
            && block[3..19] == h.cipher.encrypt(dek, Xor(WrapIv(h, key), key))
            && block[19] == 3 && block[20..] == h.cipher.encrypt(key, ONES)[..3]
  {
    var block := KeyBlock(h, dek, key);
    assert block[3..19] == Wrapped(h, dek, key);
    assert block[20..] == Kcv(h.cipher, key);
  }

  /**
    The command body on the wire: the key version, and for ENC, MAC and DEK in this
    order the key type, the length of what follows and that of the key, the wrapped
    key, the length of the check value and as many octets of it.
   */
  lemma BodyOctets(h: Host, dek: Block, kvn: Byte, keys: KeySet, i: nat)
    requires i < 3
    ensures var key := [keys.enc, keys.mac, keys.dek][i];
            var body, at := Body(h, dek, kvn, keys), 1 + 23 * i;
            && |body| == 70 && body[0] == kvn
            && body[at] == 0x88 && body[at + 1] == 17 && body[at + 2] == 16
            && body[at + 3..at + 19] == h.cipher.encrypt(dek, Xor(WrapIv(h, key), key))
            && body[at + 19] == 3 && body[at + 20..at + 23] == h.cipher.encrypt(key, ONES)[..3]
  {
    var key := [keys.enc, keys.mac, keys.dek][i];
    var body, at := Body(h, dek, kvn, keys), 1 + 23 * i;
    BodyPieces(h, dek, kvn, keys);
    BlockOctets(h, dek, key);
    assert body[at..at + 23] == KeyBlock(h, dek, key) by {
      if i == 0 {
      } else if i == 1 {
      } else {
        assert body[47..70] == body[47..];
      }
    }
    Inside(body, at, KeyBlock(h, dek, key));
  }

  lemma Inside(body: seq<Byte>, at: nat, block: seq<Byte>)
    requires |block| == 23 && at + 23 <= |body| && body[at..at + 23] == block
    ensures body[at + 3..at + 19] == block[3..19] && body[at + 20..at + 23] == block[20..]
    ensures forall k :: 0 <= k < 23 ==> body[at + k] == block[k]
  {
    forall k | 0 <= k < 23
      ensures body[at + k] == block[k]
    {
      assert body[at..at + 23][k] == body[at + k];
    }
  }

  /** The answer on the wire: the key version and the three check values, of sixteen ones, in order. */
  lemma EchoOctets(c: Cipher, kvn: Byte, keys: KeySet)
    ensures forall i :: 0 <= i < 16 ==> ONES[i] == 1
    ensures Echo(c, kvn, keys)
            == [kvn] + c.encrypt(keys.enc, ONES)[..3] + c.encrypt(keys.mac, ONES)[..3] + c.encrypt(keys.dek, ONES)[..3]
  {
    var k := InOrder(keys);
    assert EchoOf(c, kvn, k, 1) == [kvn] + Kcv(c, keys.enc);
    assert EchoOf(c, kvn, k, 2) == [kvn] + Kcv(c, keys.enc) + Kcv(c, keys.mac);
  }

  // ---------- the card ----------

  function DecodeBlock(c: Cipher, dek: Block, block: seq<Byte>): Option<Block>
    requires |block| == BLOCK_SIZE
  {
    if block[..3] != [KEY_TYPE_AES, KEY_LENGTH + 1, KEY_LENGTH] || block[19] != KCV_LENGTH then None
    else
      var key := c.decrypt(dek, block[3..19]);
      if Kcv(c, key) == block[20..] then Some(key) else None
  }

  /** A version number and three key blocks that all unwrap to keys with the announced check values. */
  function Decode(c: Cipher, dek: Block, body: seq<Byte>): Option<(Byte, KeySet)> {
    if |body| != 1 + 3 * BLOCK_SIZE then None
    else
      var enc := DecodeBlock(c, dek, body[1..24]);
      var mac := DecodeBlock(c, dek, body[24..47]);
      var newDek := DecodeBlock(c, dek, body[47..]);
      if enc.None? || mac.None? || newDek.None? then None
      else Some((body[0], KeySet(enc.value, mac.value, newDek.value)))
  }

  lemma BlockRoundTrip(h: Host, dek: Block, key: Block)
    ensures DecodeBlock(h.cipher, dek, KeyBlock(h, dek, key)) == Some(key) <==> WrapIv(h, key) == ZEROS
  {
    var block := KeyBlock(h, dek, key);
    assert block[..3] == [KEY_TYPE_AES, KEY_LENGTH + 1, KEY_LENGTH];
    assert block[3..19] == Wrapped(h, dek, key);
    assert block[20..] == Kcv(h.cipher, key);
    UnwrapsIff(h, dek, key);
  }

  /**
    The card, unwrapping with the DEK the host wrapped with, recovers exactly the
    version and the three keys in order if and only if the host's cipher leaves
    the IV zero after each KCV computation.
   */
  lemma BodyRoundTrip(h: Host, dek: Block, kvn: Byte, keys: KeySet)
    ensures Decode(h.cipher, dek, Body(h, dek, kvn, keys)) == Some((kvn, keys))
            <==> WrapIv(h, keys.enc) == ZEROS && WrapIv(h, keys.mac) == ZEROS && WrapIv(h, keys.dek) == ZEROS
  {
    BodyPieces(h, dek, kvn, keys);
    BlockRoundTrip(h, dek, keys.enc);
    BlockRoundTrip(h, dek, keys.mac);
    BlockRoundTrip(h, dek, keys.dek);
  }

  datatype Card = Card(kvn: Byte, keys: KeySet)

  const SW_OK: seq<Byte> := [0x90, 0x00]
  const SW_WRONG_DATA: seq<Byte> := [0x6A, 0x80]

  /** The command header: CLA, INS, P1 (the version to replace) and P2. */
  function Header(kvn: Byte): seq<Byte> {
    [0x80, 0xD8, kvn, if kvn < 128 then kvn + 128 else kvn]
  }

  /**
    PUT KEY on the card, by its class and instruction octets, for the version it
    holds: all three keys and the version, or nothing. It may refuse for reasons of
    its own.
   */
  function Process(c: Cipher, card: Card, header: seq<Byte>, body: seq<Byte>, refuses: bool): (Card, seq<Byte>) {
    var decoded := Decode(c, card.keys.dek, body);
    if refuses || |header| != 4 || header[..3] != [0x80, 0xD8, card.kvn] || decoded.None? then (card, SW_WRONG_DATA)
    else
      var (kvn, keys) := decoded.value;
      (Card(kvn, keys), Echo(c, kvn, keys) + SW_OK)
  }

  /** Whatever answers the host: the card's next state and its response, status word last. */
  type Chip = (Card, seq<Byte>, seq<Byte>, bool) -> (Card, seq<Byte>)

  /** The chip is such a card, with this cipher. */
  ghost predicate IsCard(chip: Chip, c: Cipher) {
    forall card: Card, header: seq<Byte>, body: seq<Byte>, refuses: bool ::
      chip(card, header, body, refuses) == Process(c, card, header, body, refuses)
  }

  /** Any other class or instruction is refused, whatever the body. */
  lemma OtherCommandRefused(c: Cipher, card: Card, header: seq<Byte>, body: seq<Byte>, refuses: bool)
    requires |header| != 4 || header[0] != 0x80 || header[1] != 0xD8
    ensures Process(c, card, header, body, refuses) == (card, SW_WRONG_DATA)
  {
  }

  /** The command header on the wire: P2 is the version with its highest bit set. */
  lemma HeaderOctets(kvn: Byte)
    ensures Header(kvn) == [0x80, 0xD8, kvn, kvn % 128 + 128]
  {
  }

  // ---------- the host ----------

  /** The checks on a response: long enough, a good status word at the end, the expected echo in front. */
  predicate Accepts(rsp: seq<Byte>, expected: seq<Byte>) {
    |rsp| >= |expected| + 2 && rsp[|rsp| - 2..] == SW_OK && rsp[..|expected|] == expected
  }

  /** What an accepted response looks like. */
  lemma AcceptedOctets(rsp: seq<Byte>, c: Cipher, kvn: Byte, keys: KeySet)
    requires Accepts(rsp, Echo(c, kvn, keys))
    ensures |rsp| >= 12 && rsp[|rsp| - 2..] == [0x90, 0x00]
    ensures rsp[..10]
            == [kvn] + c.encrypt(keys.enc, ONES)[..3] + c.encrypt(keys.mac, ONES)[..3] + c.encrypt(keys.dek, ONES)[..3]
  {
    EchoOctets(c, kvn, keys);
  }

  lemma EchoAccepted(echo: seq<Byte>)
    ensures Accepts(echo + SW_OK, echo)
  {
  }

  /**
    `genKcvAndEncryptKey`: one IV array serves both cipher calls. The wrapped key
    goes to `dst` at `at`, the check value to `kcvOut`; false if a host crypto
    call failed.
   */
  method GenKcvAndEncryptKey(h: Host, dek: Block, key: Block, fails: bool, dst: array<Byte>, at: nat,
                             kcvOut: array<Byte>)
    returns (ok: bool)
    requires dst != kcvOut && at + 16 <= dst.Length && kcvOut.Length == 3
    modifies dst, kcvOut
    ensures ok == !fails
    ensures ok ==> kcvOut[..] == Kcv(h.cipher, key)
    ensures ok ==> dst[..] == old(dst[..at]) + Wrapped(h, dek, key) + old(dst[at + 16..])
  {
    if fails {
      return false;
    }
    var iv := ZEROS;
    var kcvFull := Cbc(h.cipher, key, iv, ONES);
    iv := h.ivAfter(iv, kcvFull);
    HostKcvIsKcv(h.cipher, key);
    Copy(kcvOut, 0, kcvFull[..3]);
    assert kcvOut[..] == kcvFull[..3];
    var encOut := Cbc(h.cipher, dek, iv, key);
    Copy(dst, at, encOut);
    return true;
  }

  /** `memcpy` of `data` to `dst` at `at`. */
  method Copy(dst: array<Byte>, at: nat, data: seq<Byte>)
    requires at + |data| <= dst.Length
    modifies dst
    ensures dst[..] == old(dst[..at]) + data + old(dst[at + |data|..])
  {
    forall i | 0 <= i < |data| {
      dst[at + i] := data[i];
    }
  }

  /** The octets in front of a wrapped key. */
  method PutKeyHeader(dst: array<Byte>, at: nat)
    requires at + 3 <= dst.Length
    modifies dst
    ensures dst[..] == old(dst[..at]) + [KEY_TYPE_AES, KEY_LENGTH + 1, KEY_LENGTH] + old(dst[at + 3..])
  {
    dst[at] := KEY_TYPE_AES;
    dst[at + 1] := KEY_LENGTH + 1;
    dst[at + 2] := KEY_LENGTH;
  }

  /** `createKeyData`: one key block at `at`. */
  method CreateKeyData(h: Host, dek: Block, key: Block, fails: bool, dst: array<Byte>, at: nat, kcvOut: array<Byte>)
    returns (r: Option<nat>)
    requires dst != kcvOut && at + BLOCK_SIZE <= dst.Length && kcvOut.Length == 3
    modifies dst, kcvOut
    ensures r == if fails then None else Some(BLOCK_SIZE)
    ensures !fails ==> kcvOut[..] == Kcv(h.cipher, key)
    ensures !fails ==> dst[..at + BLOCK_SIZE] == old(dst[..at]) + KeyBlock(h, dek, key)
  {
    PutKeyHeader(dst, at);
    assert dst[..at + 3] == old(dst[..at]) + [KEY_TYPE_AES, KEY_LENGTH + 1, KEY_LENGTH];
    var ok := GenKcvAndEncryptKey(h, dek, key, fails, dst, at + 3, kcvOut);
    if !ok {
      return None;
    }
    assert dst[..at + 19] == old(dst[..at]) + [KEY_TYPE_AES, KEY_LENGTH + 1, KEY_LENGTH] + Wrapped(h, dek, key);
    dst[at + 19] := KCV_LENGTH;
    Copy(dst, at + 20, kcvOut[..]);
    return Some(BLOCK_SIZE);
  }

  /** The command body and the expected echo, filled key by key; None if the host's crypto fails on key `failAt`. */
  method BuildPutKey(h: Host, dek: Block, kvn: Byte, keys: KeySet, failAt: nat)
    returns (r: Option<(seq<Byte>, seq<Byte>)>)
    ensures r == if failAt < 3 then None
                 else Some((Body(h, dek, kvn, keys), Echo(h.cipher, kvn, keys)))
  {
    var cmdBuf, expected := new Byte[128], new Byte[10];
    cmdBuf[0], expected[0] := kvn, kvn;
    var len, expLen := 1, 1;
    var k := InOrder(keys);
    var i := 0;
    while i < 3
      invariant i <= 3 && i <= failAt
      invariant len == 1 + BLOCK_SIZE * i && expLen == 1 + 3 * i
      invariant cmdBuf[..len] == BodyOf(h, dek, kvn, k, i)
      invariant expected[..expLen] == EchoOf(h.cipher, kvn, k, i)
    {
      var kcv := new Byte[3];
      ghost var echoed := expected[..expLen];
      var written := CreateKeyData(h, dek, k[i], i == failAt, cmdBuf, len, kcv);
      if written.None? {
        return None;
      }
      len := len + written.value;
      Copy(expected, expLen, kcv[..]);
      expLen := expLen + 3;
      assert expected[..expLen] == echoed + Kcv(h.cipher, k[i]);
      i := i + 1;
    }
    return Some((cmdBuf[..len], expected[..expLen]));
  }
}
