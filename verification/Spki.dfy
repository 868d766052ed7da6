/**
  RSA public keys as DER SubjectPublicKeyInfo: what the PKCS#11 path builds from
  a modulus and an exponent, and the two buffer sizes chosen for it.
 */
module Spki {
  import opened Prelude
  import opened Der
  import Csr

  /** 1.2.840.113549.1.1.1, the content octets of rsaEncryption. */
  const RSA_ENCRYPTION: seq<Byte> := [0x2A, 0x86, 0x48, 0x86, 0xF7, 0x0D, 0x01, 0x01, 0x01]

  /** The octets of an unsigned number without leading zeros. */
  function Magnitude(octets: seq<Byte>): (m: seq<Byte>)
    ensures |m| <= |octets|
    ensures m != [] ==> m[0] != 0
    ensures octets != [] && octets[0] != 0 ==> m == octets
  {
    if octets != [] && octets[0] == 0 then Magnitude(octets[1..]) else octets
  }

  /** Content octets of a non-negative INTEGER: minimal, with a clear sign bit. */
  function IntegerContent(octets: seq<Byte>): (content: seq<Byte>)
    ensures |content| <= |octets| + 1
  {
    var m := Magnitude(octets);
    if m == [] || m[0] >= 128 then [0] + m else m
  }

  function AlgorithmBody(): (body: seq<Byte>)
    ensures |body| == 13
  {
    Tlv(OBJECT_IDENTIFIER, RSA_ENCRYPTION) + Tlv(NULL, [])
  }

  function KeyBody(modulus: seq<Byte>, exponent: seq<Byte>): seq<Byte> {
    Tlv(INTEGER, IntegerContent(modulus)) + Tlv(INTEGER, IntegerContent(exponent))
  }

  function SpkiBody(modulus: seq<Byte>, exponent: seq<Byte>): seq<Byte> {
    Tlv(SEQUENCE, AlgorithmBody()) + Tlv(BIT_STRING, [0] + Tlv(SEQUENCE, KeyBody(modulus, exponent)))
  }

  function SpkiDer(modulus: seq<Byte>, exponent: seq<Byte>): seq<Byte> {
    Tlv(SEQUENCE, SpkiBody(modulus, exponent))
  }

  function ParseKey(body: seq<Byte>): Option<(seq<Byte>, seq<Byte>)> {
    var es := ReadAll(body);
    if es.None? || |es.value| != 2 || es.value[0].tag != INTEGER || es.value[1].tag != INTEGER then None
    else Some((Magnitude(es.value[0].content), Magnitude(es.value[1].content)))
  }

  /** The octets of the key bit string in a strict reading of an RSA SubjectPublicKeyInfo. */
  function ReadKeyBits(content: seq<Byte>): Option<seq<Byte>> {
    var es := ReadAll(content);
    if es.None? || |es.value| != 2 || es.value[0] != Element(SEQUENCE, AlgorithmBody())
       || es.value[1].tag != BIT_STRING || es.value[1].content == [] || es.value[1].content[0] != 0 then None
    else Some(es.value[1].content[1..])
  }

  /** The modulus and exponent in that reading. */
  function ParseSpki(spki: Element): Option<(seq<Byte>, seq<Byte>)> {
    var bits :- ReadKeyBits(spki.content);
    var body :- Csr.ParseOuter(bits);
    if spki.tag != SEQUENCE then None else ParseKey(body)
  }

  /** The number is written as a positive one, in as few octets as that takes. */
  lemma IsPositiveInteger(octets: seq<Byte>)
    ensures var content := IntegerContent(octets);
            && content != [] && content[0] < 128
            && (|content| > 1 && content[0] == 0 ==> content[1] >= 128)
  {
  }

  lemma ContentMagnitude(octets: seq<Byte>)
    ensures Magnitude(IntegerContent(octets)) == Magnitude(octets)
  {
    var m := Magnitude(octets);
    if IntegerContent(octets) != m {
      assert IntegerContent(octets)[1..] == m;
    }
  }

  lemma KeyRoundTrip(modulus: seq<Byte>, exponent: seq<Byte>)
    requires |IntegerContent(modulus)| + |IntegerContent(exponent)| <= 65400
    ensures ParseKey(KeyBody(modulus, exponent)) == Some((Magnitude(modulus), Magnitude(exponent)))
  {
    var n, e := IntegerContent(modulus), IntegerContent(exponent);
    var elements := [Element(INTEGER, n), Element(INTEGER, e)];
    SmallLength(|n|);
    SmallLength(|e|);
    EncodeTwo(elements[0], elements[1]);
    ReadAllIff(KeyBody(modulus, exponent), elements);
    ContentMagnitude(modulus);
    ContentMagnitude(exponent);
  }

  /** The size of an encoded key, in the sizes of its two numbers' contents. */
  lemma SpkiSize(modulus: seq<Byte>, exponent: seq<Byte>)
    requires |IntegerContent(modulus)| + |IntegerContent(exponent)| < 65500
    ensures var n, e := |IntegerContent(modulus)|, |IntegerContent(exponent)|;
            var key := n + e + 2 + |LengthOctets(n)| + |LengthOctets(e)|;
            var bits := key + 2 + |LengthOctets(key)|;
            var body := bits + 16 + |LengthOctets(bits)|;
            && |KeyBody(modulus, exponent)| == key
            && |SpkiBody(modulus, exponent)| == body
            && |SpkiDer(modulus, exponent)| == body + 1 + |LengthOctets(body)|
  {
  }

  lemma KeyBitsRead(key: seq<Byte>)
    requires |key| < 65500
    ensures ReadKeyBits(Tlv(SEQUENCE, AlgorithmBody()) + Tlv(BIT_STRING, [0] + key)) == Some(key)
  {
    var bits := [0] + key;
    var elements := [Element(SEQUENCE, AlgorithmBody()), Element(BIT_STRING, bits)];
    SmallLength(|bits|);
    SmallLength(|AlgorithmBody()|);
    EncodeTwo(elements[0], elements[1]);
    ReadAllIff(EncodeAll(elements), elements);
    assert bits[1..] == key;
  }

  /** Reading an encoded key back gives its modulus and exponent, up to leading zeros. */
  lemma SpkiRoundTrip(modulus: seq<Byte>, exponent: seq<Byte>)
    requires |IntegerContent(modulus)| + |IntegerContent(exponent)| <= 65400
    ensures ParseSpki(Element(SEQUENCE, SpkiBody(modulus, exponent)))
            == Some((Magnitude(modulus), Magnitude(exponent)))
  {
    var key := KeyBody(modulus, exponent);
    SpkiSize(modulus, exponent);
    SmallLength(|IntegerContent(modulus)|);
    SmallLength(|IntegerContent(exponent)|);
    SmallLength(|key|);
    KeyBitsRead(Tlv(SEQUENCE, key));
    EncodeOne(Element(SEQUENCE, key));
    Csr.ParseOuterIff(Tlv(SEQUENCE, key), key);
    KeyRoundTrip(modulus, exponent);
  }

  /**
    `modulus.size() + 128` holds the encoding whenever the exponent has at most
    92 octets, and for full-length numbers of at least 256 and less than 127
    octets it holds it only then.
   */
  lemma SpkiFits(modulus: seq<Byte>, exponent: seq<Byte>)
    requires |modulus| <= 65000
    ensures |exponent| <= 92 ==> |SpkiDer(modulus, exponent)| <= |modulus| + 128
    ensures 256 <= |modulus| && modulus[0] >= 128 && 0 < |exponent| < 127 && exponent[0] >= 128
            ==> (|SpkiDer(modulus, exponent)| <= |modulus| + 128 <==> |exponent| <= 92)
  {
    if |exponent| < 127 {
      SpkiSize(modulus, exponent);
      SmallLength(|IntegerContent(modulus)|);
      SmallLength(|IntegerContent(exponent)|);
      SmallLength(|KeyBody(modulus, exponent)|);
      SmallLength(|[0] + Tlv(SEQUENCE, KeyBody(modulus, exponent))|);
      SmallLength(|SpkiBody(modulus, exponent)|);
    }
  }

  const F4: seq<Byte> := [0x01, 0x00, 0x01] // 65537

  /** The size of a key of one of the three sizes on offer, with exponent 65537. */
  lemma SizeOfGenerated(modulus: seq<Byte>)
    requires |modulus| == 256 || |modulus| == 384 || |modulus| == 512
    requires modulus[0] >= 128
    ensures |SpkiDer(modulus, F4)| == |modulus| + 38
  {
    SpkiSize(modulus, F4);
    SmallLength(|modulus| + 1);
    SmallLength(|KeyBody(modulus, F4)|);
    SmallLength(|[0] + Tlv(SEQUENCE, KeyBody(modulus, F4))|);
    SmallLength(|SpkiBody(modulus, F4)|);
  }

  datatype SpkiError = NotFound | AttributeReadFailed | WriteFailed

  /**
    `getSpki`: looks the key up, reads both attributes, then has the key written
    at the end of a buffer of `modulus.size() + 128` octets and returns that end.
    With an exponent of at most 92 octets it cannot fail for size.
   */
  method GetSpki(found: bool, modulus: Option<seq<Byte>>, exponent: Option<seq<Byte>>)
    returns (r: Result<seq<Byte>, SpkiError>)
    ensures r == Err(NotFound) <==> !found
    ensures r == Err(AttributeReadFailed) <==> found && (IsAbsent(modulus) || IsAbsent(exponent))
    ensures r.Ok? <==> found && !IsAbsent(modulus) && !IsAbsent(exponent)
                       && |SpkiDer(modulus.value, exponent.value)| <= |modulus.value| + 128
    ensures r.Ok? ==> r.value == SpkiDer(modulus.value, exponent.value)
    ensures found && !IsAbsent(modulus) && !IsAbsent(exponent) && |modulus.value| <= 65000 && |exponent.value| <= 92
            ==> r.Ok?
  {
    if !found {
      return Err(NotFound);
    }
    if IsAbsent(modulus) || IsAbsent(exponent) {
      return Err(AttributeReadFailed);
    }
    if |modulus.value| <= 65000 {
      SpkiFits(modulus.value, exponent.value);
    }
    var der := WriteAtEnd(SpkiDer(modulus.value, exponent.value), |modulus.value| + 128);
    return if der.Some? then Ok(der.value) else Err(WriteFailed);
  }

  /** `mbedtls_pk_write_pubkey_der` writes at the end of the buffer; what it wrote is taken from there. */
  method WriteAtEnd(der: seq<Byte>, capacity: nat) returns (r: Option<seq<Byte>>)
    requires der != []
    ensures r == if |der| <= capacity then Some(der) else None
  {
    var w := new Csr.Writer(capacity);
    var n := w.Write(der);
    if n <= 0 {
      return None;
    }
    assert w.buf[w.buf.Length - n..] == der;
    return Some(w.buf[w.buf.Length - n..]);
  }

  /** The size query failed or reported no octets. */
  predicate IsAbsent(attribute: Option<seq<Byte>>) {
    attribute.None? || attribute.value == []
  }

  /**
    A request issued on the PKCS#11 path carries the token's own modulus and
    exponent: what the authority parses out of the key is what the token holds.
   */
  lemma IssuedRequestCarriesKey(name: Element, modulus: seq<Byte>, exponent: seq<Byte>,
                                sign: seq<Byte> -> Option<seq<Byte>>)
    requires name.tag % 32 != 31
    requires Csr.Issued(Some(name.Encoded()), SpkiDer(modulus, exponent), sign).Some?
    ensures var q := Csr.ParseRequest(Csr.Issued(Some(name.Encoded()), SpkiDer(modulus, exponent), sign).value);
            q.Some? && q.value.info.subject == name
            && ParseSpki(q.value.info.spki) == Some((Magnitude(modulus), Magnitude(exponent)))
  {
    var spki := Element(SEQUENCE, SpkiBody(modulus, exponent));
    Csr.IssuedRequestIsSelfSigned(name, spki, sign);
    assert |spki.Encoded()| <= Csr.CRI_CAPACITY;
    SpkiRoundTrip(modulus, exponent);
  }
}
