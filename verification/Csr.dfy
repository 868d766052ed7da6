/**
  PKCS#10 requests (RFC 2986 sections 4.1 and 4.2): the builders of csr.cpp,
  which fill a fixed buffer from its end, and the strict parser that recovers
  every field of what they built.
 */
module Csr {
  import opened Prelude
  import opened Der
  import Pem

  /** 1.2.840.113549.1.1.11, the content octets of sha256WithRSAEncryption. */
  const SHA256_WITH_RSA: seq<Byte> := [0x2A, 0x86, 0x48, 0x86, 0xF7, 0x0D, 0x01, 0x01, 0x0B]

  const CRI_CAPACITY := 4096
  const CSR_CAPACITY := 8192

  datatype CsrError =
    | InvalidSubject
    | WriteFailed
    | KeyTooLarge
    | NameWriteFailed
    | AlgorithmWriteFailed
    | InfoTooLarge
    | PemFailed
    | HashFailed
    | SignFailed

  // ---------- the structure of RFC 2986 and its parser ----------

  datatype RequestInfo = RequestInfo(version: seq<Byte>, subject: Element, spki: Element, attributes: seq<Byte>) {
    function Elements(): seq<Element> {
      [Element(INTEGER, version), subject, spki, Element(ATTRIBUTES, attributes)]
    }

    function Body(): seq<Byte> {
      EncodeAll(Elements())
    }

    function Encoded(): seq<Byte> {
      Tlv(SEQUENCE, Body())
    }
  }

  datatype Request = Request(info: RequestInfo, algorithm: seq<Byte>, parameters: Element,
                             unusedBits: Byte, signature: seq<Byte>) {
    function AlgorithmElements(): seq<Element> {
      [Element(OBJECT_IDENTIFIER, algorithm), parameters]
    }

    function Elements(): seq<Element> {
      [Element(SEQUENCE, info.Body()), Element(SEQUENCE, EncodeAll(AlgorithmElements())),
       Element(BIT_STRING, [unusedBits] + signature)]
    }

    function Outer(): seq<Element> {
      [Element(SEQUENCE, EncodeAll(Elements()))]
    }

    function Encoded(): seq<Byte> {
      EncodeAll(Outer())
    }

    predicate Encodable() {
      && AllEncodable(info.Elements()) && AllEncodable(AlgorithmElements())
      && AllEncodable(Elements()) && AllEncodable(Outer())
    }
  }

  function ParseInfo(body: seq<Byte>): Option<RequestInfo> {
    var es := ReadAll(body);
    if es.None? || |es.value| != 4 || es.value[0].tag != INTEGER || es.value[3].tag != ATTRIBUTES then None
    else Some(RequestInfo(es.value[0].content, es.value[1], es.value[2], es.value[3].content))
  }

  function ParseAlgorithm(body: seq<Byte>): Option<(seq<Byte>, Element)> {
    var es := ReadAll(body);
    if es.None? || |es.value| != 2 || es.value[0].tag != OBJECT_IDENTIFIER then None
    else Some((es.value[0].content, es.value[1]))
  }

  /** The contents of the three members of a CertificationRequest; the last has its first octet apart. */
  function ParseMembers(body: seq<Byte>): Option<(seq<Byte>, seq<Byte>, seq<Byte>)> {
    var es := ReadAll(body);
    if es.None? || |es.value| != 3 || es.value[0].tag != SEQUENCE || es.value[1].tag != SEQUENCE
       || es.value[2].tag != BIT_STRING || es.value[2].content == [] then None
    else Some((es.value[0].content, es.value[1].content, es.value[2].content))
  }

  /** The content of the one SEQUENCE that the octets are. */
  function ParseOuter(der: seq<Byte>): Option<seq<Byte>> {
    var es := ReadAll(der);
    if es.None? || |es.value| != 1 || es.value[0].tag != SEQUENCE then None else Some(es.value[0].content)
  }

  function ParseRequest(der: seq<Byte>): Option<Request> {
    var body :- ParseOuter(der);
    var (infoBody, algorithmBody, bits) :- ParseMembers(body);
    var info :- ParseInfo(infoBody);
    var (algorithm, parameters) :- ParseAlgorithm(algorithmBody);
    if bits == [] then None else Some(Request(info, algorithm, parameters, bits[0], bits[1..]))
  }

  lemma ParseInfoIff(body: seq<Byte>, i: RequestInfo)
    ensures ParseInfo(body) == Some(i) <==> AllEncodable(i.Elements()) && body == i.Body()
  {
    ReadAllIff(body, i.Elements());
    if ParseInfo(body) == Some(i) {
      assert ReadAll(body).value == i.Elements();
    }
  }

  lemma ParseAlgorithmIff(body: seq<Byte>, algorithm: seq<Byte>, parameters: Element)
    ensures var elements := [Element(OBJECT_IDENTIFIER, algorithm), parameters];
            ParseAlgorithm(body) == Some((algorithm, parameters))
            <==> AllEncodable(elements) && body == EncodeAll(elements)
  {
    var elements := [Element(OBJECT_IDENTIFIER, algorithm), parameters];
    ReadAllIff(body, elements);
    if ParseAlgorithm(body) == Some((algorithm, parameters)) {
      assert ReadAll(body).value == elements;
    }
  }

  lemma ParseMembersIff(body: seq<Byte>, info: seq<Byte>, algorithm: seq<Byte>, bits: seq<Byte>)
    ensures var elements := [Element(SEQUENCE, info), Element(SEQUENCE, algorithm), Element(BIT_STRING, bits)];
            ParseMembers(body) == Some((info, algorithm, bits))
            <==> bits != [] && AllEncodable(elements) && body == EncodeAll(elements)
  {
    var elements := [Element(SEQUENCE, info), Element(SEQUENCE, algorithm), Element(BIT_STRING, bits)];
    ReadAllIff(body, elements);
    if ParseMembers(body) == Some((info, algorithm, bits)) {
      assert ReadAll(body).value == elements;
    }
  }

  lemma ParseOuterIff(der: seq<Byte>, body: seq<Byte>)
    ensures var elements := [Element(SEQUENCE, body)];
            ParseOuter(der) == Some(body) <==> AllEncodable(elements) && der == EncodeAll(elements)
  {
    ReadAllIff(der, [Element(SEQUENCE, body)]);
    if ParseOuter(der) == Some(body) {
      assert ReadAll(der).value == [Element(SEQUENCE, body)];
    }
  }

  lemma ParseWritten(q: Request)
    requires q.Encodable()
    ensures ParseRequest(q.Encoded()) == Some(q)
  {
    ParseOuterIff(q.Encoded(), EncodeAll(q.Elements()));
    ParseMembersIff(EncodeAll(q.Elements()), q.info.Body(), EncodeAll(q.AlgorithmElements()),
                    [q.unusedBits] + q.signature);
    ParseInfoIff(q.info.Body(), q.info);
    ParseAlgorithmIff(EncodeAll(q.AlgorithmElements()), q.algorithm, q.parameters);
  }

  lemma ParseCanonical(der: seq<Byte>, q: Request)
    requires ParseRequest(der) == Some(q)
    ensures q.Encodable() && der == q.Encoded()
  {
    var body := ParseOuter(der).value;
    var (infoBody, algorithmBody, bits) := ParseMembers(body).value;
    assert bits == [q.unusedBits] + q.signature;
    ParseOuterIff(der, body);
    ParseMembersIff(body, infoBody, algorithmBody, bits);
    ParseInfoIff(infoBody, q.info);
    ParseAlgorithmIff(algorithmBody, q.algorithm, q.parameters);
  }

  /** The strict parser returns a request if and only if its input is that request's one encoding. */
  lemma ParseRequestIff(der: seq<Byte>, q: Request)
    ensures ParseRequest(der) == Some(q) <==> q.Encodable() && der == q.Encoded()
  {
    if ParseRequest(der) == Some(q) {
      ParseCanonical(der, q);
    }
    if q.Encodable() {
      ParseWritten(q);
    }
  }

  // ---------- the encodings the builders aim at ----------

  function VersionDer(): (der: seq<Byte>)
    ensures |der| == 3
  {
    Tlv(INTEGER, [0])
  }

  function NoAttributesDer(): (der: seq<Byte>)
    ensures |der| == 2
  {
    Tlv(ATTRIBUTES, [])
  }

  function CriBody(name: seq<Byte>, spki: seq<Byte>): seq<Byte> {
    VersionDer() + name + spki + NoAttributesDer()
  }

  function CriDer(name: seq<Byte>, spki: seq<Byte>): seq<Byte> {
    Tlv(SEQUENCE, CriBody(name, spki))
  }

  function AlgorithmDer(): (der: seq<Byte>)
    ensures |der| == 15
  {
    Tlv(SEQUENCE, Tlv(OBJECT_IDENTIFIER, SHA256_WITH_RSA) + Tlv(NULL, []))
  }

  function BitStringDer(bytes: seq<Byte>): seq<Byte> {
    Tlv(BIT_STRING, [0] + bytes)
  }

  function CsrBody(cri: seq<Byte>, signature: seq<Byte>): seq<Byte> {
    cri + AlgorithmDer() + BitStringDer(signature)
  }

  function CsrDer(cri: seq<Byte>, signature: seq<Byte>): seq<Byte> {
    Tlv(SEQUENCE, CsrBody(cri, signature))
  }

  /** The fixed parts of a request, octet by octet: version 0, no attributes, sha256WithRSAEncryption and NULL. */
  lemma FixedOctets()
    ensures VersionDer() == [0x02, 0x01, 0x00] && NoAttributesDer() == [0xA0, 0x00]
    ensures AlgorithmDer()
            == [0x30, 0x0D, 0x06, 0x09, 0x2A, 0x86, 0x48, 0x86, 0xF7, 0x0D, 0x01, 0x01, 0x0B, 0x05, 0x00]
    ensures BitStringDer([]) == [0x03, 0x01, 0x00] && Tlv(SEQUENCE, []) == [0x30, 0x00]
  {
  }

  /** The request meant by a name, a key and a signature. */
  function Meant(name: Element, spki: Element, signature: seq<Byte>): Request {
    Request(RequestInfo([0], name, spki, []), SHA256_WITH_RSA, Element(NULL, []), 0, signature)
  }

  /**
    Whatever single DER elements the name and the key are, and whatever the
    signature is, a request that fits the buffer parses to version 0, that name,
    that key, no attributes, sha256WithRSAEncryption with NULL, and that
    signature with no unused bits.
   */
  lemma CsrStructure(name: Element, spki: Element, signature: seq<Byte>)
    requires name.tag % 32 != 31 && spki.tag % 32 != 31
    requires |CsrDer(CriDer(name.Encoded(), spki.Encoded()), signature)| <= CSR_CAPACITY
    ensures ParseRequest(CsrDer(CriDer(name.Encoded(), spki.Encoded()), signature))
            == Some(Meant(name, spki, signature))
    ensures var q := Meant(name, spki, signature);
            && q.info.version == [0] && q.info.subject == name && q.info.spki == spki && q.info.attributes == []
            && q.algorithm == [0x2A, 0x86, 0x48, 0x86, 0xF7, 0x0D, 0x01, 0x01, 0x0B]
            && q.parameters == Element(0x05, []) && q.unusedBits == 0 && q.signature == signature
  {
    var q := Meant(name, spki, signature);
    MeantEncoded(name, spki, signature);
    MeantEncodable(name, spki, signature);
    ParseRequestIff(q.Encoded(), q);
  }

  lemma MeantEncoded(name: Element, spki: Element, signature: seq<Byte>)
    ensures Meant(name, spki, signature).info.Encoded() == CriDer(name.Encoded(), spki.Encoded())
    ensures Meant(name, spki, signature).Encoded()
            == CsrDer(CriDer(name.Encoded(), spki.Encoded()), signature)
  {
    var q := Meant(name, spki, signature);
    EncodeFour(Element(INTEGER, [0]), name, spki, Element(ATTRIBUTES, []));
    EncodeTwo(Element(OBJECT_IDENTIFIER, SHA256_WITH_RSA), Element(NULL, []));
    EncodeThree(q.Elements()[0], q.Elements()[1], q.Elements()[2]);
    EncodeOne(q.Outer()[0]);
  }

  lemma MeantEncodable(name: Element, spki: Element, signature: seq<Byte>)
    requires name.tag % 32 != 31 && spki.tag % 32 != 31
    requires |Meant(name, spki, signature).Encoded()| < 0x1_0000
    ensures Meant(name, spki, signature).Encodable()
  {
    var q := Meant(name, spki, signature);
    SmallElements(q.Outer());
    assert q.Outer()[0].content == EncodeAll(q.Elements());
    SmallElements(q.Elements());
    assert q.Elements()[0].content == q.info.Body();
    assert q.Elements()[1].content == EncodeAll(q.AlgorithmElements());
    SmallElements(q.info.Elements());
    SmallElements(q.AlgorithmElements());
  }

  /** Elements in less than 65536 octets all have a DER form. */
  lemma {:induction false} SmallElements(elements: seq<Element>)
    requires |EncodeAll(elements)| < 0x1_0000
    requires forall i :: 0 <= i < |elements| ==> elements[i].tag % 32 != 31
    ensures AllEncodable(elements)
    ensures forall i :: 0 <= i < |elements| ==> |elements[i].content| < |EncodeAll(elements)|
  {
    if elements != [] {
      SmallLength(|elements[0].content|);
      SmallElements(elements[1..]);
      assert elements == [elements[0]] + elements[1..];
    }
  }

  // ---------- the backward writer ----------

  /**
    The buffer, and the pointer the library moves down through it. Every write
    puts its octets just below `c` and returns their number, or a negative error
    when fewer than that many octets are left above `start`.
   */
  class Writer {
    const buf: array<Byte>
    var c: nat

    ghost predicate Valid()
      reads this
    {
      c <= buf.Length
    }

    /** What has been written so far. */
    ghost function Written(): (s: seq<Byte>)
      requires Valid()
      reads this, buf
      ensures |s| == buf.Length - c
    {
      buf[c..]
    }

    constructor (capacity: nat)
      ensures Valid() && fresh(buf) && buf.Length == capacity && c == capacity && Written() == []
    {
      buf := new Byte[capacity];
      c := capacity;
    }

    /** All of `data` or nothing; what was below the pointer and still is does not change. */
    method Write(data: seq<Byte>) returns (r: int)
      requires Valid()
      modifies this`c, buf
      ensures Valid()
      ensures if old(c) < |data| then r < 0 else r == |data|
      ensures Written() == if r < 0 then old(Written()) else data + old(Written())
      ensures forall i :: 0 <= i < c ==> buf[i] == old(buf[i])
    {
      if c < |data| {
        return -1;
      }
      c := c - |data|;
      forall i | 0 <= i < |data| {
        buf[c + i] := data[i];
      }
      r := |data|;
    }

    /** `mbedtls_asn1_write_len`, then `mbedtls_asn1_write_tag`, around what has been written. */
    method WriteHeader(tag: Byte, len: nat) returns (r: int)
      requires Valid() && len == |Written()|
      modifies this`c, buf
      ensures Valid()
      ensures if |Tlv(tag, old(Written()))| > buf.Length then r < 0
              else r == |Tlv(tag, old(Written()))| - len && Written() == Tlv(tag, old(Written()))
    {
      var n := Write(LengthOctets(len));
      if n < 0 {
        return n;
      }
      r := Write([tag]);
      if r >= 0 {
        r := r + n;
      }
    }
  }

  /** The last two writes of both builders, and the copy of what has been written. */
  method WrapSequence(w: Writer, len: nat) returns (r: Result<seq<Byte>, CsrError>)
    requires w.Valid() && len == |w.Written()|
    modifies w, w.buf
    ensures r == if |Tlv(SEQUENCE, old(w.Written()))| <= w.buf.Length then Ok(Tlv(SEQUENCE, old(w.Written())))
                 else Err(WriteFailed)
  {
    var n := w.WriteHeader(SEQUENCE, len);
    if n < 0 {
      return Err(WriteFailed);
    }
    assert w.buf[w.c..w.c + (len + n)] == w.Written();
    return Ok(w.buf[w.c..w.c + (len + n)]);
  }

  /** One member in front of what has been written, where `len` counts what has. */
  method Prepend(w: Writer, data: seq<Byte>, len: nat) returns (r: Option<nat>)
    requires w.Valid() && len == |w.Written()|
    modifies w, w.buf
    ensures w.Valid()
    ensures r == if |data| + len <= w.buf.Length then Some(len + |data|) else None
    ensures r.Some? ==> w.Written() == data + old(w.Written())
  {
    var n := w.Write(data);
    return if n < 0 then None else Some(len + n);
  }

  /** The body of `buildCri`'s SEQUENCE, from its last member to its first. */
  method WriteCriBody(w: Writer, version: seq<Byte>, name: seq<Byte>, spki: seq<Byte>, attributes: seq<Byte>)
    returns (r: Result<nat, CsrError>)
    requires w.Valid() && w.Written() == []
    modifies w, w.buf
    ensures w.Valid()
    ensures r.Ok? <==> |version| + |name| + |spki| + |attributes| <= w.buf.Length
    ensures r.Ok? ==> w.Written() == version + name + spki + attributes && r.value == |w.Written()|
    ensures r == Err(KeyTooLarge) <==> |attributes| <= w.buf.Length < |spki| + |attributes|
    ensures r != Err(InvalidSubject)
  {
    var len := Prepend(w, attributes, 0);
    if len.None? { return Err(WriteFailed); }

    if w.c < |spki| {
      return Err(KeyTooLarge);
    }
    len := Prepend(w, spki, len.value);

    len := Prepend(w, name, len.value);
    if len.None? { return Err(NameWriteFailed); }

    len := Prepend(w, version, len.value);
    if len.None? { return Err(WriteFailed); }
    assert version + (name + (spki + attributes)) == version + name + spki + attributes;
    return Ok(len.value);
  }

  /** `buildCri`: succeeds if and only if the subject is valid and the whole encoding fits 4096 octets. */
  method BuildCri(names: Option<seq<Byte>>, spki: seq<Byte>) returns (r: Result<seq<Byte>, CsrError>)
    ensures r.Ok? <==> names.Some? && |CriDer(names.value, spki)| <= 4096
    ensures r.Ok? ==> r.value == CriDer(names.value, spki)
    ensures r == Err(InvalidSubject) <==> names.None?
    ensures r == Err(KeyTooLarge) <==> names.Some? && |spki| + 2 > 4096
  {
    var w := new Writer(CRI_CAPACITY);
    if names.None? {
      return Err(InvalidSubject);
    }
    TlvIsLonger(SEQUENCE, CriBody(names.value, spki));
    var len :- WriteCriBody(w, VersionDer(), names.value, spki, NoAttributesDer());
    r := WrapSequence(w, len);
  }

  /** The body of `assembleCsr`'s SEQUENCE, from its last member to its first. */
  method WriteCsrBody(w: Writer, cri: seq<Byte>, algorithm: seq<Byte>, bitString: seq<Byte>)
    returns (r: Result<nat, CsrError>)
    requires w.Valid() && w.Written() == []
    modifies w, w.buf
    ensures w.Valid()
    ensures r.Ok? <==> |cri| + |algorithm| + |bitString| <= w.buf.Length
    ensures r.Ok? ==> w.Written() == cri + algorithm + bitString && r.value == |w.Written()|
  {
    var len := Prepend(w, bitString, 0);
    if len.None? { return Err(WriteFailed); }

    len := Prepend(w, algorithm, len.value);
    if len.None? { return Err(AlgorithmWriteFailed); }

    if w.c < |cri| {
      return Err(InfoTooLarge);
    }
    len := Prepend(w, cri, len.value);
    assert cri + (algorithm + bitString) == cri + algorithm + bitString;
    return Ok(len.value);
  }

  /** `assembleCsr` before the PEM step: succeeds if and only if the whole request fits 8192 octets. */
  method AssembleDer(cri: seq<Byte>, signature: seq<Byte>) returns (r: Result<seq<Byte>, CsrError>)
    ensures r.Ok? <==> |CsrDer(cri, signature)| <= 8192
    ensures r.Ok? ==> r.value == CsrDer(cri, signature)
  {
    var w := new Writer(CSR_CAPACITY);
    TlvIsLonger(SEQUENCE, CsrBody(cri, signature));
    var len :- WriteCsrBody(w, cri, AlgorithmDer(), BitStringDer(signature));
    r := WrapSequence(w, len);
  }

  lemma TlvIsLonger(tag: Byte, content: seq<Byte>)
    ensures |Tlv(tag, content)| >= |content| + 2
  {
  }

  method AssembleCsr(cri: seq<Byte>, signature: seq<Byte>) returns (r: Result<string, CsrError>)
    ensures r.Ok? <==> |CsrDer(cri, signature)| <= CSR_CAPACITY
    ensures r.Ok? ==> Pem.PemBytes(Pem.REQUEST_HEADER, Pem.REQUEST_FOOTER, r.value)
                      == Some(CsrDer(cri, signature))
  {
    var der :- AssembleDer(cri, signature);
    var pem := Pem.ToPem(Pem.REQUEST_HEADER, Pem.REQUEST_FOOTER, der);
    if pem.Err? {
      return Err(PemFailed);
    }
    Pem.PemBytesIff(Pem.REQUEST_HEADER, Pem.REQUEST_FOOTER, pem.value, der);
    return Ok(pem.value);
  }

  // ---------- whole requests ----------

  /**
    `makeCsrFullSign` with a signer that may fail. The request that comes out
    carries the signer's answer on exactly the octets it carries as its
    CertificationRequestInfo.
   */
  method MakeCsrFullSign(names: Option<seq<Byte>>, spki: seq<Byte>, sign: seq<Byte> -> Option<seq<Byte>>)
    returns (r: Result<string, CsrError>)
    ensures r.Ok? <==> Issued(names, spki, sign).Some?
    ensures r.Ok? ==> Pem.PemBytes(Pem.REQUEST_HEADER, Pem.REQUEST_FOOTER, r.value) == Issued(names, spki, sign)
  {
    var cri :- BuildCri(names, spki);
    var signature := sign(cri);
    if signature.None? {
      return Err(SignFailed);
    }
    r := AssembleCsr(cri, signature.value);
  }

  /** `makeCsrImpl`: as above, except that the signer sees the SHA-256 digest of those octets. */
  method MakeCsr(names: Option<seq<Byte>>, spki: seq<Byte>, sha256: seq<Byte> -> Option<seq<Byte>>,
                 sign: seq<Byte> -> Option<seq<Byte>>)
    returns (r: Result<string, CsrError>)
    ensures r.Ok? <==> Issued(names, spki, Prehashed(sha256, sign)).Some?
    ensures r.Ok? ==> Pem.PemBytes(Pem.REQUEST_HEADER, Pem.REQUEST_FOOTER, r.value)
                      == Issued(names, spki, Prehashed(sha256, sign))
  {
    var cri :- BuildCri(names, spki);
    var digest := sha256(cri);
    if digest.None? {
      return Err(HashFailed);
    }
    var signature := sign(digest.value);
    if signature.None? {
      return Err(SignFailed);
    }
    r := AssembleCsr(cri, signature.value);
  }

  /** A signer of whole messages made of a digest and a signer of digests. */
  function Prehashed(sha256: seq<Byte> -> Option<seq<Byte>>, sign: seq<Byte> -> Option<seq<Byte>>)
    : seq<Byte> -> Option<seq<Byte>>
  {
    (m: seq<Byte>) => var digest := sha256(m); if digest.None? then None else sign(digest.value)
  }

  /** The request to be issued, if the subject, both sizes and the signer allow one. */
  function Issued(names: Option<seq<Byte>>, spki: seq<Byte>, sign: seq<Byte> -> Option<seq<Byte>>)
    : Option<seq<Byte>>
  {
    if names.None? || |CriDer(names.value, spki)| > CRI_CAPACITY then None
    else
      var cri := CriDer(names.value, spki);
      var signature := sign(cri);
      if signature.None? || |CsrDer(cri, signature.value)| > CSR_CAPACITY then None
      else Some(CsrDer(cri, signature.value))
  }

  /**
    What a certificate authority reads in an issued request: the name and the
    key that were asked for, and the signer's answer on the encoding of the very
    CertificationRequestInfo it reads.
   */
  lemma IssuedRequestIsSelfSigned(name: Element, spki: Element, sign: seq<Byte> -> Option<seq<Byte>>)
    requires name.tag % 32 != 31 && spki.tag % 32 != 31
    requires Issued(Some(name.Encoded()), spki.Encoded(), sign).Some?
    ensures var q := ParseRequest(Issued(Some(name.Encoded()), spki.Encoded(), sign).value);
            && q.Some? && sign(q.value.info.Encoded()) == Some(q.value.signature)
            && q.value == Meant(name, spki, q.value.signature)
  {
    var cri := CriDer(name.Encoded(), spki.Encoded());
    CsrStructure(name, spki, sign(cri).value);
    MeantEncoded(name, spki, sign(cri).value);
  }
}
