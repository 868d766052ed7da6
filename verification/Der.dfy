/**
  Distinguished Encoding Rules, as far as a PKCS#10 request needs them: one-octet
  tags and minimal definite lengths (X.690 sections 8.1.2, 8.1.3 and 10.1), with
  the strict reader that is their inverse.
 */
module Der {
  import opened Prelude

  const INTEGER: Byte := 0x02
  const BIT_STRING: Byte := 0x03
  const NULL: Byte := 0x05
  const OBJECT_IDENTIFIER: Byte := 0x06
  const SEQUENCE: Byte := 0x30
  const ATTRIBUTES: Byte := 0xA0 // context-specific, constructed, 0

  /** The minimal big-endian octets of `n`; none for zero. */
  function BigEndian(n: nat): (octets: seq<Byte>)
    ensures octets == [] <==> n == 0
    ensures n > 0 ==> octets[0] != 0
  {
    if n == 0 then [] else BigEndian(n / 256) + [n % 256]
  }

  function FromBigEndian(octets: seq<Byte>): nat {
    if octets == [] then 0
    else FromBigEndian(octets[..|octets| - 1]) * 256 + octets[|octets| - 1]
  }

  lemma {:induction false} BigEndianRead(n: nat)
    ensures FromBigEndian(BigEndian(n)) == n
  {
    if n > 0 {
      BigEndianRead(n / 256);
      assert BigEndian(n)[..|BigEndian(n)| - 1] == BigEndian(n / 256);
    }
  }

  lemma {:induction false} BigEndianWritten(octets: seq<Byte>)
    requires octets != [] ==> octets[0] != 0
    ensures BigEndian(FromBigEndian(octets)) == octets
    ensures octets != [] ==> FromBigEndian(octets) > 0
  {
    if octets != [] {
      var high, low := octets[..|octets| - 1], octets[|octets| - 1];
      BigEndianWritten(high);
      assert octets == high + [low];
      var n := FromBigEndian(octets);
      assert n / 256 == FromBigEndian(high) && n % 256 == low;
    }
  }

  /**
    The length octets of a content of `n` octets: the short form below 128, else
    the long form. A length that needs more than 126 octets has no DER form; the
    reserved initial octet 0xFF stands there, and the reader refuses it.
   */
  function LengthOctets(n: nat): seq<Byte> {
    if n < 128 then [n]
    else
      var octets := BigEndian(n);
      [if |octets| <= 126 then 128 + |octets| else 0xFF] + octets
  }

  function Tlv(tag: Byte, content: seq<Byte>): seq<Byte> {
    [tag] + LengthOctets(|content|) + content
  }

  function ReadLength(s: seq<Byte>): Option<(nat, seq<Byte>)> {
    if s == [] then None
    else if s[0] < 128 then Some((s[0], s[1..]))
    else
      var k := s[0] - 128;
      if k == 0 || k > 126 || |s| < 1 + k || s[1] == 0 then None
      else
        var n := FromBigEndian(s[1..1 + k]);
        if n < 128 then None else Some((n, s[1 + k..]))
  }

  /** One DER element: its tag and its content octets. */
  datatype Element = Element(tag: Byte, content: seq<Byte>) {
    function Encoded(): seq<Byte> {
      Tlv(tag, content)
    }

    /** The tag fits one octet and the length has a DER form. */
    predicate Encodable() {
      tag % 32 != 31 && |BigEndian(|content|)| <= 126
    }
  }

  /** Strict reader: the first element of `s` and what follows it. */
  function ReadElement(s: seq<Byte>): Option<(Element, seq<Byte>)> {
    if s == [] || s[0] % 32 == 31 then None
    else
      var (n, rest) :- ReadLength(s[1..]);
      if n > |rest| then None else Some((Element(s[0], rest[..n]), rest[n..]))
  }

  function EncodeAll(elements: seq<Element>): seq<Byte> {
    if elements == [] then [] else elements[0].Encoded() + EncodeAll(elements[1..])
  }

  predicate AllEncodable(elements: seq<Element>) {
    forall i :: 0 <= i < |elements| ==> elements[i].Encodable()
  }

  /** All of `s` as a sequence of elements. */
  function ReadAll(s: seq<Byte>): Option<seq<Element>>
    decreases |s|
  {
    if s == [] then Some([])
    else
      var first := ReadElement(s);
      if first.None? || |first.value.1| >= |s| then None
      else
        var rest := ReadAll(first.value.1);
        if rest.None? then None else Some([first.value.0] + rest.value)
  }

  lemma LengthWrittenThenRead(n: nat, rest: seq<Byte>)
    requires |BigEndian(n)| <= 126
    ensures ReadLength(LengthOctets(n) + rest) == Some((n, rest))
  {
    var s := LengthOctets(n) + rest;
    if n < 128 {
      assert s[1..] == rest;
    } else {
      var octets := BigEndian(n);
      assert s[1..1 + |octets|] == octets && s[1 + |octets|..] == rest;
      assert s[1] == octets[0];
      BigEndianRead(n);
    }
  }

  lemma LengthReadThenWritten(s: seq<Byte>)
    ensures var r := ReadLength(s);
            r.Some? ==> |BigEndian(r.value.0)| <= 126 && s == LengthOctets(r.value.0) + r.value.1
  {
    if s != [] && s[0] < 128 {
      SmallLength(s[0]);
    } else if ReadLength(s).Some? {
      BigEndianWritten(s[1..1 + (s[0] - 128)]);
    }
  }

  /** Lengths below 65536 take at most three length octets. */
  lemma SmallLength(n: nat)
    requires n < 0x1_0000
    ensures |BigEndian(n)| <= 2
    ensures |LengthOctets(n)| == if n < 128 then 1 else if n < 256 then 2 else 3
  {
    assert BigEndian(n / 256 / 256) == [];
  }

  lemma ElementWrittenThenRead(e: Element, rest: seq<Byte>)
    requires e.Encodable()
    ensures ReadElement(e.Encoded() + rest) == Some((e, rest))
  {
    var s, tail := e.Encoded() + rest, e.content + rest;
    assert s[1..] == LengthOctets(|e.content|) + tail;
    LengthWrittenThenRead(|e.content|, tail);
    assert tail[..|e.content|] == e.content && tail[|e.content|..] == rest;
  }

  lemma ElementReadThenWritten(s: seq<Byte>)
    ensures var r := ReadElement(s);
            r.Some? ==> r.value.0.Encodable() && s == r.value.0.Encoded() + r.value.1
  {
    if ReadElement(s).Some? {
      LengthReadThenWritten(s[1..]);
      var (n, tail) := ReadLength(s[1..]).value;
      Resplit(s, LengthOctets(n), tail, n);
    }
  }

  lemma Resplit(s: seq<Byte>, length: seq<Byte>, tail: seq<Byte>, n: nat)
    requires s != [] && s[1..] == length + tail && n <= |tail|
    ensures s == [s[0]] + length + tail[..n] + tail[n..]
  {
  }

  /**
    The reader accepts exactly the encodings: it returns an element and a rest
    if and only if its input is that element's encoding followed by that rest.
   */
  lemma ReadElementIff(s: seq<Byte>, e: Element, rest: seq<Byte>)
    ensures ReadElement(s) == Some((e, rest)) <==> e.Encodable() && s == e.Encoded() + rest
  {
    ElementReadThenWritten(s);
    if e.Encodable() {
      ElementWrittenThenRead(e, rest);
    }
  }

  lemma {:induction false} AllWrittenThenRead(elements: seq<Element>)
    requires AllEncodable(elements)
    ensures ReadAll(EncodeAll(elements)) == Some(elements)
  {
    if elements != [] {
      var first, rest := elements[0], EncodeAll(elements[1..]);
      AllWrittenThenRead(elements[1..]);
      ReadElementIff(EncodeAll(elements), first, rest);
      assert [first] + elements[1..] == elements;
    }
  }

  lemma {:induction false} AllReadThenWritten(s: seq<Byte>)
    requires ReadAll(s).Some?
    ensures AllEncodable(ReadAll(s).value) && EncodeAll(ReadAll(s).value) == s
    decreases |s|
  {
    if s != [] {
      var (first, rest) := ReadElement(s).value;
      ReadElementIff(s, first, rest);
      AllReadThenWritten(rest);
      assert ReadAll(s).value[1..] == ReadAll(rest).value;
    }
  }

  /** Octets read as these elements, with none left over, if and only if they are their encodings in a row. */
  lemma ReadAllIff(s: seq<Byte>, elements: seq<Element>)
    ensures ReadAll(s) == Some(elements) <==> AllEncodable(elements) && s == EncodeAll(elements)
  {
    if ReadAll(s).Some? {
      AllReadThenWritten(s);
    }
    if AllEncodable(elements) {
      AllWrittenThenRead(elements);
    }
  }

  lemma EncodeOne(a: Element)
    ensures EncodeAll([a]) == a.Encoded()
  {
    assert [a][1..] == [];
    assert a.Encoded() + [] == a.Encoded();
  }

  lemma EncodeTwo(a: Element, b: Element)
    ensures EncodeAll([a, b]) == a.Encoded() + b.Encoded()
  {
    assert [a, b][1..] == [b];
    EncodeOne(b);
  }

  lemma EncodeThree(a: Element, b: Element, c: Element)
    ensures EncodeAll([a, b, c]) == a.Encoded() + b.Encoded() + c.Encoded()
  {
    assert [a, b, c][1..] == [b, c];
    EncodeTwo(b, c);
    assert EncodeAll([a, b, c]) == a.Encoded() + EncodeAll([b, c]);
  }

  lemma EncodeFour(a: Element, b: Element, c: Element, d: Element)
    ensures EncodeAll([a, b, c, d]) == a.Encoded() + b.Encoded() + c.Encoded() + d.Encoded()
  {
    assert [a, b, c, d][1..] == [b, c, d];
    EncodeThree(b, c, d);
    assert EncodeAll([a, b, c, d]) == a.Encoded() + EncodeAll([b, c, d]);
  }
}
