/**
  PEM output: base64 (RFC 4648 section 4) in lines of 64 characters between a
  header and a footer (RFC 7468 section 3), followed by the terminating NUL that
  the library counts in the length it reports. The strict decoder accepts
  exactly the encoder's outputs.
 */
module Pem {
  import opened Prelude

  const REQUEST_HEADER := "-----BEGIN CERTIFICATE REQUEST-----\n"
  const REQUEST_FOOTER := "-----END CERTIFICATE REQUEST-----\n"
  const PUBLIC_KEY_HEADER := "-----BEGIN PUBLIC KEY-----\n"
  const PUBLIC_KEY_FOOTER := "-----END PUBLIC KEY-----\n"

  /** Six bits. */
  type Sextet = x: int | 0 <= x < 64

  function Digit(v: Sextet): (c: char)
    ensures DigitValue(c) == Some(v) && c != '\n' && c != '='
  {
    if v < 26 then (v + 'A' as int) as char
    else if v < 52 then (v - 26 + 'a' as int) as char
    else if v < 62 then (v - 52 + '0' as int) as char
    else if v == 62 then '+'
    else '/'
  }

  function DigitValue(c: char): Option<Sextet> {
    if 'A' <= c <= 'Z' then Some(c as int - 'A' as int)
    else if 'a' <= c <= 'z' then Some(c as int - 'a' as int + 26)
    else if '0' <= c <= '9' then Some(c as int - '0' as int + 52)
    else if c == '+' then Some(62)
    else if c == '/' then Some(63)
    else None
  }

  lemma DigitOfValue(c: char)
    requires DigitValue(c).Some?
    ensures Digit(DigitValue(c).value) == c
  {
  }

  /** One to three octets as two to four sextets, the last one padded with zero bits. */
  function Sextets(b: seq<Byte>): (v: seq<Sextet>)
    requires 1 <= |b| <= 3
    ensures |v| == |b| + 1
  {
    if |b| == 1 then [b[0] / 4, b[0] % 4 * 16]
    else if |b| == 2 then [b[0] / 4, b[0] % 4 * 16 + b[1] / 16, b[1] % 16 * 4]
    else [b[0] / 4, b[0] % 4 * 16 + b[1] / 16, b[1] % 16 * 4 + b[2] / 64, b[2] % 64]
  }

  /** Refuses padding bits that are not zero. */
  function Octets(v: seq<Sextet>): (b: Option<seq<Byte>>)
    requires 2 <= |v| <= 4
    ensures b.Some? ==> |b.value| == |v| - 1
  {
    var x: int, y: int := v[0], v[1];
    if |v| == 2 then if y % 16 == 0 then Some([x * 4 + y / 16]) else None
    else
      var z: int := v[2];
      if |v| == 3 then if z % 4 == 0 then Some([x * 4 + y / 16, y % 16 * 16 + z / 4]) else None
      else Some([x * 4 + y / 16, y % 16 * 16 + z / 4, z % 4 * 64 + v[3]])
  }

  lemma OctetsOfSextets(b: seq<Byte>)
    requires 1 <= |b| <= 3
    ensures Octets(Sextets(b)) == Some(b)
  {
    var r := Octets(Sextets(b));
    assert r.Some? && r.value[0] == b[0];
    if |b| > 1 {
      assert r.value[1] == b[1];
    }
    assert r.value == b;
  }

  lemma SextetsOfOctets(v: seq<Sextet>)
    requires 2 <= |v| <= 4 && Octets(v).Some?
    ensures Sextets(Octets(v).value) == v
  {
    var w := Sextets(Octets(v).value);
    assert w[0] == v[0] && w[1] == v[1];
    if |v| > 2 {
      assert w[2] == v[2];
    }
  }

  /** Three octets are the same 24 bits as their four sextets. */
  lemma SameBits(b: seq<Byte>)
    requires |b| == 3
    ensures var v := Sextets(b);
            var x: int, y: int, z: int, p: int, q: int, r: int := b[0], b[1], b[2], v[0], v[1], v[2];
            x * 65536 + y * 256 + z == p * 262144 + q * 4096 + r * 64 + v[3]
  {
  }

  /** The four characters for two to four sextets. */
  function Spell(v: seq<Sextet>): (s: string)
    requires 2 <= |v| <= 4
    ensures |s| == 4 && '\n' !in s
    ensures Spelled(s) == Some(v)
  {
    var s := [Digit(v[0]), Digit(v[1]),
              if |v| > 2 then Digit(v[2]) else '=',
              if |v| > 3 then Digit(v[3]) else '='];
    assert Spelled(s).value == v;
    s
  }

  function Spelled(s: string): (v: Option<seq<Sextet>>)
    requires |s| == 4
    ensures v.Some? ==> 2 <= |v.value| <= 4
  {
    var v0, v1, v2, v3 := DigitValue(s[0]), DigitValue(s[1]), DigitValue(s[2]), DigitValue(s[3]);
    if v0.None? || v1.None? then None
    else if s[2] == '=' && s[3] == '=' then Some([v0.value, v1.value])
    else if v2.None? then None
    else if s[3] == '=' then Some([v0.value, v1.value, v2.value])
    else if v3.None? then None
    else Some([v0.value, v1.value, v2.value, v3.value])
  }

  lemma SpellOfSpelled(s: string)
    requires |s| == 4 && Spelled(s).Some?
    ensures Spell(Spelled(s).value) == s
  {
    DigitOfValue(s[0]);
    DigitOfValue(s[1]);
    if s[2] != '=' {
      DigitOfValue(s[2]);
    }
    if s[3] != '=' {
      DigitOfValue(s[3]);
    }
  }

  function Group(b: seq<Byte>): (s: string)
    requires 1 <= |b| <= 3
    ensures |s| == 4 && '\n' !in s
  {
    Spell(Sextets(b))
  }

  function UnGroup(s: string): (b: Option<seq<Byte>>)
    requires |s| == 4
    ensures b.Some? ==> 1 <= |b.value| <= 3
  {
    var v := Spelled(s);
    if v.None? then None else Octets(v.value)
  }

  lemma UnGroupOfGroup(b: seq<Byte>)
    requires 1 <= |b| <= 3
    ensures UnGroup(Group(b)) == Some(b)
  {
    OctetsOfSextets(b);
  }

  lemma GroupOfUnGroup(s: string)
    requires |s| == 4 && UnGroup(s).Some?
    ensures Group(UnGroup(s).value) == s
  {
    SpellOfSpelled(s);
    SextetsOfOctets(Spelled(s).value);
  }

  function Base64(bytes: seq<Byte>): (s: string)
    ensures |s| == (|bytes| + 2) / 3 * 4
    ensures '\n' !in s
  {
    if bytes == [] then ""
    else if |bytes| <= 3 then Group(bytes)
    else
      Group(bytes[..3]) + Base64(bytes[3..])
  }

  /** The alphabet of RFC 4648 section 4, by the codes of its characters. */
  lemma Alphabet(v: Sextet)
    ensures Digit(v) as int == if v < 26 then 65 + v else if v < 52 then 71 + v else if v < 62 then v - 4
                               else if v == 62 then 43 else 47
  {
  }

  /** The test vectors of RFC 4648 section 10 for one to three octets, and the last two digits. */
  lemma TestVectors()
    ensures Base64([0x66]) == "Zg==" && Base64([0x66, 0x6F]) == "Zm8=" && Base64([0x66, 0x6F, 0x6F]) == "Zm9v"
    ensures Base64([0xFB, 0xFF, 0xFE]) == "+//+"
  {
  }

  function UnBase64(s: string): Option<seq<Byte>> {
    if s == "" then Some([])
    else if |s| < 4 then None
    else
      var head := UnGroup(s[..4]);
      if |s| == 4 || head.None? then head
      else
        var tail := UnBase64(s[4..]);
        if |head.value| == 3 && tail.Some? then Some(head.value + tail.value) else None
  }

  lemma {:induction false} Base64RoundTrip(bytes: seq<Byte>)
    ensures UnBase64(Base64(bytes)) == Some(bytes)
  {
    if bytes == [] {
    } else if |bytes| <= 3 {
      UnGroupOfGroup(bytes);
      assert Group(bytes)[..4] == Group(bytes);
    } else {
      var head, tail := bytes[..3], bytes[3..];
      Base64RoundTrip(tail);
      ConsGroup(head, Base64(tail), tail);
      assert bytes == head + tail;
    }
  }

  lemma ConsGroup(head: seq<Byte>, s: string, tail: seq<Byte>)
    requires |head| == 3 && s != "" && UnBase64(s) == Some(tail)
    ensures UnBase64(Group(head) + s) == Some(head + tail)
  {
    var t := Group(head) + s;
    UnGroupOfGroup(head);
    assert t[..4] == Group(head) && t[4..] == s;
  }

  lemma {:induction false} UnBase64RoundTrip(s: string)
    ensures var bytes := UnBase64(s); bytes.Some? ==> Base64(bytes.value) == s
  {
    if UnBase64(s).Some? && s != "" {
      var head := UnGroup(s[..4]).value;
      GroupOfUnGroup(s[..4]);
      if |s| == 4 {
        assert s[..4] == s;
      } else {
        var tail := UnBase64(s[4..]).value;
        UnBase64RoundTrip(s[4..]);
        assert tail != [] && (head + tail)[..3] == head && (head + tail)[3..] == tail;
      }
    }
  }

  /** Lines of 64 characters, the last one possibly shorter, each ended by a newline. */
  function Wrap(s: string): (t: string)
    ensures |t| == |s| + (|s| + 63) / 64
  {
    if s == "" then ""
    else if |s| <= 64 then s + "\n"
    else s[..64] + "\n" + Wrap(s[64..])
  }

  /** Strict inverse: only the last line may be short, and no line is empty. */
  function Unwrap(t: string): Option<string> {
    if t == "" then Some("")
    else if |t| >= 65 && t[64] == '\n' && '\n' !in t[..64] then
      var rest :- Unwrap(t[65..]);
      Some(t[..64] + rest)
    else if 2 <= |t| <= 64 && t[|t| - 1] == '\n' && '\n' !in t[..|t| - 1] then Some(t[..|t| - 1])
    else None
  }

  lemma {:induction false} WrapRoundTrip(s: string)
    requires '\n' !in s
    ensures Unwrap(Wrap(s)) == Some(s)
  {
    if |s| >= 64 {
      var line, rest := s[..64], s[64..];
      WrapRoundTrip(rest);
      assert Wrap(s) == line + "\n" + Wrap(rest);
      UnwrapLine(line, Wrap(rest));
      assert line + rest == s;
    } else if s != "" {
      assert Wrap(s)[..|s|] == s;
    }
  }

  lemma UnwrapLine(line: string, t: string)
    requires |line| == 64 && '\n' !in line && Unwrap(t).Some?
    ensures Unwrap(line + "\n" + t) == Some(line + Unwrap(t).value)
  {
    var u := line + "\n" + t;
    assert u[..64] == line && u[65..] == t;
  }

  lemma {:induction false} UnwrapRoundTrip(t: string)
    ensures var s := Unwrap(t); s.Some? ==> Wrap(s.value) == t && '\n' !in s.value
  {
    if t != "" && Unwrap(t).Some? {
      if |t| >= 65 {
        var rest := Unwrap(t[65..]).value;
        UnwrapRoundTrip(t[65..]);
        assert t == t[..64] + "\n" + t[65..];
        assert (t[..64] + rest)[..64] == t[..64] && (t[..64] + rest)[64..] == rest;
      } else {
        assert t == t[..|t| - 1] + "\n";
      }
    }
  }

  function PemText(header: string, footer: string, der: seq<Byte>): string {
    header + Wrap(Base64(der)) + footer + "\0"
  }

  /** What stands between a header and a footer. */
  function PemLines(header: string, footer: string, text: string): string {
    if |text| < |header| + |footer| + 1 then "" else text[|header|..|text| - |footer| - 1]
  }

  function PemBytes(header: string, footer: string, text: string): Option<seq<Byte>> {
    var lines := PemLines(header, footer, text);
    if text != header + lines + footer + "\0" then None
    else
      var s := Unwrap(lines);
      if s.None? then None else UnBase64(s.value)
  }

  /**
    A PEM text decodes to `der` if and only if it is the one text written for
    `der`: nothing is lost and no other text is accepted.
   */
  lemma PemBytesIff(header: string, footer: string, text: string, der: seq<Byte>)
    ensures PemBytes(header, footer, text) == Some(der) <==> text == PemText(header, footer, der)
  {
    Base64RoundTrip(der);
    WrapRoundTrip(Base64(der));
    if text == PemText(header, footer, der) {
      assert PemLines(header, footer, text) == Wrap(Base64(der));
    }
    if PemBytes(header, footer, text) == Some(der) {
      var lines := PemLines(header, footer, text);
      UnwrapRoundTrip(lines);
      UnBase64RoundTrip(Unwrap(lines).value);
    }
  }

  /** Header, lines, footer and NUL fit the buffer both callers allocate, for every DER length. */
  lemma PemFits(header: string, footer: string, der: seq<Byte>)
    requires |header| + |footer| <= 100
    ensures |PemText(header, footer, der)| <= |der| * 2 + 256
  {
  }

  /** `memcpy` of `s` to position `p`; returns the position after it. */
  method Put(buf: array<char>, p: nat, s: string) returns (q: nat)
    requires p + |s| <= buf.Length
    modifies buf
    ensures q == p + |s| && buf[..q] == old(buf[..p]) + s
  {
    forall i | 0 <= i < |s| {
      buf[p + i] := s[i];
    }
    q := p + |s|;
  }

  /** The library's loop: copy up to 64 characters, then a newline, until none are left. */
  method PutLines(buf: array<char>, p: nat, s: string) returns (q: nat)
    requires '\n' !in s && p + |Wrap(s)| <= buf.Length
    modifies buf
    ensures q == p + |Wrap(s)| && buf[..q] == old(buf[..p]) + Wrap(s)
  {
    q := p;
    var left := s;
    while left != ""
      invariant '\n' !in left
      invariant q + |Wrap(left)| == p + |Wrap(s)|
      invariant buf[..q] + Wrap(left) == old(buf[..p]) + Wrap(s)
      decreases |left|
    {
      var n := if |left| > 64 then 64 else |left|;
      ghost var before, rest := buf[..q], Wrap(left[n..]);
      assert Wrap(left) == left[..n] + "\n" + rest;
      q := Put(buf, q, left[..n] + "\n");
      assert buf[..q] + rest == before + (left[..n] + "\n" + rest);
      left := left[n..];
    }
  }

  method PutText(header: string, s: string, footer: string, buf: array<char>) returns (olen: nat)
    requires '\n' !in s
    requires |header| + |Wrap(s)| + |footer| + 1 <= buf.Length
    modifies buf
    ensures olen <= buf.Length && buf[..olen] == header + Wrap(s) + footer + "\0"
  {
    olen := Put(buf, 0, header);
    olen := PutLines(buf, olen, s);
    olen := Put(buf, olen, footer);
    olen := Put(buf, olen, "\0");
  }

  /** `mbedtls_pem_write_buffer`: refuses a buffer that cannot hold the text and its NUL. */
  method WriteBuffer(header: string, footer: string, der: seq<Byte>, buf: array<char>) returns (ok: bool, olen: nat)
    modifies buf
    ensures ok <==> |PemText(header, footer, der)| <= buf.Length
    ensures ok ==> olen <= buf.Length && buf[..olen] == PemText(header, footer, der)
  {
    var encoded := Base64(der);
    olen := |header| + |encoded| + (|encoded| + 63) / 64 + |footer| + 1;
    ok := olen <= buf.Length;
    if ok {
      olen := PutText(header, encoded, footer, buf);
    }
  }

  /** `toPem` and `spkiToPem`: a buffer of twice the DER and 256 more is always enough. */
  method ToPem(header: string, footer: string, der: seq<Byte>) returns (r: Result<string, string>)
    requires |header| + |footer| <= 100
    ensures r == Ok(PemText(header, footer, der))
  {
    var pem := new char[|der| * 2 + 256];
    PemFits(header, footer, der);
    var ok, olen := WriteBuffer(header, footer, der, pem);
    if !ok {
      return Err("pem_write_buffer failed");
    }
    return Ok(pem[..olen]);
  }

  /** `spkiToPem` never fails, and its text gives back the key it was made from. */
  method SpkiToPem(spkiDer: seq<Byte>) returns (r: Result<string, string>)
    ensures r.Ok? && PemBytes(PUBLIC_KEY_HEADER, PUBLIC_KEY_FOOTER, r.value) == Some(spkiDer)
  {
    r := ToPem(PUBLIC_KEY_HEADER, PUBLIC_KEY_FOOTER, spkiDer);
    PemBytesIff(PUBLIC_KEY_HEADER, PUBLIC_KEY_FOOTER, r.value, spkiDer);
  }
}
