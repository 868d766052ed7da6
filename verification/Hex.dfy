/** Lower-case hexadecimal, as `%02x` and Python's `bytes.hex` print it and `sscanf("%02x")` reads it. */
module Hex {
  import opened Prelude

  function Digit(v: int): (c: char)
    requires 0 <= v < 16
    ensures IsHexDigit(c) && Value(c) == v
  {
    if v < 10 then (v + '0' as int) as char else (v - 10 + 'a' as int) as char
  }

  predicate IsHexDigit(c: char) {
    '0' <= c <= '9' || 'a' <= c <= 'f' || 'A' <= c <= 'F'
  }

  /** The value of a digit; 0 for any other character. */
  function Value(c: char): (v: int)
    ensures 0 <= v < 16
  {
    if '0' <= c <= '9' then c as int - '0' as int
    else if 'A' <= c <= 'F' then c as int - 'A' as int + 10
    else if 'a' <= c <= 'f' then c as int - 'a' as int + 10
    else 0
  }

  function Encode(bytes: seq<Byte>): (s: string)
    ensures |s| == 2 * |bytes|
    ensures forall i :: 0 <= i < |s| ==> IsHexDigit(s[i])
  {
    if bytes == [] then "" else [Digit(bytes[0] / 16), Digit(bytes[0] % 16)] + Encode(bytes[1..])
  }

  /** Digits are printed in lower case. */
  lemma {:induction false} LowerCase(bytes: seq<Byte>)
    ensures forall i :: 0 <= i < |Encode(bytes)| ==> '0' <= Encode(bytes)[i] <= '9' || 'a' <= Encode(bytes)[i] <= 'f'
  {
    if bytes != [] {
      LowerCase(bytes[1..]);
    }
  }

  /** Two digits spell the octet that they are the digits of, the higher one first. */
  lemma DigitsOf(b: Byte)
    ensures Encode([b]) == [Digit(b / 16), Digit(b % 16)] && Value(Digit(b / 16)) * 16 + Value(Digit(b % 16)) == b
  {
    assert [b][1..] == [] && Encode([]) == "";
  }

  /** The octet spelled by the two digits that `s` starts with. */
  function Pair(s: string): Byte {
    if |s| >= 2 then Value(s[0]) * 16 + Value(s[1]) else 0
  }

  ghost predicate ReadsPairs(scan: string -> Option<Byte>) {
    forall s: string :: |s| >= 2 && IsHexDigit(s[0]) && IsHexDigit(s[1]) ==> scan(s) == Some(Pair(s))
  }

  /**
    `sscanf(s, "%02x", &b)`: the octet stored, or None when it does not return 1.
    All that is known of it is that it reads two hexadecimal digits as their
    octet; what it makes of anything else is left open.
   */
  type Scan = scan: string -> Option<Byte> | ReadsPairs(scan)
    ghost witness (s: string) => if |s| >= 2 && IsHexDigit(s[0]) && IsHexDigit(s[1]) then Some(Pair(s)) else None

  /** The string that starts `n` characters on. */
  function Drop(s: string, n: nat): string {
    if n <= |s| then s[n..] else ""
  }

  /** `n` successive calls, two characters apart; None as soon as one of them fails. */
  function ScanPairs(scan: Scan, s: string, n: nat): (r: Option<seq<Byte>>)
    ensures r.Some? ==> |r.value| == n
    decreases n
  {
    if n == 0 then Some([])
    else
      var first := scan(s);
      var rest := ScanPairs(scan, Drop(s, 2), n - 1);
      if first.None? || rest.None? then None else Some([first.value] + rest.value)
  }

  /** The octets spelled by the first 2n characters. */
  function Pairs(s: string, n: nat): (bytes: seq<Byte>)
    ensures |bytes| == n
    decreases n
  {
    if n == 0 then [] else [Pair(s)] + Pairs(Drop(s, 2), n - 1)
  }

  predicate IsCanonical(s: string, n: nat) {
    2 * n <= |s| && forall i :: 0 <= i < 2 * n ==> IsHexDigit(s[i])
  }

  lemma {:induction false} ScanCanonical(scan: Scan, s: string, n: nat)
    requires IsCanonical(s, n)
    ensures ScanPairs(scan, s, n) == Some(Pairs(s, n))
    decreases n
  {
    if n > 0 {
      assert scan(s) == Some(Pair(s));
      ScanCanonical(scan, Drop(s, 2), n - 1);
    }
  }

  /** The two digits of an octet are read as that octet. */
  lemma DigitsScanned(scan: Scan, b: Byte, rest: string)
    ensures scan([Digit(b / 16), Digit(b % 16)] + rest) == Some(b)
    ensures Drop([Digit(b / 16), Digit(b % 16)] + rest, 2) == rest
  {
    var s := [Digit(b / 16), Digit(b % 16)] + rest;
    assert scan(s) == Some(Pair(s));
  }

  /** Every reader in the program gives back what every printer in it printed. */
  lemma {:induction false} ScanEncoded(scan: Scan, bytes: seq<Byte>, tail: string)
    ensures ScanPairs(scan, Encode(bytes) + tail, |bytes|) == Some(bytes)
  {
    if bytes != [] {
      var rest := Encode(bytes[1..]) + tail;
      DigitsScanned(scan, bytes[0], rest);
      assert Encode(bytes) + tail == [Digit(bytes[0] / 16), Digit(bytes[0] % 16)] + rest;
      ScanEncoded(scan, bytes[1..], tail);
      assert [bytes[0]] + bytes[1..] == bytes;
    }
  }

  /** If every call reads an octet, the loop reads them all. */
  lemma {:induction false} ScansAll(scan: Scan, s: string, bytes: seq<Byte>)
    requires forall i :: 0 <= i < |bytes| ==> scan(Drop(s, 2 * i)) == Some(bytes[i])
    ensures ScanPairs(scan, s, |bytes|) == Some(bytes)
    decreases |bytes|
  {
    if bytes != [] {
      var rest := bytes[1..];
      assert scan(Drop(s, 2 * 0)) == Some(bytes[0]);
      forall i | 0 <= i < |rest|
        ensures scan(Drop(Drop(s, 2), 2 * i)) == Some(rest[i])
      {
        assert Drop(Drop(s, 2), 2 * i) == Drop(s, 2 * (i + 1));
        assert rest[i] == bytes[i + 1];
      }
      ScansAll(scan, Drop(s, 2), rest);
      assert [bytes[0]] + rest == bytes;
    }
  }

  /** If one call fails, so does the loop. */
  lemma {:induction false} ScanFails(scan: Scan, s: string, n: nat, i: nat)
    requires i < n && scan(Drop(s, 2 * i)).None?
    ensures ScanPairs(scan, s, n).None?
    decreases n
  {
    if i > 0 {
      assert Drop(Drop(s, 2), 2 * (i - 1)) == Drop(s, 2 * i);
      ScanFails(scan, Drop(s, 2), n - 1, i - 1);
    }
  }

  /** The reading loop of `parse16`, `parseKey16` and `infoData`, which stops at the first failure. */
  method Read(scan: Scan, s: string, out: array<Byte>) returns (ok: bool)
    modifies out
    ensures ok <==> ScanPairs(scan, s, out.Length).Some?
    ensures ok ==> out[..] == ScanPairs(scan, s, out.Length).value
  {
    var i := 0;
    while i < out.Length
      invariant i <= out.Length
      invariant forall j :: 0 <= j < i ==> scan(Drop(s, 2 * j)) == Some(out[j])
    {
      var b := scan(Drop(s, 2 * i));
      if b.None? {
        ScanFails(scan, s, out.Length, i);
        return false;
      }
      out[i] := b.value;
      i := i + 1;
    }
    ScansAll(scan, s, out[..]);
    return true;
  }

  /** The printing loop of the key file and of `bytesToDisplay`: `%02x` for each octet. */
  method Print(bytes: seq<Byte>) returns (s: string)
    ensures s == Encode(bytes)
  {
    s := "";
    var i := 0;
    while i < |bytes|
      invariant i <= |bytes| && s + Encode(bytes[i..]) == Encode(bytes)
    {
      ghost var before, rest := s, Encode(bytes[i + 1..]);
      var digits := [Digit(bytes[i] / 16), Digit(bytes[i] % 16)];
      assert bytes[i..][1..] == bytes[i + 1..];
      s := s + digits;
      i := i + 1;
      assert s + rest == before + (digits + rest);
    }
  }
}
