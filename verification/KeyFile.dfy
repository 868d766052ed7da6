/** The SCP03 key file: its text, and the line reader that finds one key in it. */
module KeyFile {
  import opened Prelude
  import opened Keys
  import Hex

  // ---------- reading ----------

  /** `char line[512]`: one `fgets` takes at most 511 characters. */
  const LINE_ROOM := 511

  /** How many characters the next `fgets` takes: through the newline, or as many as fit. */
  function ChunkLength(text: string, room: nat): (n: nat)
    ensures n <= |text| && n <= room
    ensures text != "" && room > 0 ==> n > 0
  {
    if text == "" || room == 0 then 0
    else if text[0] == '\n' then 1
    else 1 + ChunkLength(text[1..], room - 1)
  }

  /** The C string held in a buffer: what stands before the first NUL. */
  function CString(buffer: string): (s: string)
    ensures '\0' !in buffer ==> s == buffer
  {
    if buffer == "" || buffer[0] == '\0' then "" else [buffer[0]] + CString(buffer[1..])
  }

  /** It ends at the first NUL, or with the buffer. */
  lemma {:induction false} CStringEnds(buffer: string)
    ensures var s := CString(buffer);
            s <= buffer && '\0' !in s && (s == buffer || buffer[|s|] == '\0')
  {
    if buffer != "" && buffer[0] != '\0' {
      CStringEnds(buffer[1..]);
    }
  }

  function SkipBlanks(s: string): (t: string)
    ensures s != "" && s[0] != ' ' && s[0] != '\t' ==> t == s
  {
    if s != "" && (s[0] == ' ' || s[0] == '\t') then SkipBlanks(s[1..]) else s
  }

  /** What follows the tag, one blank and any further blanks, if the line starts with that tag. */
  function Field(line: string, tag: string): Option<string> {
    var p := SkipBlanks(CString(line));
    if |p| > |tag| && p[..|tag|] == tag && p[|tag|] == ' ' then Some(SkipBlanks(p[|tag| + 1..])) else None
  }

  /** `findKey` on the text of a file: the first tagged line decides, even when it is malformed. */
  function Find(scan: Hex.Scan, text: string, tag: string): (r: Option<seq<Byte>>)
    ensures r.Some? ==> |r.value| == 16
    decreases |text|
  {
    if text == "" then None
    else
      var n := ChunkLength(text, LINE_ROOM);
      var field := Field(text[..n], tag);
      if field.Some? then Hex.ScanPairs(scan, field.value, 16) else Find(scan, text[n..], tag)
  }

  // What a key line looks like, in plain strings.

  predicate IsBlank(s: string) {
    forall i :: 0 <= i < |s| ==> s[i] == ' ' || s[i] == '\t'
  }

  /** The string does not go on with a blank. */
  predicate StartsText(s: string) {
    s == "" || (s[0] != ' ' && s[0] != '\t')
  }

  lemma {:induction false} BlanksSkipped(blanks: string, rest: string)
    requires IsBlank(blanks) && StartsText(rest)
    ensures SkipBlanks(blanks + rest) == rest
  {
    if blanks == "" {
      assert blanks + rest == rest;
    } else {
      assert (blanks + rest)[1..] == blanks[1..] + rest;
      BlanksSkipped(blanks[1..], rest);
    }
  }

  /** Any string is some blanks and what the reader goes on with. */
  lemma {:induction false} SkippedBlanks(s: string) returns (blanks: string)
    ensures IsBlank(blanks) && StartsText(SkipBlanks(s)) && s == blanks + SkipBlanks(s)
  {
    blanks := "";
    if !StartsText(s) {
      var more := SkippedBlanks(s[1..]);
      blanks := [s[0]] + more;
    }
  }

  /** A key line: perhaps blanks, the tag, a blank, perhaps more blanks, and the value. */
  lemma KeyLine(indent: string, tag: string, gap: string, value: string)
    requires IsBlank(indent) && IsBlank(gap) && tag != "" && StartsText(tag) && StartsText(value)
    requires '\0' !in indent + tag + " " + gap + value
    ensures Field(indent + tag + " " + gap + value, tag) == Some(value)
  {
    var rest := tag + " " + gap + value;
    assert indent + tag + " " + gap + value == indent + rest;
    BlanksSkipped(indent, rest);
    assert rest[..|tag|] == tag && rest[|tag|] == ' ' && rest[|tag| + 1..] == gap + value;
    BlanksSkipped(gap, value);
  }

  /** The line is some blanks, the tag, a blank, and anything. */
  ghost predicate IsTagged(line: string, tag: string) {
    exists indent, rest :: TaggedBy(line, indent, tag, rest)
  }

  ghost predicate TaggedBy(line: string, indent: string, tag: string, rest: string) {
    IsBlank(indent) && line == indent + tag + " " + rest
  }

  lemma FieldIsTagged(line: string, tag: string)
    requires '\0' !in line && Field(line, tag).Some?
    ensures IsTagged(line, tag)
  {
    var indent := SkippedBlanks(line);
    var p := SkipBlanks(line);
    assert p == tag + " " + p[|tag| + 1..];
    assert line == indent + tag + " " + p[|tag| + 1..];
    assert TaggedBy(line, indent, tag, p[|tag| + 1..]);
  }

  lemma TaggedHasField(line: string, indent: string, tag: string, rest: string)
    requires '\0' !in line && tag != "" && StartsText(tag) && TaggedBy(line, indent, tag, rest)
    ensures Field(line, tag).Some?
  {
    var gap := SkippedBlanks(rest);
    var value := SkipBlanks(rest);
    assert line == indent + tag + " " + gap + value;
    KeyLine(indent, tag, gap, value);
  }

  /** The reader takes exactly the lines that carry the tag. */
  lemma TaggedIff(line: string, tag: string)
    requires '\0' !in line && tag != "" && StartsText(tag)
    ensures Field(line, tag).Some? <==> IsTagged(line, tag)
  {
    if Field(line, tag).Some? {
      FieldIsTagged(line, tag);
    }
    if IsTagged(line, tag) {
      var indent, rest :| TaggedBy(line, indent, tag, rest);
      TaggedHasField(line, indent, tag, rest);
    }
  }

  /** A line with its terminator, short enough for one `fgets`; only the last may lack the newline. */
  predicate IsLine(line: string, last: bool) {
    && 0 < |line| <= LINE_ROOM && '\n' !in line[..|line| - 1]
    && (last || line[|line| - 1] == '\n')
  }

  predicate AreLines(lines: seq<string>) {
    forall i :: 0 <= i < |lines| ==> IsLine(lines[i], i == |lines| - 1)
  }

  function Join(lines: seq<string>): string {
    if lines == [] then "" else lines[0] + Join(lines[1..])
  }

  lemma {:induction false} ChunkIsLine(line: string, rest: string, room: nat)
    requires 0 < |line| <= room && '\n' !in line[..|line| - 1]
    requires line[|line| - 1] == '\n' || rest == ""
    ensures ChunkLength(line + rest, room) == |line|
  {
    var text := line + rest;
    assert text[0] == line[0];
    if |line| > 1 {
      assert line[0] == line[..|line| - 1][0] && line[1..][..|line| - 2] == line[..|line| - 1][1..];
      ChunkIsLine(line[1..], rest, room - 1);
      assert text[1..] == line[1..] + rest;
    } else if text[0] != '\n' {
      assert text[1..] == "";
    }
  }

  /**
    In a file of lines that each fit the buffer, the reader returns the value on
    the first line that carries the tag, whatever the other lines are and
    wherever they stand; with no such line it returns nothing.
   */
  lemma {:induction false} FindsFirstTaggedLine(scan: Hex.Scan, lines: seq<string>, tag: string, k: nat)
    requires AreLines(lines) && k <= |lines|
    requires forall j :: 0 <= j < k ==> Field(lines[j], tag).None?
    requires k < |lines| ==> Field(lines[k], tag).Some?
    ensures Find(scan, Join(lines), tag)
            == if k == |lines| then None else Hex.ScanPairs(scan, Field(lines[k], tag).value, 16)
    ensures k < |lines| && Hex.IsCanonical(Field(lines[k], tag).value, 16)
            ==> Find(scan, Join(lines), tag) == Some(Hex.Pairs(Field(lines[k], tag).value, 16))
  {
    if lines != [] {
      var text, rest := Join(lines), Join(lines[1..]);
      assert IsLine(lines[0], 0 == |lines| - 1);
      ChunkIsLine(lines[0], rest, LINE_ROOM);
      assert text[..|lines[0]|] == lines[0] && text[|lines[0]|..] == rest;
      if k > 0 {
        assert forall j :: 0 <= j < k - 1 ==> lines[1..][j] == lines[j + 1];
        assert AreLines(lines[1..]);
        FindsFirstTaggedLine(scan, lines[1..], tag, k - 1);
      }
    }
    if k < |lines| && Hex.IsCanonical(Field(lines[k], tag).value, 16) {
      Hex.ScanCanonical(scan, Field(lines[k], tag).value, 16);
    }
  }

  /**
    In a file of lines of at most 511 characters, without NULs, the key read under a
    tag is the value on the first line that is blanks, the tag, a blank, perhaps
    more blanks, and the value, whatever the other lines are; without a line that
    carries the tag there is none.
   */
  lemma FindsFirstKeyLine(scan: Hex.Scan, lines: seq<string>, tag: string, k: nat, indent: string, gap: string,
                          value: string)
    requires forall j :: 0 <= j < |lines|
                         ==> && 0 < |lines[j]| <= 511 && '\0' !in lines[j] && '\n' !in lines[j][..|lines[j]| - 1]
                             && (j < |lines| - 1 ==> lines[j][|lines[j]| - 1] == '\n')
    requires k <= |lines| && tag != "" && StartsText(tag)
    requires forall j :: 0 <= j < k ==> !IsTagged(lines[j], tag)
    requires k < |lines| ==> IsBlank(indent) && IsBlank(gap) && StartsText(value)
                             && lines[k] == indent + tag + " " + gap + value
    ensures k == |lines| ==> Find(scan, Join(lines), tag) == None
    ensures k < |lines| ==> Find(scan, Join(lines), tag) == Hex.ScanPairs(scan, value, 16)
    ensures k < |lines| && Hex.IsCanonical(value, 16) ==> Find(scan, Join(lines), tag) == Some(Hex.Pairs(value, 16))
  {
    forall j | 0 <= j < k
      ensures Field(lines[j], tag).None?
    {
      TaggedIff(lines[j], tag);
    }
    if k < |lines| {
      KeyLine(indent, tag, gap, value);
    }
    FindsFirstTaggedLine(scan, lines, tag, k);
  }

  /** A file of one indented line: the DEK is found. */
  lemma IndentedKeyFound(scan: Hex.Scan, dek: Block)
    ensures Find(scan, "\t DEK \t" + Hex.Encode(dek) + "\n", "DEK") == Some(dek)
  {
    var value := Hex.Encode(dek) + "\n";
    var line := "\t " + "DEK" + " " + "\t" + value;
    assert line == "\t DEK \t" + Hex.Encode(dek) + "\n";
    assert Hex.IsHexDigit(value[0]);
    assert forall i :: 0 <= i < |Hex.Encode(dek)| ==> line[7 + i] == Hex.Encode(dek)[i];
    assert IsLine(line, true);
    FindsFirstKeyLine(scan, [line], "DEK", 0, "\t ", "\t", value);
    assert Join([line]) == line by {
      assert [line][1..] == [] && Join([]) == "";
    }
    Hex.ScanEncoded(scan, dek, "\n");
  }

  /** The tag is matched as it is spelled: a lower-case line does not give a key. */
  lemma TagIsCaseSensitive(scan: Hex.Scan, key: Block)
    ensures Find(scan, Line("dek", key), "DEK") == None
  {
    LineField("dek", key, "DEK");
    UntaggedLine(scan, Line("dek", key), "DEK");
  }

  lemma UntaggedLine(scan: Hex.Scan, line: string, tag: string)
    requires IsLine(line, true) && Field(line, tag).None?
    ensures Find(scan, line, tag) == None
  {
    FindsFirstTaggedLine(scan, [line], tag, 1);
    assert [line][1..] == [] && Join([]) == "";
    assert Join([line]) == line + "" == line;
  }

  /** `findKey`: opens the file, then reads line by line into `out`. */
  method FindKey(content: Option<string>, tag: string, scan: Hex.Scan, out: array<Byte>) returns (found: bool)
    requires out.Length == 16
    modifies out
    ensures found <==> content.Some? && Find(scan, content.value, tag).Some?
    ensures found ==> out[..] == Find(scan, content.value, tag).value
  {
    if content.None? {
      return false;
    }
    found := false;
    var left := content.value;
    while left != ""
      invariant Find(scan, left, tag) == Find(scan, content.value, tag)
      decreases |left|
    {
      var n := ChunkLength(left, LINE_ROOM);
      var field := Field(left[..n], tag);
      left := left[n..];
      if field.Some? {
        found := Hex.Read(scan, field.value, out);
        return;
      }
    }
  }

  /** `read`: all three keys, or the exception. */
  function ReadText(scan: Hex.Scan, text: string): Option<KeySet> {
    var enc :- Find(scan, text, "ENC");
    var mac :- Find(scan, text, "MAC");
    var dek :- Find(scan, text, "DEK");
    Some(KeySet(enc, mac, dek))
  }

  method Read(content: Option<string>, scan: Hex.Scan) returns (r: Option<KeySet>)
    ensures r == if content.None? then None else ReadText(scan, content.value)
  {
    var enc, mac, dek := new Byte[16], new Byte[16], new Byte[16];
    var ok := FindKey(content, "ENC", scan, enc);
    if !ok {
      return None;
    }
    ok := FindKey(content, "MAC", scan, mac);
    if !ok {
      return None;
    }
    ok := FindKey(content, "DEK", scan, dek);
    if !ok {
      return None;
    }
    return Some(KeySet(enc[..], mac[..], dek[..]));
  }

  // ---------- the text ----------

  function Line(tag: string, key: Block): string {
    tag + " " + Hex.Encode(key) + "\n"
  }

  function Text(keys: KeySet): string {
    Line("ENC", keys.enc) + Line("MAC", keys.mac) + Line("DEK", keys.dek)
  }

  /** The file as it stands on disk. */
  lemma TextIs(keys: KeySet)
    ensures Text(keys) == "ENC " + Hex.Encode(keys.enc) + "\n" + "MAC " + Hex.Encode(keys.mac) + "\n"
                          + "DEK " + Hex.Encode(keys.dek) + "\n"
  {
    TaggedLine("ENC", keys.enc);
    TaggedLine("MAC", keys.mac);
    TaggedLine("DEK", keys.dek);
    var enc, mac, dek := Hex.Encode(keys.enc) + "\n", Hex.Encode(keys.mac) + "\n", Hex.Encode(keys.dek) + "\n";
    assert "ENC " + enc + ("MAC " + mac) + ("DEK " + dek)
        == "ENC " + Hex.Encode(keys.enc) + "\n" + "MAC " + Hex.Encode(keys.mac) + "\n"
           + "DEK " + Hex.Encode(keys.dek) + "\n";
  }

  lemma TaggedLine(tag: string, key: Block)
    ensures Line(tag, key) == (tag + " ") + (Hex.Encode(key) + "\n")
  {
  }

  lemma LineField(tag: string, key: Block, other: string)
    requires |tag| == |other| == 3 && tag[0] != ' ' && tag[0] != '\t' && '\0' !in tag && '\n' !in tag
    ensures IsLine(Line(tag, key), false)
    ensures Field(Line(tag, key), other) == if tag == other then Some(Hex.Encode(key) + "\n") else None
  {
    var line, hex := Line(tag, key), Hex.Encode(key);
    assert Hex.IsHexDigit(hex[0]);
    assert forall i :: 4 <= i < |line| - 1 ==> line[i] == hex[i - 4];
    assert CString(line) == line && line[..3] == tag && line[4..] == hex + "\n";
  }

  lemma JoinThree(a: string, b: string, c: string)
    ensures Join([a, b, c]) == a + b + c
  {
    assert [a, b, c][1..] == [b, c] && [b, c][1..] == [c] && [c][1..] == [];
    assert Join([c]) == c + Join([]);
    assert Join([b, c]) == b + Join([c]);
  }

  /** Line k is the first to carry its tag, so it is the one found. */
  lemma FindsWritten(scan: Hex.Scan, lines: seq<string>, tag: string, k: nat, key: Block)
    requires AreLines(lines) && k < |lines|
    requires forall j :: 0 <= j < k ==> Field(lines[j], tag).None?
    requires Field(lines[k], tag) == Some(Hex.Encode(key) + "\n")
    ensures Find(scan, Join(lines), tag) == Some(key)
  {
    FindsFirstTaggedLine(scan, lines, tag, k);
    Hex.ScanEncoded(scan, key, "\n");
  }

  lemma ReadThreeLines(scan: Hex.Scan, enc: string, mac: string, dek: string, keys: KeySet)
    requires IsLine(enc, false) && IsLine(mac, false) && IsLine(dek, false)
    requires Field(enc, "ENC") == Some(Hex.Encode(keys.enc) + "\n")
    requires Field(enc, "MAC").None? && Field(mac, "MAC") == Some(Hex.Encode(keys.mac) + "\n")
    requires Field(enc, "DEK").None? && Field(mac, "DEK").None?
    requires Field(dek, "DEK") == Some(Hex.Encode(keys.dek) + "\n")
    ensures ReadText(scan, enc + mac + dek) == Some(keys)
    ensures Find(scan, enc + mac + dek, "DEK") == Some(keys.dek)
  {
    var lines := [enc, mac, dek];
    JoinThree(enc, mac, dek);
    assert AreLines(lines);
    assert Find(scan, Join(lines), "ENC") == Some(keys.enc) by {
      FindsWritten(scan, lines, "ENC", 0, keys.enc);
    }
    assert Find(scan, Join(lines), "MAC") == Some(keys.mac) by {
      FindsWritten(scan, lines, "MAC", 1, keys.mac);
    }
    assert Find(scan, Join(lines), "DEK") == Some(keys.dek) by {
      FindsWritten(scan, lines, "DEK", 2, keys.dek);
    }
  }

  /** Reading the text written for a key set gives that key set, and its DEK alone. */
  lemma ReadAfterWrite(scan: Hex.Scan, keys: KeySet)
    ensures ReadText(scan, Text(keys)) == Some(keys)
    ensures Find(scan, Text(keys), "DEK") == Some(keys.dek)
  {
    LineField("ENC", keys.enc, "ENC");
    LineField("ENC", keys.enc, "MAC");
    LineField("ENC", keys.enc, "DEK");
    LineField("MAC", keys.mac, "MAC");
    LineField("MAC", keys.mac, "DEK");
    LineField("DEK", keys.dek, "DEK");
    ReadThreeLines(scan, Line("ENC", keys.enc), Line("MAC", keys.mac), Line("DEK", keys.dek), keys);
  }
}
