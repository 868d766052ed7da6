/**
  The device-info record on its way out to a terminal and back in from a command
  line: what `read-info` prints, `write-info` and `verify-info` take for the same
  octets.
 */
module Info {
  import opened Prelude
  import Hex
  import opened Cli

  /** Bytes and characters of the command line correspond one to one. */
  function Chars(bytes: seq<Byte>): (s: string)
    ensures |s| == |bytes|
  {
    seq(|bytes|, i requires 0 <= i < |bytes| => bytes[i] as char)
  }

  /** `{text.begin(), text.end()}`, each character cut to eight bits. */
  function Bytes(s: string): (bytes: seq<Byte>)
    ensures |bytes| == |s|
  {
    seq(|s|, i requires 0 <= i < |s| => s[i] as int % 256)
  }

  predicate Printable(b: Byte) {
    b == 0x09 || b == 0x0A || b == 0x0D || 0x20 <= b < 0x7F
  }

  predicate IsText(bytes: seq<Byte>) {
    bytes != [] && forall i :: 0 <= i < |bytes| ==> Printable(bytes[i])
  }

  /** `bytesToDisplay` */
  function Display(bytes: seq<Byte>): string {
    if IsText(bytes) then Chars(bytes) else Hex.Encode(bytes)
  }

  method BytesToDisplay(bytes: seq<Byte>) returns (s: string)
    ensures s == Display(bytes)
  {
    var printable := bytes != [];
    var i := 0;
    while i < |bytes|
      invariant i <= |bytes| && printable == (bytes != [])
      invariant forall j :: 0 <= j < i ==> Printable(bytes[j])
    {
      if !Printable(bytes[i]) {
        printable := false;
        break;
      }
      i := i + 1;
    }
    if printable {
      return Chars(bytes);
    }
    s := Hex.Print(bytes);
  }

  /**
    What is shown never has a control character other than tab, newline and return,
    nor one beyond ASCII; it is the text itself exactly for octets without them, of
    which there are any.
   */
  lemma DisplayIsClean(bytes: seq<Byte>)
    ensures forall i :: 0 <= i < |Display(bytes)|
                        ==> Display(bytes)[i] in "\t\n\r" || ' ' <= Display(bytes)[i] <= '~'
    ensures bytes != [] && (forall i :: 0 <= i < |bytes| ==> bytes[i] in [9, 10, 13] || 32 <= bytes[i] <= 126)
            ==> Display(bytes) == Chars(bytes)
    ensures bytes == [] || (exists i :: 0 <= i < |bytes| && bytes[i] !in [9, 10, 13] && !(32 <= bytes[i] <= 126))
            ==> Display(bytes) == Hex.Encode(bytes)
  {
    Hex.LowerCase(bytes);
  }

  /** `char buf[512]` of OutputWriter::line: 511 characters and the NUL. */
  const LINE_ROOM := 511

  /** `line("%s\n", text)`: formatted into the buffer, cut where it ends. */
  function PrintedLine(text: string): string {
    var full := text + "\n";
    if |full| <= LINE_ROOM then full else full[..LINE_ROOM]
  }

  datatype InfoError = NotExactlyOne | OddLength | InvalidHex

  /** `infoData`: exactly one of `--data` and `--data-hex`. */
  method InfoData(scan: Hex.Scan, a: Args) returns (r: Result<seq<Byte>, InfoError>)
    ensures r == DataOf(scan, a)
  {
    var text, hex := a.Get("--data"), a.Get("--data-hex");
    if (text == "") == (hex == "") {
      return Err(NotExactlyOne);
    }
    if text != "" {
      return Ok(Bytes(text));
    }
    if |hex| % 2 != 0 {
      return Err(OddLength);
    }
    var out := new Byte[|hex| / 2];
    var ok := Hex.Read(scan, hex, out);
    if !ok {
      return Err(InvalidHex);
    }
    return Ok(out[..]);
  }

  function DataOf(scan: Hex.Scan, a: Args): Result<seq<Byte>, InfoError> {
    var text, hex := a.Get("--data"), a.Get("--data-hex");
    if (text == "") == (hex == "") then Err(NotExactlyOne)
    else if text != "" then Ok(Bytes(text))
    else if |hex| % 2 != 0 then Err(OddLength)
    else
      var bytes := Hex.ScanPairs(scan, hex, |hex| / 2);
      if bytes.None? then Err(InvalidHex) else Ok(bytes.value)
  }

  /** Exactly one of the two options must have a value; text is taken as it is, and hexadecimal in whole octets. */
  lemma ExactlyOne(scan: Hex.Scan, a: Args)
    ensures DataOf(scan, a) == Err(NotExactlyOne)
            <==> (a.Get("--data") != "" && a.Get("--data-hex") != "")
                 || (a.Get("--data") == "" && a.Get("--data-hex") == "")
    ensures a.Get("--data") != "" && a.Get("--data-hex") == "" ==> DataOf(scan, a) == Ok(Bytes(a.Get("--data")))
    ensures a.Get("--data") == "" && a.Get("--data-hex") != ""
            ==> && (DataOf(scan, a) == Err(OddLength) <==> |a.Get("--data-hex")| % 2 == 1)
                && (|a.Get("--data-hex")| % 2 == 0 && Hex.IsCanonical(a.Get("--data-hex"), |a.Get("--data-hex")| / 2)
                    ==> DataOf(scan, a) == Ok(Hex.Pairs(a.Get("--data-hex"), |a.Get("--data-hex")| / 2)))
  {
    var hex := a.Get("--data-hex");
    if |hex| % 2 == 0 && Hex.IsCanonical(hex, |hex| / 2) {
      Hex.ScanCanonical(scan, hex, |hex| / 2);
    }
  }

  /** The option that takes a record back in: text as text, anything else as hexadecimal. */
  function DataOption(bytes: seq<Byte>): string {
    if IsText(bytes) then "--data" else "--data-hex"
  }

  /** What remains of a printed line when its final newline is taken off. */
  function Chomped(line: string): string {
    if line != "" && line[|line| - 1] == '\n' then line[..|line| - 1] else line
  }

  lemma TextRoundTrip(bytes: seq<Byte>)
    ensures Bytes(Chars(bytes)) == bytes
  {
  }

  lemma HexReadBack(scan: Hex.Scan, bytes: seq<Byte>)
    ensures Hex.ScanPairs(scan, Hex.Encode(bytes), |bytes|) == Some(bytes)
  {
    Hex.ScanEncoded(scan, bytes, "");
    assert Hex.Encode(bytes) + "" == Hex.Encode(bytes);
  }

  /** The display of a record, given back under its option, is the record. */
  lemma DisplayReadBack(scan: Hex.Scan, bytes: seq<Byte>, a: Args)
    requires bytes != [] && a.Get(DataOption(bytes)) == Display(bytes)
    requires a.Get(if IsText(bytes) then "--data-hex" else "--data") == ""
    ensures DataOf(scan, a) == Ok(bytes)
  {
    assert |Display(bytes)| > 0;
    if IsText(bytes) {
      TextRoundTrip(bytes);
    } else {
      HexReadBack(scan, bytes);
      assert |Hex.Encode(bytes)| / 2 == |bytes|;
    }
  }

  /** A printed line carries its whole text, newline included, if and only if the text has at most 510 characters. */
  lemma LineIsWholeIff(text: string)
    ensures PrintedLine(text) == text + "\n" <==> |text| < LINE_ROOM
    ensures |text| < LINE_ROOM ==> Chomped(PrintedLine(text)) == text
  {
    assert |PrintedLine(text)| <= LINE_ROOM;
  }

  lemma TwoNamesAndAnOption(p: string, q: string, option: string, value: string)
    requires !IsOption(p) && !IsOption(q) && IsOption(option) && !IsBoolFlag(option)
    ensures Positionals(Units([p, q, option, value])) == [p, q]
    ensures Options(Units([p, q, option, value])) == map[option := value]
  {
    var valued := Valued(option, value);
    assert [option, value][2..] == [];
    assert Units([option, value]) == [valued] + Units([]);
    assert [q, option, value][1..] == [option, value];
    assert Units([q, option, value]) == [Positional(q)] + Units([option, value]);
    assert [p, q, option, value][1..] == [q, option, value];
    assert Units([p, q, option, value]) == [Positional(p)] + Units([q, option, value]);
    TwoPositionals(p, q);
    Snoc([Positional(p), Positional(q)], valued);
    assert Units([p, q, option, value]) == [Positional(p), Positional(q)] + [valued];
  }

  /** The parsed command line of `write-info` or `verify-info` with one data option. */
  lemma InfoArgs(app: string, command: string, option: string, display: string)
    requires !IsOption(command) && (option == "--data" || option == "--data-hex")
    ensures Meaning(Units(From([app, "se", command, option, display], 1))).opt == map[option := display]
  {
    IsOneOfIff(option, BOOL_FLAGS);
    TwoNamesAndAnOption("se", command, option, display);
    assert From([app, "se", command, option, display], 1) == ["se", command, option, display];
  }

  /** What `write-info` and `verify-info` make of the line that `read-info` printed for a record. */
  function ReadBack(scan: Hex.Scan, app: string, command: string, bytes: seq<Byte>): Result<seq<Byte>, InfoError> {
    var argv := [app, "se", command, DataOption(bytes), Chomped(PrintedLine(Display(bytes)))];
    DataOf(scan, Meaning(Units(From(argv, 1))))
  }

  /** A display too long for the line: hexadecimal is refused, text loses its end. */
  lemma CutRecord(scan: Hex.Scan, bytes: seq<Byte>, a: Args)
    requires bytes != [] && |Display(bytes)| >= LINE_ROOM
    requires a.opt == map[DataOption(bytes) := Chomped(Display(bytes)[..LINE_ROOM])]
    ensures !IsText(bytes) ==> DataOf(scan, a) == Err(OddLength)
    ensures IsText(bytes) ==> DataOf(scan, a) == Ok(Bytes(Chomped(Display(bytes)[..LINE_ROOM])))
  {
    var cut := Display(bytes)[..LINE_ROOM];
    if !IsText(bytes) {
      assert Hex.IsHexDigit(cut[LINE_ROOM - 1]);
      assert |Chomped(cut)| == LINE_ROOM;
    }
  }

  lemma CutTextIff(bytes: seq<Byte>)
    requires IsText(bytes) && |bytes| >= LINE_ROOM
    ensures Bytes(Chomped(Chars(bytes)[..LINE_ROOM])) == bytes <==> |bytes| == LINE_ROOM && bytes[LINE_ROOM - 1] != 0x0A
  {
    var cut := Chars(bytes)[..LINE_ROOM];
    assert cut[LINE_ROOM - 1] == bytes[LINE_ROOM - 1] as char;
    if |bytes| == LINE_ROOM {
      assert cut == Chars(bytes);
      TextRoundTrip(bytes);
    }
  }

  /** The same for the arguments that such a command line is parsed to. */
  lemma ArgumentReadBackIff(scan: Hex.Scan, bytes: seq<Byte>, a: Args)
    requires bytes != [] && a.opt == map[DataOption(bytes) := Chomped(PrintedLine(Display(bytes)))]
    ensures DataOf(scan, a) == Ok(bytes)
            <==> |Display(bytes)| < LINE_ROOM
                 || (IsText(bytes) && |bytes| == LINE_ROOM && bytes[LINE_ROOM - 1] != 0x0A)
    ensures !IsText(bytes) && |Display(bytes)| >= LINE_ROOM ==> DataOf(scan, a) == Err(OddLength)
  {
    LineIsWholeIff(Display(bytes));
    if |Display(bytes)| < LINE_ROOM {
      DisplayReadBack(scan, bytes, a);
    } else {
      assert PrintedLine(Display(bytes)) == Display(bytes)[..LINE_ROOM];
      CutRecord(scan, bytes, a);
      if IsText(bytes) {
        CutTextIff(bytes);
      }
    }
  }

  /**
    A record survives the way through the terminal if and only if its display has
    at most 510 characters, or is text of 511 that does not end in a newline. A
    longer hexadecimal display is refused, never taken for another record.
   */
  lemma PrintedRecordReadBackIff(scan: Hex.Scan, app: string, command: string, bytes: seq<Byte>)
    requires bytes != [] && !IsOption(command)
    ensures ReadBack(scan, app, command, bytes) == Ok(bytes)
            <==> |Display(bytes)| <= 510
                 || (IsText(bytes) && |bytes| == 511 && bytes[510] != 0x0A)
    ensures !IsText(bytes) && |Display(bytes)| > 510 ==> ReadBack(scan, app, command, bytes) == Err(OddLength)
  {
    var argument := Chomped(PrintedLine(Display(bytes)));
    var argv := [app, "se", command, DataOption(bytes), argument];
    InfoArgs(app, command, DataOption(bytes), argument);
    ArgumentReadBackIff(scan, bytes, Meaning(Units(From(argv, 1))));
  }
}
