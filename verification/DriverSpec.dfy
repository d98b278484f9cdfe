/** The driver-spec files of driver_spec.go, over a file system that maps paths to bytes. */
module DriverSpec {
  import opened Outcomes
  import opened Utf8
  import opened Text
  import opened JsonText
  import opened JsonPrefix
  import opened JsonGrammar
  import opened GoJson
  import opened GoJsonLaws
  import opened Messages
  import opened WireText

  /** What ReadDriverSpec returns. An address from a spec file is the bytes of a line, valid UTF-8 or not. */
  datatype DriverSpec = DriverSpec(name: string, address: Bytes, tls: Option<TLSConfig>, uniqueVolumeIds: bool)

  datatype ReadError = NoSuchFile | NoLine | BadJson | UnknownExtension(extension: string)

  // ---------- bufio.Reader.ReadLine ----------

  const BUFFER_SIZE := 4096
  const NEWLINE: byte := 10
  const RETURN: byte := 13

  predicate NoNewline(b: Bytes) {
    forall i :: 0 <= i < |b| ==> b[i] != 10
  }

  /** Where the first newline is, or the length if there is none. */
  function LineEnd(b: Bytes): (n: nat)
    ensures n <= |b| && NoNewline(b[..n]) && (n < |b| ==> b[n] == NEWLINE)
  {
    if b == [] || b[0] == NEWLINE then 0 else
      var n := 1 + LineEnd(b[1..]);
      assert b[..n] == [b[0]] + b[1..][..n - 1];
      n
  }

  function DropReturn(b: Bytes): Bytes {
    if b != [] && b[|b| - 1] == RETURN then b[..|b| - 1] else b
  }

  /** The first result of the first ReadLine on a file with the default buffer. A line that fills the buffer is
      cut there. Only before a newline or a cut is a carriage return dropped. None at the end of the file. */
  function FirstLine(b: Bytes): Option<Bytes> {
    var n := LineEnd(b);
    if n < |b| && n < BUFFER_SIZE then Some(DropReturn(b[..n]))
    else if |b| >= BUFFER_SIZE then Some(DropReturn(b[..BUFFER_SIZE]))
    else if b == [] then None
    else Some(b)
  }

  // ---------- The JSON form ----------

  datatype JsonSpec = JsonSpec(name: string, address: string, tls: Option<TLSConfig>, uniqueVolumeIds: bool)

  const JSON_SPEC := StructT([
    Field("Name", StringT), Field("Addr", StringT), Field("TLSConfig", PtrT(TLS_CONFIG)),
    Field("UniqueVolumeIds", BoolT)])

  function PackSpec(s: JsonSpec): (g: Go)
    ensures Fits(JSON_SPEC, g)
  {
    var tls := if s.tls.None? then GNil else GPtr(PackTLS(s.tls.value));
    GStruct([GString(s.name), GString(s.address), tls, GBool(s.uniqueVolumeIds)])
  }

  function UnpackSpec(g: Go): JsonSpec
    requires Fits(JSON_SPEC, g)
  {
    var vs := g.values;
    assert Fits(StringT, vs[0]) && Fits(StringT, vs[1]) && Fits(PtrT(TLS_CONFIG), vs[2]) && Fits(BoolT, vs[3]);
    JsonSpec(vs[0].s, vs[1].s, if vs[2].GNil? then None else Some(UnpackTLS(vs[2].to)), vs[3].b)
  }

  /** json.Decoder.Decode into a zero JsonSpec: the first value of the file; the rest is not read. */
  function DecodeSpec(canon: Canon, b: Bytes): Option<JsonSpec> {
    match ParseValue(Decode(b))
    case Fail => None
    case Got(j, _) =>
      match DecodeValue(canon, JSON_SPEC, Zero(JSON_SPEC), j)
      case None => None
      case Some(g) => Some(UnpackSpec(g))
  }

  // ---------- Reading ----------

  /** ReadDriverSpec as a function of the files: the extension is what follows the first dot. */
  function ReadSpec(canon: Canon, files: map<string, Bytes>, join: (string, string) -> string,
      specName: string, driverPath: string, specFile: string): Result<DriverSpec, ReadError>
  {
    var path := join(driverPath, specFile);
    if Free(specFile, '.') then Ok(DriverSpec("", [], None, false))
    else
      DotSplits(specFile);
      var extension := Split(specFile, '.')[1];
      if extension == "sock" then Ok(DriverSpec(specName, Encode(path), None, false))
      else if extension == "spec" then
        if path !in files then Err(NoSuchFile)
        else
          match FirstLine(files[path])
          case None => Err(NoLine)
          case Some(line) => Ok(DriverSpec(specName, line, None, false))
      else if extension == "json" then
        if path !in files then Err(NoSuchFile)
        else
          match DecodeSpec(canon, files[path])
          case None => Err(BadJson)
          case Some(s) => Ok(DriverSpec(specName, Encode(s.address), s.tls, s.uniqueVolumeIds))
      else Err(UnknownExtension(extension))
  }

  // ---------- The two operations ----------

  /** Where writing a spec file fails, if it does. A failed write leaves a prefix. */
  datatype WriteFault =
    | NoFault
    | MkdirFails(why: Message)
    | CreateFails(why: Message)
    | WriteFails(why: Message, written: nat)
    | SyncFails(why: Message)

  /** What a write leaves in the file, or none if it does not get as far as making it. */
  function Leaves(contents: Bytes, fault: WriteFault): Option<Bytes> {
    match fault
    case MkdirFails(_) => None
    case CreateFails(_) => None
    case WriteFails(_, n) => Some(if n < |contents| then contents[..n] else contents)
    case _ => Some(contents)
  }

  class FileSystem {
    const join: (string, string) -> string
    var files: map<string, Bytes>

    constructor (join: (string, string) -> string)
      ensures this.join == join && files == map[]
    {
      this.join := join;
      files := map[];
    }

    method WriteDriverSpec(pluginsDirectory: string, driver: string, extension: string, contents: Bytes,
        fault: WriteFault)
      returns (err: Option<Message>)
      modifies this`files
      ensures err == if fault.NoFault? then None else Some(fault.why)
      ensures var path := join(pluginsDirectory, driver + "." + extension);
              files == match Leaves(contents, fault)
                       case None => old(files)
                       case Some(b) => old(files)[path := b]
    {
      if fault.MkdirFails? {
        return Some(fault.why);
      }
      if fault.CreateFails? {
        return Some(fault.why);
      }
      var path := join(pluginsDirectory, driver + "." + extension);
      files := files[path := []];
      if fault.WriteFails? {
        files := files[path := if fault.written < |contents| then contents[..fault.written] else contents];
        return Some(fault.why);
      }
      files := files[path := files[path] + contents];
      assert [] + contents == contents;
      if fault.SyncFails? {
        return Some(fault.why);
      }
      return None;
    }

    method ReadDriverSpec(canon: Canon, specName: string, driverPath: string, specFile: string)
        returns (r: Result<DriverSpec, ReadError>)
      ensures r == ReadSpec(canon, files, join, specName, driverPath, specFile)
    {
      var driverSpec := DriverSpec("", [], None, false);
      if !Free(specFile, '.') {
        DotSplits(specFile);
        var path := join(driverPath, specFile);
        var extension := Split(specFile, '.')[1];
        match extension {
          case "sock" =>
            driverSpec := DriverSpec(specName, Encode(path), None, false);
          case "spec" =>
            if path !in files {
              return Err(NoSuchFile);
            }
            var line := FirstLine(files[path]);
            if line.None? {
              return Err(NoLine);
            }
            driverSpec := DriverSpec(specName, line.value, None, false);
          case "json" =>
            if path !in files {
              return Err(NoSuchFile);
            }
            var decoded := DecodeSpec(canon, files[path]);
            if decoded.None? {
              return Err(BadJson);
            }
            var read := decoded.value;
            driverSpec := DriverSpec(specName, Encode(read.address), read.tls, read.uniqueVolumeIds);
          case _ =>
            return Err(UnknownExtension(extension));
        }
      }
      return Ok(driverSpec);
    }
  }

  // ---------- Which extension is read ----------

  lemma {:induction false} CountNone(s: string, c: char)
    ensures Count(s, c) == 0 <==> Free(s, c)
  {
    if s != "" {
      CountNone(s[1..], c);
      assert Free(s, c) ==> s[0] != c && Free(s[1..], c);
      assert s[0] != c && Free(s[1..], c) ==>
          forall i :: 0 <= i < |s| ==> s[i] == if i == 0 then s[0] else s[1..][i - 1];
    }
  }

  lemma DotSplits(specFile: string)
    requires !Free(specFile, '.')
    ensures |Split(specFile, '.')| >= 2
  {
    SplitLaws(specFile, '.');
    CountNone(specFile, '.');
  }

  /** The extension that is read of a file written for a driver: the driver name's own, up to its second dot, if it
      has a dot. */
  function ReadExtension(driver: string, extension: string): string {
    if Free(driver, '.') then Split(extension, '.')[0]
    else
      DotSplits(driver);
      Split(driver, '.')[1]
  }

  lemma ExtensionRead(driver: string, extension: string)
    ensures var specFile := driver + "." + extension;
            && !Free(specFile, '.') && |Split(specFile, '.')| >= 2
            && Split(specFile, '.')[1] == ReadExtension(driver, extension)
  {
    var specFile := driver + "." + extension;
    assert specFile[|driver|] == '.';
    SplitAround(driver, extension, '.');
    if Free(driver, '.') {
      SplitFree(driver, '.');
    } else {
      DotSplits(driver);
    }
  }

  /** The reader sees the extension that was written exactly if the driver name has no dot, or has that very
      extension after its first dot. */
  lemma ExtensionSeen(driver: string, extension: string)
    requires Free(extension, '.')
    ensures var parts := Split(driver + "." + extension, '.');
            && |parts| >= 2
            && (parts[1] == extension <==>
                  Free(driver, '.') || (|Split(driver, '.')| >= 2 && Split(driver, '.')[1] == extension))
  {
    ExtensionRead(driver, extension);
    SplitFree(extension, '.');
    if !Free(driver, '.') {
      DotSplits(driver);
    }
  }

  /** Of the other extensions "sock" names the file itself as the address, whether it exists or not, and the rest
      are refused by name. */
  lemma OtherExtensions(canon: Canon, files: map<string, Bytes>, join: (string, string) -> string,
      dir: string, driver: string, extension: string, specName: string)
    requires ReadExtension(driver, extension) != "spec" && ReadExtension(driver, extension) != "json"
    ensures var specFile := driver + "." + extension;
            var seen := ReadExtension(driver, extension);
            ReadSpec(canon, files, join, specName, dir, specFile) ==
            if seen == "sock" then Ok(DriverSpec(specName, Encode(join(dir, specFile)), None, false))
            else Err(UnknownExtension(seen))
  {
    ExtensionRead(driver, extension);
  }

  /** A version in a driver's name: no contents of its spec file are ever read back. */
  lemma DottedNameRefused(canon: Canon, files: map<string, Bytes>, join: (string, string) -> string,
      dir: string, specName: string)
    ensures ReadSpec(canon, files, join, specName, dir, "nfs.v3" + "." + "spec") == Err(UnknownExtension("v3"))
  {
    assert "nfs.v3" == "nfs" + "." + "v3" && "nfs.v3"[3] == '.';
    SplitFront("nfs", "v3", '.');
    SplitFree("v3", '.');
    OtherExtensions(canon, files, join, dir, "nfs.v3", "spec", specName);
  }

  /** Without a dot in the file name there is no extension to go by, and the result is the zero specification. */
  lemma NoExtension(canon: Canon, files: map<string, Bytes>, join: (string, string) -> string,
      specName: string, dir: string, specFile: string)
    requires Free(specFile, '.')
    ensures ReadSpec(canon, files, join, specName, dir, specFile) == Ok(DriverSpec("", [], None, false))
  {
  }

  /** A file read as spec or json that is not there is an error, and so is one that has no line, or no JSON of the
      right shape. */
  lemma UnreadableSpec(canon: Canon, files: map<string, Bytes>, join: (string, string) -> string,
      dir: string, driver: string, extension: string, specName: string)
    requires ReadExtension(driver, extension) == "spec" || ReadExtension(driver, extension) == "json"
    ensures var specFile := driver + "." + extension;
            var path, r := join(dir, specFile), ReadSpec(canon, files, join, specName, dir, specFile);
            && (path !in files <==> r == Err(NoSuchFile))
            && (path in files && ReadExtension(driver, extension) == "spec" ==>
                  (files[path] == [] <==> r == Err(NoLine)) && (files[path] != [] <==> r.Ok?))
            && (path in files && ReadExtension(driver, extension) == "json" ==>
                  (DecodeSpec(canon, files[path]) == None <==> r == Err(BadJson)))
  {
    ExtensionRead(driver, extension);
  }

  // ---------- Round trips ----------

  /** The addresses that one line of a spec file can carry: no line feed, and at most 4096 bytes. A carriage return
      may not be the 4096th. */
  predicate FitsOneLine(b: Bytes) {
    b != [] && NoNewline(b) && (|b| < 4096 || (|b| == 4096 && b[|b| - 1] != 13))
  }

  lemma LineEndIs(b: Bytes, n: nat)
    requires n <= |b| && NoNewline(b[..n]) && (n < |b| ==> b[n] == NEWLINE)
    ensures LineEnd(b) == n
  {
    var m := LineEnd(b);
    assert forall i :: 0 <= i < n ==> b[i] == b[..n][i];
    assert forall i :: 0 <= i < m ==> b[i] == b[..m][i];
  }

  /** A file is read back as its whole contents exactly if they fit one line. */
  lemma WholeFileIsLine(b: Bytes)
    ensures FirstLine(b) == Some(b) <==> FitsOneLine(b)
  {
    assert b[..|b|] == b;
    if NoNewline(b) {
      LineEndIs(b, |b|);
    }
    if |b| == BUFFER_SIZE {
      assert b[..BUFFER_SIZE] == b;
    }
  }

  predicate EndsInReturn(line: Bytes) {
    line != [] && line[|line| - 1] == 13
  }

  /** Where FirstLine cuts a file: at the newline if the buffer has it, else at the end of the buffer. */
  lemma LineCut(b: Bytes, n: nat)
    requires n < |b| && NoNewline(b[..n]) && b[n] == NEWLINE
    ensures FirstLine(b) == Some(DropReturn(if n < BUFFER_SIZE then b[..n] else b[..BUFFER_SIZE]))
  {
    LineEndIs(b, n);
  }

  lemma FirstLineLF(line: Bytes, rest: Bytes)
    requires NoNewline(line)
    ensures FirstLine(line + [NEWLINE] + rest) == Some(line) <==> |line| <= BUFFER_SIZE && !EndsInReturn(line)
  {
    var b := line + [NEWLINE] + rest;
    assert b[..|line|] == line && b[|line|] == NEWLINE;
    LineCut(b, |line|);
  }

  lemma FirstLineCRLF(line: Bytes, rest: Bytes)
    requires NoNewline(line)
    ensures FirstLine(line + [RETURN, NEWLINE] + rest) == Some(line) <==>
            |line| < BUFFER_SIZE || (|line| == BUFFER_SIZE && !EndsInReturn(line))
  {
    var b := line + [RETURN, NEWLINE] + rest;
    var upTo := line + [RETURN];
    assert b == upTo + [NEWLINE] + rest;
    assert b[..|line|] == line && b[..|upTo|] == upTo && b[|upTo|] == NEWLINE;
    LineCut(b, |upTo|);
    DropsOneReturn(line);
  }

  /** Exactly when the first line of a longer file is read as it is, without its ending, LF or CR LF: if it fits the
      buffer, even if its ending does not, and any carriage return of its own is followed by another in the buffer. */
  lemma FirstLineIsLine(line: Bytes, ending: Bytes, rest: Bytes)
    requires ending == [10] || ending == [13, 10]
    requires NoNewline(line)
    ensures FirstLine(line + ending + rest) == Some(line) <==>
            |line| <= 4096 && (EndsInReturn(line) ==> ending == [13, 10] && |line| < 4096)
  {
    if |ending| == 1 {
      FirstLineLF(line, rest);
    } else {
      FirstLineCRLF(line, rest);
    }
  }

  /** A file without a line feed among its first 4096 bytes is read as those, less a carriage return at the cut; a
      shorter one without any is read as it is; an empty one not at all. */
  lemma UnendedLine(b: Bytes)
    requires NoNewline(if |b| < 4096 then b else b[..4096])
    ensures FirstLine(b) ==
            if b == [] then None
            else if |b| < 4096 then Some(b)
            else if b[4095] == 13 then Some(b[..4095])
            else Some(b[..4096])
  {
    if |b| >= 4096 {
      assert b[..4096][..4095] == b[..4095];
      EndIsPast(b, 4096);
    } else {
      assert b[..|b|] == b;
      EndIsPast(b, |b|);
    }
  }

  lemma EndIsPast(b: Bytes, n: nat)
    requires n <= |b| && NoNewline(b[..n])
    ensures LineEnd(b) >= n
  {
    assert forall i :: 0 <= i < n ==> b[i] == b[..n][i];
  }

  lemma DropsOneReturn(line: Bytes)
    ensures DropReturn(line + [RETURN]) == line
  {
  }

  /** Write with extension "spec", read back: the given name and the written bytes, for exactly the contents that
      fit one line. ExtensionSeen says for which driver names "spec" is what is read. */
  lemma SpecRoundTrip(canon: Canon, files: map<string, Bytes>, join: (string, string) -> string,
      dir: string, driver: string, specName: string, contents: Bytes)
    requires ReadExtension(driver, "spec") == "spec"
    ensures var written := files[join(dir, driver + "." + "spec") := contents];
            (ReadSpec(canon, written, join, specName, dir, driver + "." + "spec") ==
             Ok(DriverSpec(specName, contents, None, false))) <==> FitsOneLine(contents)
  {
    ExtensionRead(driver, "spec");
    WholeFileIsLine(contents);
  }

  lemma ReadsJson(canon: Canon, files: map<string, Bytes>, join: (string, string) -> string,
      dir: string, driver: string, specName: string, b: Bytes)
    requires ReadExtension(driver, "json") == "json" && DecodeSpec(canon, b).Some?
    ensures var written := files[join(dir, driver + "." + "json") := b];
            var s := DecodeSpec(canon, b).value;
            ReadSpec(canon, written, join, specName, dir, driver + "." + "json") ==
            Ok(DriverSpec(specName, Encode(s.address), s.tls, s.uniqueVolumeIds))
  {
    ExtensionRead(driver, "json");
  }

  /** Write the JSON of a spec, and anything after it, with extension "json", and read it back: all but the name. */
  lemma JsonRoundTrip(canon: Canon, files: map<string, Bytes>, join: (string, string) -> string,
      dir: string, driver: string, specName: string, spec: JsonSpec, tail: Bytes)
    requires ReadExtension(driver, "json") == "json"
    ensures var written := files[join(dir, driver + "." + "json") := Marshal(JSON_SPEC, PackSpec(spec)) + tail];
            ReadSpec(canon, written, join, specName, dir, driver + "." + "json") ==
            Ok(DriverSpec(specName, Encode(spec.address), spec.tls, spec.uniqueVolumeIds))
  {
    SpecDecodes(canon, spec, tail);
    ReadsJson(canon, files, join, dir, driver, specName, Marshal(JSON_SPEC, PackSpec(spec)) + tail);
  }

  lemma SpecPacks(canon: Canon, spec: JsonSpec)
    ensures Carried(canon, PackSpec(spec)) && UnpackSpec(PackSpec(spec)) == spec
  {
    if spec.tls.Some? {
      assert Carried(canon, PackTLS(spec.tls.value));
      assert UnpackTLS(PackTLS(spec.tls.value)) == spec.tls.value;
    }
  }

  lemma GoodSpec()
    ensures GoodType(JSON_SPEC)
  {
    GoodTLS();
    TwoFields(Field("Name", StringT), Field("Addr", StringT), 0);
    assert FoldChar("Name"[0]) != FoldChar("Addr"[0]);
  }

  lemma SpecDecodes(canon: Canon, spec: JsonSpec, tail: Bytes)
    ensures DecodeSpec(canon, Marshal(JSON_SPEC, PackSpec(spec)) + tail) == Some(spec)
  {
    var j := EncodeValue(JSON_SPEC, PackSpec(spec));
    SpecPacks(canon, spec);
    GoodSpec();
    EncodeIsPrintable(canon, JSON_SPEC, PackSpec(spec));
    DecodeFront(Print(j), tail);
    PrintBefore(j, Decode(tail));
    ObjectBack(j.members, Decode(tail));
    DecodeEncode(canon, JSON_SPEC, PackSpec(spec));
  }

  /** A spec file may be laid out in any way the grammar allows, with anything after it: what is read is the decoding
      of the value it stands for. */
  lemma AnyLayoutReads(canon: Canon, b: Bytes, gap: string, l: Laid, rest: string)
    requires Decode(b) == gap + LaidOn(l, rest) && Blank(gap) && GoodLaid(l) && (l.LaidNumber? ==> Ends(rest))
    ensures DecodeSpec(canon, b) ==
            match DecodeValue(canon, JSON_SPEC, Zero(JSON_SPEC), LaidValue(l))
            case None => None
            case Some(g) => Some(UnpackSpec(g))
  {
    GapReads(gap, l, rest);
  }

  /** The text of a spec file with extension json. */
  function SpecText(spec: JsonSpec): string {
    Braces([Pair("Name", Quote(spec.name, "")), Pair("Addr", Quote(spec.address, "")),
            Pair("TLSConfig", OptionalTLSJson(spec.tls)),
            Pair("UniqueVolumeIds", BoolText(spec.uniqueVolumeIds))])
  }

  lemma SpecFieldsArePlain()
    ensures PlainFields(JSON_SPEC.fields)
  {
  }

  function OptionalTLSJson(tls: Option<TLSConfig>): string {
    if tls.None? then "null" else TLSJson(tls.value)
  }

  lemma OptionalTLSOnDisk(tls: Option<TLSConfig>, g: Go)
    requires g == if tls.None? then GNil else GPtr(PackTLS(tls.value))
    ensures Fits(PtrT(TLS_CONFIG), g) && Print(EncodeValue(PtrT(TLS_CONFIG), g)) == OptionalTLSJson(tls)
  {
    WordTexts();
    if tls.Some? {
      TLSOnWire(tls.value);
    }
  }

  lemma SpecOnDisk(spec: JsonSpec)
    ensures Marshal(JSON_SPEC, PackSpec(spec)) == Encode(SpecText(spec))
  {
    var vs := PackSpec(spec).values;
    SpecFieldsArePlain();
    StringValue(spec.name);
    StringValue(spec.address);
    OptionalTLSOnDisk(spec.tls, vs[2]);
    BoolValue(spec.uniqueVolumeIds);
    FourFieldsText(JSON_SPEC.fields, vs,
      Quote(spec.name, ""), Quote(spec.address, ""), OptionalTLSJson(spec.tls), BoolText(spec.uniqueVolumeIds));
  }

  // ---------- Torn writes ----------

  lemma CutSpecFails(canon: Canon, spec: JsonSpec, n: nat)
    requires n < |Marshal(JSON_SPEC, PackSpec(spec))|
    ensures DecodeSpec(canon, Marshal(JSON_SPEC, PackSpec(spec))[..n]) == None
  {
    var j := EncodeValue(JSON_SPEC, PackSpec(spec));
    SpecPacks(canon, spec);
    EncodeIsPrintable(canon, JSON_SPEC, PackSpec(spec));
    CutObjectFails(j.members, n);
  }

  /** A write of an encoded spec that failed part way is never mistaken for a spec, wherever it stopped. */
  lemma TornJson(canon: Canon, files: map<string, Bytes>, join: (string, string) -> string,
      dir: string, driver: string, specName: string, spec: JsonSpec, n: nat)
    requires ReadExtension(driver, "json") == "json" && n < |Marshal(JSON_SPEC, PackSpec(spec))|
    ensures var written := files[join(dir, driver + "." + "json") := Marshal(JSON_SPEC, PackSpec(spec))[..n]];
            ReadSpec(canon, written, join, specName, dir, driver + "." + "json") == Err(BadJson)
  {
    ExtensionRead(driver, "json");
    CutSpecFails(canon, spec, n);
  }

  /** A spec file has no such protection: of an address that fits one line every part is read as a whole address, but
      for the empty one. */
  lemma TornSpec(canon: Canon, files: map<string, Bytes>, join: (string, string) -> string,
      dir: string, driver: string, specName: string, contents: Bytes, n: nat)
    requires ReadExtension(driver, "spec") == "spec" && FitsOneLine(contents) && n < |contents|
    ensures var written := files[join(dir, driver + "." + "spec") := contents[..n]];
            ReadSpec(canon, written, join, specName, dir, driver + "." + "spec") ==
            if n == 0 then Err(NoLine) else Ok(DriverSpec(specName, contents[..n], None, false))
  {
    ExtensionRead(driver, "spec");
    WholeFileIsLine(contents[..n]);
    assert n > 0 ==> FitsOneLine(contents[..n]);
  }

  // ---------- On the file system ----------

  /** A read after a write, whole or torn: what was left in the file, exactly if that fits one line. */
  method WriteThenReadSpec(fs: FileSystem, canon: Canon, dir: string, driver: string, specName: string,
      contents: Bytes, fault: WriteFault)
    returns (err: Option<Message>, r: Result<DriverSpec, ReadError>)
    requires ReadExtension(driver, "spec") == "spec"
    modifies fs`files
    ensures err.None? <==> fault.NoFault?
    ensures match Leaves(contents, fault)
            case None => fs.files == old(fs.files)
            case Some(b) => r == Ok(DriverSpec(specName, b, None, false)) <==> FitsOneLine(b)
  {
    var left := Leaves(contents, fault);
    if left.Some? {
      SpecRoundTrip(canon, fs.files, fs.join, dir, driver, specName, left.value);
    }
    err := fs.WriteDriverSpec(dir, driver, "spec", contents, fault);
    r := fs.ReadDriverSpec(canon, specName, dir, driver + "." + "spec");
  }

  /** A read after a write: the spec if it was written whole, and otherwise an error. */
  method WriteThenReadJson(fs: FileSystem, canon: Canon, dir: string, driver: string, specName: string,
      spec: JsonSpec, fault: WriteFault)
    returns (err: Option<Message>, r: Result<DriverSpec, ReadError>)
    requires ReadExtension(driver, "json") == "json"
    modifies fs`files
    ensures err.None? <==> fault.NoFault?
    ensures match Leaves(Marshal(JSON_SPEC, PackSpec(spec)), fault)
            case None => fs.files == old(fs.files)
            case Some(b) =>
              if b == Marshal(JSON_SPEC, PackSpec(spec))
              then r == Ok(DriverSpec(specName, Encode(spec.address), spec.tls, spec.uniqueVolumeIds))
              else r == Err(BadJson)
  {
    var contents := Marshal(JSON_SPEC, PackSpec(spec));
    assert contents + [] == contents;
    JsonRoundTrip(canon, fs.files, fs.join, dir, driver, specName, spec, []);
    if fault.WriteFails? && fault.written < |contents| {
      TornJson(canon, fs.files, fs.join, dir, driver, specName, spec, fault.written);
    }
    err := fs.WriteDriverSpec(dir, driver, "json", contents, fault);
    r := fs.ReadDriverSpec(canon, specName, dir, driver + "." + "json");
  }
}
