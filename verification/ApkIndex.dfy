/**
 The package index: the text GenerateIndex writes (internal/repo/index.go) and the
 parser that reads it (internal/apkindex/parse.go), which live in different packages
 and are shown to undo each other. Text is ASCII.
 */
module ApkIndex {
  import opened Bytes
  import opened Decimals
  import B = Base64

  // ---------------------------------------------------------------------
  // Text helpers of the Go library
  // ---------------------------------------------------------------------

  /** Where c first occurs in s, or |s|. */
  function IndexOf(s: string, c: char): (i: nat)
    ensures i <= |s| && (i < |s| ==> s[i] == c) && c !in s[..i]
  {
    if s == "" || s[0] == c then 0
    else
      var i := IndexOf(s[1..], c);
      assert s[..i + 1] == [s[0]] + s[1..][..i];
      i + 1
  }

  /** The lines of a text, line ends removed; a last line without one counts if it is not empty. */
  function RawLines(s: string): seq<string>
    decreases |s|
  {
    if s == "" then []
    else
      var i := IndexOf(s, '\n');
      if i == |s| then [s] else [s[..i]] + RawLines(s[i + 1..])
  }

  lemma {:induction false} IndexOfFirst(pre: string, c: char, rest: string)
    requires c !in pre
    ensures IndexOf(pre + [c] + rest, c) == |pre|
  {
    if pre == "" {
    } else {
      assert (pre + [c] + rest)[1..] == pre[1..] + [c] + rest;
      IndexOfFirst(pre[1..], c, rest);
    }
  }

  lemma RawLinesCons(line: string, rest: string)
    requires '\n' !in line
    ensures RawLines(line + "\n" + rest) == [line] + RawLines(rest)
  {
    var s := line + "\n" + rest;
    IndexOfFirst(line, '\n', rest);
    assert s[..|line|] == line && s[|line| + 1..] == rest;
  }

  /** bufio.ScanLines also drops one carriage return before the line end. */
  function DropCR(s: string): string {
    if s != "" && s[|s| - 1] == '\r' then s[..|s| - 1] else s
  }

  /** A value that fits on a line and comes back from it. */
  predicate SingleLine(s: string) {
    '\n' !in s && (s != "" ==> s[|s| - 1] != '\r')
  }

  /** A line reads back as written exactly when it holds no line break and does not end in a carriage return. */
  lemma LineSurvivesIff(s: string)
    ensures (|RawLines(s + "\n")| == 1 && DropCR(RawLines(s + "\n")[0]) == s) <==> SingleLine(s)
  {
    if '\n' !in s {
      RawLinesCons(s, "");
      assert s + "\n" + "" == s + "\n";
    } else {
      BrokenLine(s);
    }
  }

  /** A final carriage return is lost. */
  lemma CarriageReturnLost()
    ensures RawLines("a\r\n") == ["a\r"] && DropCR("a\r") == "a"
  {
    RawLinesCons("a\r", "");
    assert "a\r" + "\n" + "" == "a\r\n";
  }

  lemma BrokenLine(s: string)
    requires '\n' in s
    ensures |RawLines(s + "\n")| > 1
  {
    var i := IndexOf(s, '\n');
    var rest := s[i + 1..] + "\n";
    assert s + "\n" == s[..i] + "\n" + rest;
    RawLinesCons(s[..i], rest);
    assert rest != "";
  }

  predicate IsSpace(c: char) {
    c == ' ' || '\t' <= c <= '\r'
  }

  function FlushWord(w: string): seq<string> {
    if w == "" then [] else [w]
  }

  /** strings.Fields: maximal runs without white space. */
  function Fields(s: string, word: string): seq<string>
    decreases |s|
  {
    if s == "" then FlushWord(word)
    else if IsSpace(s[0]) then FlushWord(word) + Fields(s[1..], "")
    else Fields(s[1..], word + [s[0]])
  }

  /** strings.Join with a blank. */
  function Join(ts: seq<string>): string {
    if ts == [] then "" else if |ts| == 1 then ts[0] else ts[0] + " " + Join(ts[1..])
  }

  predicate Token(t: string) {
    t != "" && forall i :: 0 <= i < |t| ==> !IsSpace(t[i])
  }

  predicate Tokens(ts: seq<string>) {
    forall i :: 0 <= i < |ts| ==> Token(ts[i])
  }

  lemma {:induction false} FieldsOfWord(t: string, rest: string, word: string)
    requires forall i :: 0 <= i < |t| ==> !IsSpace(t[i])
    ensures Fields(t + rest, word) == Fields(rest, word + t)
    decreases |t|
  {
    if t == "" {
      assert t + rest == rest && word + t == word;
    } else {
      assert (t + rest)[1..] == t[1..] + rest;
      FieldsOfWord(t[1..], rest, word + [t[0]]);
      assert word + [t[0]] + t[1..] == word + t;
    }
  }

  lemma WordThenBlank(t: string, rest: string)
    requires Token(t)
    ensures Fields(" " + rest, "" + t) == [t] + Fields(rest, "")
  {
    assert (" " + rest)[1..] == rest && "" + t == t;
  }

  /** Splitting a joined list gives the list back. */
  lemma {:induction false} FieldsOfJoin(ts: seq<string>)
    requires Tokens(ts)
    ensures Fields(Join(ts), "") == ts
  {
    if |ts| == 1 {
      assert ts[0] + "" == ts[0] && "" + ts[0] == ts[0];
      FieldsOfWord(ts[0], "", "");
    } else if ts != [] {
      var rest := " " + Join(ts[1..]);
      assert Join(ts) == ts[0] + rest;
      FieldsOfWord(ts[0], rest, "");
      WordThenBlank(ts[0], Join(ts[1..]));
      FieldsOfJoin(ts[1..]);
    }
  }

  datatype Parsed<T> = Ok(value: T) | Err(fault: Fault)

  datatype Fault = NoName | BadChecksum | BadNumber | LineTooLong

  /** strconv.ParseInt(s, 10, 64). */
  function ParseInt(s: string): Parsed<int> {
    var neg := s != "" && s[0] == '-';
    var ds := if s != "" && (s[0] == '-' || s[0] == '+') then s[1..] else s;
    if !AllDigits(ds) then Err(BadNumber)
    else
      var n: int := Value(ds);
      if neg then (if n > 0x8000_0000_0000_0000 then Err(BadNumber) else Ok(-n))
      else if n >= 0x8000_0000_0000_0000 then Err(BadNumber) else Ok(n)
  }

  predicate Int64(n: int) {
    -0x8000_0000_0000_0000 <= n < 0x8000_0000_0000_0000
  }

  /** A number printed in decimal is read back exactly when it fits 64 bits, and refused otherwise. */
  lemma ParseShown(n: int)
    ensures ParseInt(ShowInt(n)) ==
            if -0x8000_0000_0000_0000 <= n < 0x8000_0000_0000_0000 then Ok(n) else Err(BadNumber)
    ensures SingleLine(ShowInt(n))
  {
    var s := ShowInt(n);
    if n < 0 {
      ShowValue(-n);
      assert s[1..] == Show(-n);
      assert s == "-" + Show(-n);
    } else {
      ShowValue(n);
    }
  }

  /** A plus sign and zeros in front make no difference; a text with anything but digits behind the sign is refused. */
  lemma ParseSpellings(ds: string)
    requires AllDigits(ds)
    ensures ParseInt("+" + ds) == ParseInt(ds) == ParseInt("0" + ds)
  {
    assert ("+" + ds)[1..] == ds && ("0" + ds)[1..] == ds && AllDigits("0" + ds);
    assert Value("0" + ds) == 0 * Pow10(|ds|) + Value(ds);
  }

  /** The white space of ASCII. */
  predicate Blank(c: char) {
    c == ' ' || c == '\t' || c == '\n' || c == 11 as char || c == 12 as char || c == '\r'
  }

  lemma {:induction false} FieldsCut(a: string, c: char, b: string, word: string)
    requires Blank(c)
    ensures Fields(a + [c] + b, word) == Fields(a, word) + Fields(b, "")
    decreases |a|
  {
    var t := a + [c] + b;
    if a == "" {
      assert t[1..] == b;
    } else {
      assert t[1..] == a[1..] + [c] + b;
      if IsSpace(a[0]) {
        FieldsCut(a[1..], c, b, "");
        assert FlushWord(word) + (Fields(a[1..], "") + Fields(b, "")) ==
               FlushWord(word) + Fields(a[1..], "") + Fields(b, "");
      } else {
        FieldsCut(a[1..], c, b, word + [a[0]]);
      }
    }
  }

  /** White space separates tokens wherever it stands, and nothing else does. */
  lemma SplitsAtBlanks(a: string, c: char, b: string)
    requires Blank(c)
    ensures Fields(a + [c] + b, "") == Fields(a, "") + Fields(b, "")
    ensures Fields("", "") == []
    ensures a != "" && (forall i :: 0 <= i < |a| ==> !Blank(a[i])) ==> Fields(a, "") == [a]
  {
    FieldsCut(a, c, b, "");
    if forall i :: 0 <= i < |a| ==> !Blank(a[i]) {
      FieldsOfWord(a, "", "");
      assert a + "" == a == "" + a;
    }
  }

  // ---------------------------------------------------------------------
  // Entries
  // ---------------------------------------------------------------------

  datatype Entry = Entry(
    name: string, version: string, description: string, url: string, license: string, arch: string,
    size: int, installedSize: int, origin: string, maintainer: string, buildTime: int, commit: string,
    checksum: Data, checksumText: string,
    deps: seq<string>, offers: seq<string>, replaced: seq<string>, installIf: seq<string>)

  const BLANK := Entry("", "", "", "", "", "", 0, 0, "", "", 0, "", [], "", [], [], [], [])

  /** setField: an unknown key is passed over. */
  function SetField(e: Entry, key: char, val: string): Parsed<Entry> {
    match key
    case 'P' => Ok(e.(name := val))
    case 'V' => Ok(e.(version := val))
    case 'T' => Ok(e.(description := val))
    case 'U' => Ok(e.(url := val))
    case 'L' => Ok(e.(license := val))
    case 'A' => Ok(e.(arch := val))
    case 'S' => (var n := ParseInt(val); if n.Err? then Err(n.fault) else Ok(e.(size := n.value)))
    case 'I' => (var n := ParseInt(val); if n.Err? then Err(n.fault) else Ok(e.(installedSize := n.value)))
    case 'o' => Ok(e.(origin := val))
    case 'm' => Ok(e.(maintainer := val))
    case 't' => (var n := ParseInt(val); if n.Err? then Err(n.fault) else Ok(e.(buildTime := n.value)))
    case 'c' => Ok(e.(commit := val))
    case 'C' => Ok(e.(checksumText := val))
    case 'D' => Ok(e.(deps := Fields(val, "")))
    case 'p' => Ok(e.(offers := Fields(val, "")))
    case 'r' => Ok(e.(replaced := Fields(val, "")))
    case 'i' => Ok(e.(installIf := Fields(val, "")))
    case _ => Ok(e)
  }

  const SHA1_SIZE := 20

  function DecodeChecksum(s: string): Parsed<Data> {
    if !("Q1" <= s) then Err(BadChecksum)
    else
      match B.Decode(s[2..])
      case Malformed => Err(BadChecksum)
      case Bytes(raw) => if |raw| != SHA1_SIZE then Err(BadChecksum) else Ok(raw)
  }

  lemma DecodeEncoded(digest: Data)
    requires |digest| == SHA1_SIZE
    ensures DecodeChecksum("Q1" + B.Encode(digest)) == Ok(digest)
  {
    var s := "Q1" + B.Encode(digest);
    assert s[2..] == B.Encode(digest) && s[..2] == "Q1";
    B.RoundTrip(digest);
  }

  /** The checksum is read by the standard's alphabet: a plus sign first gives a first byte of 0xf8. */
  lemma PlusSignDecodes()
    ensures DecodeChecksum("Q1+AAAAAAAAAAAAAAAAAAAAAAAAAA=").Ok?
    ensures DecodeChecksum("Q1+AAAAAAAAAAAAAAAAAAAAAAAAAA=").value[0] == 0xf8
  {
    var s := "Q1+AAAAAAAAAAAAAAAAAAAAAAAAAA=";
    assert |s| == 30 && s[..2] == "Q1" && s[2] == '+' && s[29] == '=' && forall k :: 3 <= k < 29 ==> s[k] == 'A';
    B.PlusSignDecodes(s[2..]);
  }

  /** A checksum is Q1 and the base64 of 20 bytes, which ends in one padding character. */
  lemma ChecksumIff(s: string)
    requires B.NoBreaks(s)
    ensures DecodeChecksum(s).Ok? <==>
            "Q1" <= s && |s| == 30 && B.Grouped(s[2..], B.TABLE) && B.Padding(s[2..]) == 1
  {
    if "Q1" <= s {
      B.DecodesIff(s[2..]);
      B.DecodesToTwenty(s[2..]);
    }
  }

  // ---------------------------------------------------------------------
  // Parsing
  // ---------------------------------------------------------------------

  /** The entry being read, whether it has a field yet, and the finished ones. */
  datatype State = State(cur: Entry, has: bool, done: seq<Entry>)

  function Flush(s: State): Parsed<State> {
    if !s.has then Ok(s)
    else if s.cur.name == "" then Err(NoName)
    else if s.cur.checksumText == "" then Ok(State(BLANK, false, s.done + [s.cur]))
    else
      var raw := DecodeChecksum(s.cur.checksumText);
      if raw.Err? then Err(raw.fault) else Ok(State(BLANK, false, s.done + [s.cur.(checksum := raw.value)]))
  }

  /** The scanner's buffer limit. */
  const MAX_LINE := 0x10_0000

  function TakeLine(s: State, raw: string): Parsed<State> {
    if |raw| >= MAX_LINE then Err(LineTooLong)
    else
      var line := DropCR(raw);
      if line == "" then Flush(s)
      else if |line| < 2 || line[1] != ':' then Ok(s)
      else
        var e := SetField(s.cur, line[0], line[2..]);
        if e.Err? then Err(e.fault) else Ok(State(e.value, true, s.done))
  }

  function TakeLines(s: State, raws: seq<string>): Parsed<State>
    decreases |raws|
  {
    if raws == [] then Ok(s)
    else
      var t := TakeLine(s, raws[0]);
      if t.Err? then t else TakeLines(t.value, raws[1..])
  }

  function Finish(s: Parsed<State>): Parsed<seq<Entry>> {
    if s.Err? then Err(s.fault)
    else
      var t := Flush(s.value);
      if t.Err? then Err(t.fault) else Ok(t.value.done)
  }

  function Parse(text: string): Parsed<seq<Entry>> {
    Finish(TakeLines(State(BLANK, false, []), RawLines(text)))
  }

  method ParseIndex(text: string) returns (r: Parsed<seq<Entry>>)
    ensures r == Parse(text)
  {
    var raws := RawLines(text);
    var cur, curHas := BLANK, false;
    var entries: seq<Entry> := [];
    assert raws[0..] == raws;
    for i := 0 to |raws|
      invariant TakeLines(State(cur, curHas, entries), raws[i..]) == TakeLines(State(BLANK, false, []), raws)
    {
      assert raws[i..][1..] == raws[i + 1..];
      var t := TakeLine(State(cur, curHas, entries), raws[i]);
      if t.Err? {
        return Err(t.fault);
      }
      cur, curHas, entries := t.value.cur, t.value.has, t.value.done;
    }
    assert raws[|raws|..] == [];
    var t := Flush(State(cur, curHas, entries));
    r := if t.Err? then Err(t.fault) else Ok(t.value.done);
  }

  lemma {:induction false} TakeJoin(s: State, a: seq<string>, b: seq<string>)
    ensures TakeLines(s, a + b) == if TakeLines(s, a).Err? then TakeLines(s, a) else TakeLines(TakeLines(s, a).value, b)
    decreases |a|
  {
    if a == [] {
      assert a + b == b;
    } else {
      assert (a + b)[1..] == a[1..] + b;
      var t := TakeLine(s, a[0]);
      if t.Ok? { TakeJoin(t.value, a[1..], b); }
    }
  }

  // ---------------------------------------------------------------------
  // Emitting
  // ---------------------------------------------------------------------

  /** What the emitter knows of one package. */
  datatype Package = Package(
    digest: Data, name: string, version: string, arch: string, size: nat, installedSize: int, description: string,
    url: string, license: string, origin: string, buildDate: string, commit: string,
    depends: seq<string>, offers: seq<string>, replaced: seq<string>)

  datatype Field = Field(key: char, val: string)

  function Optional(key: char, val: string): seq<Field> {
    if val == "" then [] else [Field(key, val)]
  }

  function Required(p: Package): seq<Field> {
    [Field('C', "Q1" + B.Encode(p.digest)), Field('P', p.name), Field('V', p.version), Field('A', p.arch),
     Field('S', Show(p.size)), Field('I', ShowInt(p.installedSize)), Field('T', p.description)]
  }

  function FieldsOf(p: Package): seq<Field> {
    Required(p)
    + Optional('U', p.url) + Optional('L', p.license) + Optional('o', p.origin) + Optional('t', p.buildDate)
      + Optional('c', p.commit)
    + Optional('D', Join(p.depends)) + Optional('p', Join(p.offers)) + Optional('r', Join(p.replaced))
  }

  function Line(f: Field): string {
    [f.key] + ":" + f.val
  }

  function Block(fs: seq<Field>): string {
    if fs == [] then "" else Line(fs[0]) + "\n" + Block(fs[1..])
  }

  lemma {:induction false} BlockJoin(a: seq<Field>, b: seq<Field>)
    ensures Block(a + b) == Block(a) + Block(b)
  {
    if a == [] {
      assert a + b == b;
    } else {
      assert (a + b)[1..] == a[1..] + b;
      BlockJoin(a[1..], b);
    }
  }

  /** Blocks with a blank line between them. */
  function Separated(bs: seq<string>): string {
    if bs == [] then "" else bs[0] + (if |bs| == 1 then "" else "\n" + Separated(bs[1..]))
  }

  function Blocks(ps: seq<Package>): seq<string> {
    seq(|ps|, i requires 0 <= i < |ps| => Block(FieldsOf(ps[i])))
  }

  function IndexText(ps: seq<Package>): string {
    Separated(Blocks(ps))
  }

  /** The first n blocks, each with the separator that follows it. */
  function Emitted(bs: seq<string>, n: nat): string
    requires n <= |bs|
  {
    if n == 0 then "" else Emitted(bs, n - 1) + bs[n - 1] + (if n < |bs| then "\n" else "")
  }

  lemma {:induction false} EmittedIsSeparated(bs: seq<string>, n: nat)
    requires n <= |bs|
    ensures Emitted(bs, n) + Separated(bs[n..]) == Separated(bs)
    decreases n
  {
    if n == 0 {
      assert bs[0..] == bs;
    } else {
      EmittedIsSeparated(bs, n - 1);
      var rest := bs[n - 1..];
      assert rest[0] == bs[n - 1] && rest[1..] == bs[n..];
    }
  }

  method EmitLine(buf0: string, key: char, val: string, ghost start: string, ghost sofar: seq<Field>)
    returns (buf: string, ghost more: seq<Field>)
    requires buf0 == start + Block(sofar)
    ensures more == sofar + [Field(key, val)] && buf == start + Block(more)
  {
    buf := buf0 + [key] + ":" + val + "\n";
    more := sofar + [Field(key, val)];
    BlockJoin(sofar, [Field(key, val)]);
    assert [Field(key, val)][1..] == [];
    assert Block([Field(key, val)]) == [key] + ":" + val + "\n" + Block([]);
  }

  method EmitOptional(buf0: string, key: char, val: string, ghost start: string, ghost sofar: seq<Field>)
    returns (buf: string, ghost more: seq<Field>)
    requires buf0 == start + Block(sofar)
    ensures more == sofar + Optional(key, val) && buf == start + Block(more)
  {
    if val != "" {
      buf, more := EmitLine(buf0, key, val, start, sofar);
    } else {
      buf, more := buf0, sofar;
      assert sofar + [] == sofar;
    }
  }

  method EmitRequired(buf0: string, p: Package) returns (buf: string, ghost more: seq<Field>)
    ensures more == Required(p) && buf == buf0 + Block(more)
  {
    buf, more := EmitLine(buf0, 'C', "Q1" + B.Encode(p.digest), buf0, []);
    buf, more := EmitLine(buf, 'P', p.name, buf0, more);
    buf, more := EmitLine(buf, 'V', p.version, buf0, more);
    buf, more := EmitLine(buf, 'A', p.arch, buf0, more);
    buf, more := EmitLine(buf, 'S', Show(p.size), buf0, more);
    buf, more := EmitLine(buf, 'I', ShowInt(p.installedSize), buf0, more);
    buf, more := EmitLine(buf, 'T', p.description, buf0, more);
  }

  method EmitBlock(buf0: string, p: Package, ghost block: string) returns (buf: string)
    requires block == Block(FieldsOf(p))
    ensures buf == buf0 + block
  {
    ghost var more;
    buf, more := EmitRequired(buf0, p);
    buf, more := EmitOptional(buf, 'U', p.url, buf0, more);
    buf, more := EmitOptional(buf, 'L', p.license, buf0, more);
    buf, more := EmitOptional(buf, 'o', p.origin, buf0, more);
    buf, more := EmitOptional(buf, 't', p.buildDate, buf0, more);
    buf, more := EmitOptional(buf, 'c', p.commit, buf0, more);
    buf, more := EmitOptional(buf, 'D', Join(p.depends), buf0, more);
    buf, more := EmitOptional(buf, 'p', Join(p.offers), buf0, more);
    buf, more := EmitOptional(buf, 'r', Join(p.replaced), buf0, more);
  }

  /** Tokens are joined by single blanks. */
  lemma JoinedByBlanks(t: string, ts: seq<string>)
    ensures Join([t]) == t && (ts != [] ==> Join([t] + ts) == t + " " + Join(ts))
  {
    assert ([t] + ts)[1..] == ts;
  }

  /** A line of the index. */
  function Put(prefix: string, val: string): string {
    prefix + val + "\n"
  }

  /** One that is left out when empty. */
  function PutOptional(prefix: string, val: string): string {
    if val == "" then "" else Put(prefix, val)
  }

  lemma BlockOne(key: char, val: string, prefix: string)
    requires prefix == [key] + ":"
    ensures Block([Field(key, val)]) == Put(prefix, val) && Block(Optional(key, val)) == PutOptional(prefix, val)
  {
    var fs := [Field(key, val)];
    assert fs[1..] == [] && Block([]) == "";
    assert Line(fs[0]) + "\n" + "" == Put(prefix, val);
  }

  lemma RequiredText(p: Package)
    ensures Block(Required(p)) ==
            Put("C:", "Q1" + B.Encode(p.digest)) + (Put("P:", p.name) + (Put("V:", p.version) + (Put("A:", p.arch)
            + (Put("S:", Show(p.size)) + (Put("I:", ShowInt(p.installedSize)) + Put("T:", p.description))))))
  {
    var fs := Required(p);
    assert fs == [fs[0]] + ([fs[1]] + ([fs[2]] + ([fs[3]] + ([fs[4]] + ([fs[5]] + [fs[6]])))));
    BlockJoin([fs[0]], [fs[1]] + ([fs[2]] + ([fs[3]] + ([fs[4]] + ([fs[5]] + [fs[6]])))));
    BlockJoin([fs[1]], [fs[2]] + ([fs[3]] + ([fs[4]] + ([fs[5]] + [fs[6]]))));
    BlockJoin([fs[2]], [fs[3]] + ([fs[4]] + ([fs[5]] + [fs[6]])));
    BlockJoin([fs[3]], [fs[4]] + ([fs[5]] + [fs[6]]));
    BlockJoin([fs[4]], [fs[5]] + [fs[6]]);
    BlockJoin([fs[5]], [fs[6]]);
    BlockOne('C', fs[0].val, "C:");
    BlockOne('P', fs[1].val, "P:");
    BlockOne('V', fs[2].val, "V:");
    BlockOne('A', fs[3].val, "A:");
    BlockOne('S', fs[4].val, "S:");
    BlockOne('I', fs[5].val, "I:");
    BlockOne('T', fs[6].val, "T:");
  }

  /** What GenerateIndex writes for a package, line by line. */
  lemma BlockText(p: Package)
    ensures Block(FieldsOf(p)) ==
            Put("C:", "Q1" + B.Encode(p.digest)) + (Put("P:", p.name) + (Put("V:", p.version) + (Put("A:", p.arch)
            + (Put("S:", Show(p.size)) + (Put("I:", ShowInt(p.installedSize)) + Put("T:", p.description))))))
            + PutOptional("U:", p.url) + PutOptional("L:", p.license) + PutOptional("o:", p.origin)
            + PutOptional("t:", p.buildDate) + PutOptional("c:", p.commit) + PutOptional("D:", Join(p.depends))
            + PutOptional("p:", Join(p.offers)) + PutOptional("r:", Join(p.replaced))
  {
    RequiredText(p);
    BlockText8(Required(p), Optional('U', p.url), Optional('L', p.license), Optional('o', p.origin),
               Optional('t', p.buildDate), Optional('c', p.commit), Optional('D', Join(p.depends)),
               Optional('p', Join(p.offers)), Optional('r', Join(p.replaced)));
    BlockOne('U', p.url, "U:");
    BlockOne('L', p.license, "L:");
    BlockOne('o', p.origin, "o:");
    BlockOne('t', p.buildDate, "t:");
    BlockOne('c', p.commit, "c:");
    BlockOne('D', Join(p.depends), "D:");
    BlockOne('p', Join(p.offers), "p:");
    BlockOne('r', Join(p.replaced), "r:");
  }

  lemma BlockText8(q: seq<Field>, a: seq<Field>, b: seq<Field>, c: seq<Field>, d: seq<Field>, e: seq<Field>,
                   f: seq<Field>, g: seq<Field>, h: seq<Field>)
    ensures Block(q + a + b + c + d + e + f + g + h) ==
            Block(q) + Block(a) + Block(b) + Block(c) + Block(d) + Block(e) + Block(f) + Block(g) + Block(h)
  {
    BlockJoin(q, a);
    BlockJoin(q + a, b);
    BlockJoin(q + a + b, c);
    BlockJoin(q + a + b + c, d);
    BlockJoin(q + a + b + c + d, e);
    BlockJoin(q + a + b + c + d + e, f);
    BlockJoin(q + a + b + c + d + e + f, g);
    BlockJoin(q + a + b + c + d + e + f + g, h);
  }

  /** The text GenerateIndex builds up. */
  method EmitIndex(ps: seq<Package>) returns (buf: string)
    ensures buf == IndexText(ps)
  {
    buf := EmitBlocks(ps, Blocks(ps));
    EmittedAll(Blocks(ps));
  }

  /** One block after another, a blank line behind each but the last. */
  method EmitBlocks(ps: seq<Package>, ghost bs: seq<string>) returns (buf: string)
    requires |bs| == |ps| && forall i :: 0 <= i < |ps| ==> bs[i] == Block(FieldsOf(ps[i]))
    ensures buf == Emitted(bs, |bs|)
  {
    buf := "";
    for i := 0 to |ps|
      invariant buf == Emitted(bs, i)
    {
      buf := EmitBlock(buf, ps[i], bs[i]);
      if i < |ps| - 1 {
        buf := buf + "\n";
      }
    }
  }

  lemma EmittedAll(bs: seq<string>)
    ensures Emitted(bs, |bs|) == Separated(bs)
  {
    EmittedIsSeparated(bs, |bs|);
    assert bs[|bs|..] == [];
  }
}
