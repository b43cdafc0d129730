/** Parsing the emitted package index returns the packages that were emitted. */
module ApkRoundTrip {
  import opened Decimals
  import opened ApkIndex
  import B = Base64

  // ---------------------------------------------------------------------
  // What can be emitted, and what it reads back as
  // ---------------------------------------------------------------------

  /** The line of a field survives the scanner. */
  predicate Fits(f: Field) {
    SingleLine(f.val) && |f.val| + 2 < MAX_LINE
  }

  predicate Emittable(p: Package) {
    && |p.digest| == SHA1_SIZE && p.name != ""
    && Int64(p.size) && Int64(p.installedSize)
    && (p.buildDate == "" || ParseInt(p.buildDate).Ok?)
    && Tokens(p.depends) && Tokens(p.offers) && Tokens(p.replaced)
    && forall f :: f in FieldsOf(p) ==> Fits(f)
  }

  /** The entry with the package's fields, before its checksum is decoded. */
  function Before(p: Package): Entry
    requires p.buildDate == "" || ParseInt(p.buildDate).Ok?
  {
    Entry(p.name, p.version, p.description, p.url, p.license, p.arch, p.size, p.installedSize, p.origin, "",
          if p.buildDate == "" then 0 else ParseInt(p.buildDate).value, p.commit,
          [], "Q1" + B.Encode(p.digest), p.depends, p.offers, p.replaced, [])
  }

  function EntryOf(p: Package): Entry
    requires p.buildDate == "" || ParseInt(p.buildDate).Ok?
  {
    Before(p).(checksum := p.digest)
  }

  // ---------------------------------------------------------------------
  // Setting fields one after another
  // ---------------------------------------------------------------------

  function Applied(e: Entry, fs: seq<Field>): Parsed<Entry>
    decreases |fs|
  {
    if fs == [] then Ok(e)
    else
      var r := SetField(e, fs[0].key, fs[0].val);
      if r.Err? then r else Applied(r.value, fs[1..])
  }

  lemma {:induction false} AppliedAppend(e: Entry, fs: seq<Field>, f: Field)
    ensures Applied(e, fs + [f]) ==
            if Applied(e, fs).Err? then Applied(e, fs) else SetField(Applied(e, fs).value, f.key, f.val)
    decreases |fs|
  {
    var t := fs + [f];
    if fs == [] {
      assert t[1..] == [];
      var r := SetField(e, f.key, f.val);
      if r.Ok? { assert Applied(r.value, t[1..]) == Ok(r.value); }
    } else {
      assert t[1..] == fs[1..] + [f];
      var r := SetField(e, fs[0].key, fs[0].val);
      if r.Ok? { AppliedAppend(r.value, fs[1..], f); }
    }
  }

  /** A field left out counts as the default it would have set. */
  lemma AppliedOptional(e: Entry, fs: seq<Field>, key: char, val: string, now: Entry, next: Entry)
    requires Applied(e, fs) == Ok(now)
    requires val == "" ==> next == now
    requires val != "" ==> SetField(now, key, val) == Ok(next)
    ensures Applied(e, fs + Optional(key, val)) == Ok(next)
  {
    if val == "" {
      assert fs + [] == fs;
    } else {
      AppliedAppend(e, fs, Field(key, val));
    }
  }

  lemma IdentityApplied(p: Package, fs: seq<Field>)
    requires fs == Required(p)
    ensures Applied(BLANK, fs[..4]) ==
            Ok(BLANK.(checksumText := "Q1" + B.Encode(p.digest), name := p.name, version := p.version, arch := p.arch))
  {
    assert fs[..0] == [];
    var e1 := BLANK.(checksumText := "Q1" + B.Encode(p.digest));
    Advance(fs, 0, BLANK, e1);
    var e2 := e1.(name := p.name);
    Advance(fs, 1, e1, e2);
    var e3 := e2.(version := p.version);
    Advance(fs, 2, e2, e3);
    Advance(fs, 3, e3, e3.(arch := p.arch));
  }

  lemma SizesApplied(fs: seq<Field>, e: Entry, size: string, x: int, installed: string, y: int, description: string)
    requires |fs| == 7 && Applied(BLANK, fs[..4]) == Ok(e) && ParseInt(size) == Ok(x) && ParseInt(installed) == Ok(y)
    requires fs[4] == Field('S', size) && fs[5] == Field('I', installed) && fs[6] == Field('T', description)
    ensures Applied(BLANK, fs) == Ok(e.(size := x, installedSize := y, description := description))
  {
    var e5 := e.(size := x);
    Advance(fs, 4, e, e5);
    var e6 := e5.(installedSize := y);
    Advance(fs, 5, e5, e6);
    Advance(fs, 6, e6, e6.(description := description));
    assert fs[..7] == fs;
  }

  lemma RequiredApplied(p: Package)
    requires Int64(p.size) && Int64(p.installedSize)
    ensures Applied(BLANK, Required(p)) ==
            Ok(BLANK.(checksumText := "Q1" + B.Encode(p.digest), name := p.name, version := p.version, arch := p.arch,
                      size := p.size, installedSize := p.installedSize, description := p.description))
  {
    var fs := Required(p);
    IdentityApplied(p, fs);
    ParseShown(p.size);
    ParseShown(p.installedSize);
    SizesApplied(fs, Applied(BLANK, fs[..4]).value, Show(p.size), p.size, ShowInt(p.installedSize), p.installedSize,
      p.description);
  }

  lemma Advance(fs: seq<Field>, i: nat, now: Entry, next: Entry)
    requires i < |fs| && Applied(BLANK, fs[..i]) == Ok(now) && SetField(now, fs[i].key, fs[i].val) == Ok(next)
    ensures Applied(BLANK, fs[..i + 1]) == Ok(next)
  {
    assert fs[..i + 1] == fs[..i] + [fs[i]];
    AppliedAppend(BLANK, fs[..i], fs[i]);
  }

  lemma TextsApplied(p: Package, fs: seq<Field>, e: Entry)
    requires Applied(BLANK, fs) == Ok(e) && (p.buildDate == "" || ParseInt(p.buildDate).Ok?)
    requires e.url == "" && e.license == "" && e.origin == "" && e.buildTime == 0 && e.commit == ""
    ensures Applied(BLANK, fs + Optional('U', p.url) + Optional('L', p.license) + Optional('o', p.origin)
                           + Optional('t', p.buildDate) + Optional('c', p.commit)) ==
            Ok(e.(url := p.url, license := p.license, origin := p.origin,
                  buildTime := if p.buildDate == "" then 0 else ParseInt(p.buildDate).value, commit := p.commit))
  {
    var e1 := e.(url := p.url);
    AppliedOptional(BLANK, fs, 'U', p.url, e, e1);
    var f1 := fs + Optional('U', p.url);
    var e2 := e1.(license := p.license);
    AppliedOptional(BLANK, f1, 'L', p.license, e1, e2);
    var f2 := f1 + Optional('L', p.license);
    var e3 := e2.(origin := p.origin);
    AppliedOptional(BLANK, f2, 'o', p.origin, e2, e3);
    var f3 := f2 + Optional('o', p.origin);
    var e4 := e3.(buildTime := if p.buildDate == "" then 0 else ParseInt(p.buildDate).value);
    AppliedOptional(BLANK, f3, 't', p.buildDate, e3, e4);
    var f4 := f3 + Optional('t', p.buildDate);
    AppliedOptional(BLANK, f4, 'c', p.commit, e4, e4.(commit := p.commit));
  }

  lemma ListsApplied(p: Package, fs: seq<Field>, e: Entry)
    requires Applied(BLANK, fs) == Ok(e) && Tokens(p.depends) && Tokens(p.offers) && Tokens(p.replaced)
    requires e.deps == [] && e.offers == [] && e.replaced == []
    ensures Applied(BLANK, fs + Optional('D', Join(p.depends)) + Optional('p', Join(p.offers))
            + Optional('r', Join(p.replaced))) ==
            Ok(e.(deps := p.depends, offers := p.offers, replaced := p.replaced))
  {
    FieldsOfJoin(p.depends);
    FieldsOfJoin(p.offers);
    FieldsOfJoin(p.replaced);
    var e1 := e.(deps := p.depends);
    AppliedOptional(BLANK, fs, 'D', Join(p.depends), e, e1);
    var f1 := fs + Optional('D', Join(p.depends));
    var e2 := e1.(offers := p.offers);
    AppliedOptional(BLANK, f1, 'p', Join(p.offers), e1, e2);
    var f2 := f1 + Optional('p', Join(p.offers));
    AppliedOptional(BLANK, f2, 'r', Join(p.replaced), e2, e2.(replaced := p.replaced));
  }

  lemma FieldsApplied(p: Package)
    requires Emittable(p)
    ensures Applied(BLANK, FieldsOf(p)) == Ok(Before(p))
  {
    RequiredApplied(p);
    var e := Applied(BLANK, Required(p)).value;
    TextsApplied(p, Required(p), e);
    var fs := Required(p) + Optional('U', p.url) + Optional('L', p.license) + Optional('o', p.origin)
              + Optional('t', p.buildDate) + Optional('c', p.commit);
    ListsApplied(p, fs, Applied(BLANK, fs).value);
  }

  // ---------------------------------------------------------------------
  // From text to fields
  // ---------------------------------------------------------------------

  function Lines(fs: seq<Field>): seq<string> {
    if fs == [] then [] else [Line(fs[0])] + Lines(fs[1..])
  }

  lemma LineFacts(f: Field)
    requires Fits(f) && f.key != '\n'
    ensures var l := Line(f);
            '\n' !in l && |l| < MAX_LINE && DropCR(l) == l && |l| >= 2 && l[0] == f.key && l[1] == ':'
              && l[2..] == f.val
  {
    var l := Line(f);
    assert l[2..] == f.val;
    if f.val != "" { assert l[|l| - 1] == f.val[|f.val| - 1]; }
  }

  lemma Assoc(a: string, b: string, c: string)
    ensures a + b + c == a + (b + c)
  {
  }

  lemma FirstLine(l: string, block: string, rest: string, lines: seq<string>)
    requires '\n' !in l && RawLines(block + rest) == lines + RawLines(rest)
    ensures RawLines(l + "\n" + block + rest) == [l] + lines + RawLines(rest)
  {
    Assoc(l + "\n", block, rest);
    RawLinesCons(l, block + rest);
  }

  lemma {:induction false} BlockLines(fs: seq<Field>, rest: string)
    requires Keyed(fs) && forall f :: f in fs ==> Fits(f)
    ensures RawLines(Block(fs) + rest) == Lines(fs) + RawLines(rest)
    decreases |fs|
  {
    if fs == [] {
      assert Block(fs) + rest == rest;
    } else {
      var l, more := Line(fs[0]), fs[1..];
      LineFacts(fs[0]);
      assert Keyed(more) && forall f :: f in more ==> Fits(f);
      BlockLines(more, rest);
      FirstLine(l, Block(more), rest, Lines(more));
    }
  }

  lemma {:induction false} LinesTaken(s: State, fs: seq<Field>)
    requires Keyed(fs) && forall f :: f in fs ==> Fits(f)
    requires Applied(s.cur, fs).Ok?
    ensures TakeLines(s, Lines(fs)) == Ok(State(Applied(s.cur, fs).value, s.has || fs != [], s.done))
    decreases |fs|
  {
    if fs == [] {
    } else {
      LineFacts(fs[0]);
      var e := SetField(s.cur, fs[0].key, fs[0].val).value;
      assert Lines(fs)[1..] == Lines(fs[1..]);
      LinesTaken(State(e, true, s.done), fs[1..]);
    }
  }

  predicate Keyed(fs: seq<Field>) {
    forall f :: f in fs ==> f.key != '\n'
  }

  lemma KeyedOptional(fs: seq<Field>, key: char, val: string)
    requires Keyed(fs) && key != '\n'
    ensures Keyed(fs + Optional(key, val)) && |fs + Optional(key, val)| >= |fs|
  {
  }

  lemma KeysFine(p: Package)
    ensures Keyed(FieldsOf(p)) && FieldsOf(p) != []
  {
    var fs := Required(p);
    KeyedOptional(fs, 'U', p.url);
    fs := fs + Optional('U', p.url);
    KeyedOptional(fs, 'L', p.license);
    fs := fs + Optional('L', p.license);
    KeyedOptional(fs, 'o', p.origin);
    fs := fs + Optional('o', p.origin);
    KeyedOptional(fs, 't', p.buildDate);
    fs := fs + Optional('t', p.buildDate);
    KeyedOptional(fs, 'c', p.commit);
    fs := fs + Optional('c', p.commit);
    KeyedOptional(fs, 'D', Join(p.depends));
    fs := fs + Optional('D', Join(p.depends));
    KeyedOptional(fs, 'p', Join(p.offers));
    fs := fs + Optional('p', Join(p.offers));
    KeyedOptional(fs, 'r', Join(p.replaced));
  }

  /** A block read from a fresh state leaves the package's entry pending. */
  lemma BlockTaken(p: Package, done: seq<Entry>)
    requires Emittable(p)
    ensures TakeLines(State(BLANK, false, done), Lines(FieldsOf(p))) == Ok(State(Before(p), true, done))
  {
    KeysFine(p);
    FieldsApplied(p);
    LinesTaken(State(BLANK, false, done), FieldsOf(p));
  }

  lemma EntryFlushed(p: Package, done: seq<Entry>)
    requires Emittable(p)
    ensures Flush(State(Before(p), true, done)) == Ok(State(BLANK, false, done + [EntryOf(p)]))
  {
    DecodeEncoded(p.digest);
  }

  // ---------------------------------------------------------------------
  // Whole texts
  // ---------------------------------------------------------------------

  function Fresh(done: seq<Entry>): State {
    State(BLANK, false, done)
  }

  function Read(done: seq<Entry>, text: string): Parsed<State> {
    TakeLines(Fresh(done), RawLines(text))
  }

  type Reader = (seq<Entry>, string) -> Parsed<State>

  /** Reading block b, a blank line and more is reading e and then more. */
  predicate Goes(read: Reader, b: string, e: Entry, done: seq<Entry>, rest: string) {
    read(done, b + ("\n" + rest)) == read(done + [e], rest)
  }

  /** Reading block b to the end of the text is reading e. */
  predicate Ends(read: Reader, b: string, e: Entry, done: seq<Entry>) {
    Finish(read(done, b)) == Ok(done + [e])
  }

  ghost predicate ReadsAs(read: Reader, b: string, e: Entry) {
    (forall done, rest :: Goes(read, b, e, done, rest)) && (forall done :: Ends(read, b, e, done))
  }

  /** Blocks that each read as an entry read, separated, as the list of entries. */
  lemma {:induction false} SeparatedReads(read: Reader, bs: seq<string>, es: seq<Entry>, done: seq<Entry>)
    requires forall done :: Finish(read(done, "")) == Ok(done)
    requires |bs| == |es| && forall i :: 0 <= i < |bs| ==> ReadsAs(read, bs[i], es[i])
    ensures Finish(read(done, Separated(bs))) == Ok(done + es)
    decreases |bs|
  {
    if bs == [] {
      assert done + es == done;
    } else if |bs| == 1 {
      assert bs[0] + "" == bs[0] && es == [es[0]];
      assert ReadsAs(read, bs[0], es[0]) && Ends(read, bs[0], es[0], done);
    } else {
      var rest := Separated(bs[1..]);
      assert ReadsAs(read, bs[0], es[0]) && Goes(read, bs[0], es[0], done, rest);
      SeparatedReads(read, bs[1..], es[1..], done + [es[0]]);
      assert done + [es[0]] + es[1..] == done + es;
    }
  }

  lemma BlankLine(rest: string)
    ensures RawLines("\n" + rest) == [""] + RawLines(rest)
  {
    RawLinesCons("", rest);
    assert "" + "\n" + rest == "\n" + rest;
  }

  lemma AfterBlank(s: State, lines: seq<string>, rest: seq<string>, pending: Entry, e: Entry, done: seq<Entry>)
    requires TakeLines(s, lines) == Ok(State(pending, true, done))
    requires Flush(State(pending, true, done)) == Ok(Fresh(done + [e]))
    ensures TakeLines(s, lines + ([""] + rest)) == TakeLines(Fresh(done + [e]), rest)
  {
    TakeJoin(s, lines, [""] + rest);
    assert ([""] + rest)[1..] == rest;
  }

  /** The block of a package reads as its entry. */
  lemma BlockReads(p: Package)
    requires Emittable(p)
    ensures ReadsAs(Read, Block(FieldsOf(p)), EntryOf(p))
  {
    var fs, b := FieldsOf(p), Block(FieldsOf(p));
    KeysFine(p);
    forall done, rest ensures Goes(Read, b, EntryOf(p), done, rest) {
      BlockGoes(p, fs, b, done, rest);
    }
    forall done ensures Ends(Read, b, EntryOf(p), done) {
      BlockEnds(p, fs, b, done);
    }
  }

  lemma BlockEnds(p: Package, fs: seq<Field>, b: string, done: seq<Entry>)
    requires Emittable(p) && fs == FieldsOf(p) && b == Block(fs)
    requires Keyed(fs) && forall f :: f in fs ==> Fits(f)
    ensures Ends(Read, b, EntryOf(p), done)
  {
    BlockTaken(p, done);
    EntryFlushed(p, done);
    LinesAlone(fs);
  }

  lemma LinesAlone(fs: seq<Field>)
    requires Keyed(fs) && forall f :: f in fs ==> Fits(f)
    ensures RawLines(Block(fs)) == Lines(fs)
  {
    BlockLines(fs, "");
    assert Block(fs) + "" == Block(fs) && Lines(fs) + [] == Lines(fs);
  }

  lemma BlockGoes(p: Package, fs: seq<Field>, b: string, done: seq<Entry>, rest: string)
    requires Emittable(p) && fs == FieldsOf(p) && b == Block(fs)
    requires Keyed(fs) && forall f :: f in fs ==> Fits(f)
    ensures Goes(Read, b, EntryOf(p), done, rest)
  {
    BlockTaken(p, done);
    EntryFlushed(p, done);
    BlockLines(fs, "\n" + rest);
    BlankLine(rest);
    AfterBlank(Fresh(done), Lines(fs), RawLines(rest), Before(p), EntryOf(p), done);
  }

  /** One entry per package, in order, with equal fields and token lists. */
  lemma ParseOfEmitted(ps: seq<Package>, es: seq<Entry>)
    requires |es| == |ps| && forall i :: 0 <= i < |ps| ==> Emittable(ps[i]) && es[i] == EntryOf(ps[i])
    ensures Parse(IndexText(ps)) == Ok(es)
  {
    forall i | 0 <= i < |ps| ensures ReadsAs(Read, Blocks(ps)[i], es[i]) {
      BlockReads(ps[i]);
    }
    SeparatedReads(Read, Blocks(ps), es, []);
    assert [] + es == es;
  }
}
