/**
 A unit's metadata from the build to the repository: the fields generatePKGINFO writes
 (internal/artifact/apk.go), the ones GenerateIndex reads back and publishes
 (internal/repo/index.go), and what a reader of the index makes of them.
 */
module PackageInfo {
  import opened Bytes
  import opened Decimals
  import opened Pkginfo
  import I = ApkIndex
  import T = ApkRoundTrip
  import V = Versions

  /** What generatePKGINFO is told; built, size and sonames come from the clock and the destination tree. */
  datatype Source = Source(
    name: string, version: string, release: int, description: string, license: string, arch: string,
    built: int, commit: string, size: nat, dataHash: string,
    depends: seq<string>, offers: seq<string>, sonames: seq<string>, replaced: seq<string>)

  datatype Key =
    | PkgName | PkgVer | PkgDesc | License | Arch | BuildDate | Origin
    | Commit | Size | DataHash | Depend | Offer | Replace

  function Text(k: Key): string {
    match k
    case PkgName => "pkgname"
    case PkgVer => "pkgver"
    case PkgDesc => "pkgdesc"
    case License => "license"
    case Arch => "arch"
    case BuildDate => "builddate"
    case Origin => "origin"
    case Commit => "commit"
    case Size => "size"
    case DataHash => "datahash"
    case Depend => "depend"
    case Offer => "provides"
    case Replace => "replaces"
  }

  /** Length, first and fourth character tell the keys apart. */
  function Mark(s: string): (nat, char, char)
    requires |s| >= 4
  {
    (|s|, s[0], s[3])
  }

  lemma TextMark(k: Key)
    ensures |Text(k)| >= 4 && ' ' !in Text(k) && '\n' !in Text(k)
    ensures Mark(Text(k)) ==
            match k
            case PkgName => (7, 'p', 'n')
            case PkgVer => (6, 'p', 'v')
            case PkgDesc => (7, 'p', 'd')
            case License => (7, 'l', 'e')
            case Arch => (4, 'a', 'h')
            case BuildDate => (9, 'b', 'l')
            case Origin => (6, 'o', 'g')
            case Commit => (6, 'c', 'm')
            case Size => (4, 's', 'e')
            case DataHash => (8, 'd', 'a')
            case Depend => (6, 'd', 'e')
            case Offer => (8, 'p', 'v')
            case Replace => (8, 'r', 'l')
  {
  }

  lemma TextInjective(a: Key, b: Key)
    requires Text(a) == Text(b)
    ensures a == b
  {
    TextMark(a);
    TextMark(b);
  }

  // ---------------------------------------------------------------------
  // Writing
  // ---------------------------------------------------------------------

  function Stamp(u: Source): string {
    u.version + "-r" + ShowInt(u.release)
  }

  predicate HasOperator(p: string) {
    exists i :: 0 <= i < |p| && p[i] in "=<>~"
  }

  /** A virtual name without a version of its own gets the unit's. */
  function Offered(u: Source): seq<string> {
    seq(|u.offers|, i requires 0 <= i < |u.offers| =>
          if HasOperator(u.offers[i]) then u.offers[i] else u.offers[i] + "=" + Stamp(u))
    + seq(|u.sonames|, i requires 0 <= i < |u.sonames| => "so:" + u.sonames[i] + "=" + Stamp(u))
  }

  /** offers are the unit's virtual names, each stamped with the unit's version unless it has an operator of its own,
      and then its sonames, stamped. */
  predicate Stamped(u: Source, offers: seq<string>) {
    var stamp := u.version + "-r" + ShowInt(u.release);
    && |offers| == |u.offers| + |u.sonames|
    && (forall i :: 0 <= i < |u.offers| ==>
          var p := u.offers[i];
          offers[i] == if '=' in p || '<' in p || '>' in p || '~' in p then p else p + "=" + stamp)
    && (forall i :: 0 <= i < |u.sonames| ==> offers[|u.offers| + i] == "so:" + u.sonames[i] + "=" + stamp)
  }

  lemma OperatorMeans(p: string)
    ensures HasOperator(p) <==> '=' in p || '<' in p || '>' in p || '~' in p
  {
    var ops := "=<>~";
    assert ops[0] == '=' && ops[1] == '<' && ops[2] == '>' && ops[3] == '~' && |ops| == 4;
    if i :| 0 <= i < |p| && p[i] in ops { assert p[i] in p; }
    if '=' in p || '<' in p || '>' in p || '~' in p {
      var i :| 0 <= i < |p| && (p[i] == '=' || p[i] == '<' || p[i] == '>' || p[i] == '~');
      assert p[i] in ops;
    }
  }

  lemma OfferedStamped(u: Source)
    ensures Stamped(u, Offered(u))
  {
    var offers, stamp := Offered(u), u.version + "-r" + ShowInt(u.release);
    assert |offers| == |u.offers| + |u.sonames| && Stamp(u) == stamp;
    forall i | 0 <= i < |u.offers|
      ensures var p := u.offers[i];
              offers[i] == if '=' in p || '<' in p || '>' in p || '~' in p then p else p + "=" + stamp
    {
      OperatorMeans(u.offers[i]);
    }
    forall i | 0 <= i < |u.sonames| ensures offers[|u.offers| + i] == "so:" + u.sonames[i] + "=" + stamp {}
  }

  function Opt(s: string): seq<string> {
    if s == "" then [] else [s]
  }

  function Vals(u: Source, k: Key): seq<string> {
    match k
    case PkgName => [u.name]
    case PkgVer => [Stamp(u)]
    case PkgDesc => Opt(u.description)
    case License => Opt(u.license)
    case Arch => [u.arch]
    case BuildDate => [ShowInt(u.built)]
    case Origin => [u.name]
    case Commit => Opt(u.commit)
    case Size => [Show(u.size)]
    case DataHash => Opt(u.dataHash)
    case Depend => u.depends
    case Offer => Offered(u)
    case Replace => u.replaced
  }

  function Tagged(key: string, vals: seq<string>): seq<Pair> {
    seq(|vals|, i requires 0 <= i < |vals| => Pair(key, vals[i]))
  }

  lemma {:induction false} RenderJoin(a: seq<Pair>, b: seq<Pair>)
    ensures Render(a + b) == Render(a) + Render(b)
  {
    if a == [] {
      assert a + b == b;
    } else {
      assert (a + b)[1..] == a[1..] + b;
      RenderJoin(a[1..], b);
    }
  }

  /** One line for each value of a field. */
  method WriteField(b0: string, key: string, vals: seq<string>, ghost ps: seq<Pair>)
                    returns (b: string, ghost more: seq<Pair>)
    requires b0 == Render(ps)
    ensures more == ps + Tagged(key, vals) && b == Render(more)
  {
    b := b0;
    assert Tagged(key, vals[..0]) == [];
    assert ps + [] == ps;
    for i := 0 to |vals|
      invariant b == Render(ps + Tagged(key, vals[..i]))
    {
      var p := Pair(key, vals[i]);
      assert ps + Tagged(key, vals[..i + 1]) == ps + Tagged(key, vals[..i]) + [p];
      RenderJoin(ps + Tagged(key, vals[..i]), [p]);
      RenderOne(p);
      b := b + (key + " = " + vals[i] + "\n");
    }
    assert vals[..|vals|] == vals;
    more := ps + Tagged(key, vals);
  }

  lemma RenderOne(p: Pair)
    ensures Render([p]) == p.key + " = " + p.val + "\n"
  {
    assert [p][1..] == [];
    assert Render([p]) == p.key + " = " + p.val + "\n" + Render([]);
  }

  /** What the package is, and what it was built as. */
  function Identity(u: Source): seq<Pair> {
    Tagged("pkgname", [u.name]) + Tagged("pkgver", [Stamp(u)]) + Tagged("pkgdesc", Opt(u.description))
      + Tagged("license", Opt(u.license)) + Tagged("arch", [u.arch]) + Tagged("builddate", [ShowInt(u.built)])
      + Tagged("origin", [u.name])
  }

  function Contents(u: Source): seq<Pair> {
    Tagged("commit", Opt(u.commit)) + Tagged("size", [Show(u.size)]) + Tagged("datahash", Opt(u.dataHash))
      + Tagged("depend", u.depends) + Tagged("provides", Offered(u)) + Tagged("replaces", u.replaced)
  }

  function Written(u: Source): string {
    Render(Identity(u) + Contents(u))
  }

  method WriteIdentity(u: Source) returns (b: string)
    ensures b == Render(Identity(u))
  {
    ghost var ps: seq<Pair> := [];
    b := "";
    b, ps := WriteField(b, "pkgname", [u.name], ps);
    b, ps := WriteField(b, "pkgver", [Stamp(u)], ps);
    b, ps := WriteField(b, "pkgdesc", Opt(u.description), ps);
    b, ps := WriteField(b, "license", Opt(u.license), ps);
    b, ps := WriteField(b, "arch", [u.arch], ps);
    b, ps := WriteField(b, "builddate", [ShowInt(u.built)], ps);
    b, ps := WriteField(b, "origin", [u.name], ps);
    assert ps == Identity(u);
  }

  /** The fields in their order, optional ones left out when empty. */
  method GeneratePkginfo(u: Source) returns (b: string)
    ensures b == Written(u)
  {
    ghost var ps := Identity(u);
    b := WriteIdentity(u);
    b, ps := WriteField(b, "commit", Opt(u.commit), ps);
    b, ps := WriteField(b, "size", [Show(u.size)], ps);
    b, ps := WriteField(b, "datahash", Opt(u.dataHash), ps);
    b, ps := WriteField(b, "depend", u.depends, ps);
    b, ps := WriteField(b, "provides", Offered(u), ps);
    b, ps := WriteField(b, "replaces", u.replaced, ps);
    assert ps == Identity(u) + Contents(u);
  }

  function Put(prefix: string, val: string): string {
    prefix + val + "\n"
  }

  function PutOptional(prefix: string, val: string): string {
    if val == "" then "" else Put(prefix, val)
  }

  function PutAll(prefix: string, vals: seq<string>): string {
    if vals == [] then "" else Put(prefix, vals[0]) + PutAll(prefix, vals[1..])
  }

  lemma {:induction false} RenderTagged(key: string, prefix: string, vals: seq<string>)
    requires prefix == key + " = "
    ensures Render(Tagged(key, vals)) == PutAll(prefix, vals)
    decreases |vals|
  {
    if vals == [] {
    } else {
      RenderTagged(key, prefix, vals[1..]);
      assert Tagged(key, vals)[1..] == Tagged(key, vals[1..]);
      assert key + " = " + vals[0] + "\n" == Put(prefix, vals[0]);
    }
  }

  lemma RenderFew(key: string, prefix: string, val: string)
    requires prefix == key + " = "
    ensures Render(Tagged(key, [val])) == Put(prefix, val)
    ensures Render(Tagged(key, Opt(val))) == PutOptional(prefix, val)
  {
    RenderTagged(key, prefix, [val]);
    RenderTagged(key, prefix, []);
    assert [val][1..] == [] && PutAll(prefix, []) == "";
    assert PutAll(prefix, [val]) == Put(prefix, val) + "";
  }

  lemma SixTexts(ps: seq<seq<Pair>>, ts: seq<string>)
    requires |ps| == 6 == |ts| && forall i :: 0 <= i < 6 ==> Render(ps[i]) == ts[i]
    ensures Render(ps[0] + ps[1] + ps[2] + ps[3] + ps[4] + ps[5]) == ts[0] + ts[1] + ts[2] + ts[3] + ts[4] + ts[5]
  {
    RenderJoin(ps[0], ps[1]);
    RenderJoin(ps[0] + ps[1], ps[2]);
    RenderJoin(ps[0] + ps[1] + ps[2], ps[3]);
    RenderJoin(ps[0] + ps[1] + ps[2] + ps[3], ps[4]);
    RenderJoin(ps[0] + ps[1] + ps[2] + ps[3] + ps[4], ps[5]);
  }

  lemma IdentityText(u: Source)
    ensures Render(Identity(u)) ==
            Put("pkgname = ", u.name) + Put("pkgver = ", u.version + "-r" + ShowInt(u.release))
            + PutOptional("pkgdesc = ", u.description) + PutOptional("license = ", u.license)
            + Put("arch = ", u.arch) + Put("builddate = ", ShowInt(u.built)) + Put("origin = ", u.name)
  {
    var ps := [Tagged("pkgname", [u.name]), Tagged("pkgver", [Stamp(u)]), Tagged("pkgdesc", Opt(u.description)),
               Tagged("license", Opt(u.license)), Tagged("arch", [u.arch]), Tagged("builddate", [ShowInt(u.built)])];
    var ts := [Put("pkgname = ", u.name), Put("pkgver = ", u.version + "-r" + ShowInt(u.release)),
               PutOptional("pkgdesc = ", u.description), PutOptional("license = ", u.license), Put("arch = ", u.arch),
               Put("builddate = ", ShowInt(u.built))];
    RenderFew("pkgname", "pkgname = ", u.name);
    RenderFew("pkgver", "pkgver = ", Stamp(u));
    RenderFew("pkgdesc", "pkgdesc = ", u.description);
    RenderFew("license", "license = ", u.license);
    RenderFew("arch", "arch = ", u.arch);
    RenderFew("builddate", "builddate = ", ShowInt(u.built));
    RenderFew("origin", "origin = ", u.name);
    SixTexts(ps, ts);
    RenderJoin(ps[0] + ps[1] + ps[2] + ps[3] + ps[4] + ps[5], Tagged("origin", [u.name]));
  }

  lemma ContentsText(u: Source)
    ensures Render(Contents(u)) ==
            PutOptional("commit = ", u.commit) + Put("size = ", Show(u.size)) + PutOptional("datahash = ", u.dataHash)
            + PutAll("depend = ", u.depends) + PutAll("provides = ", Offered(u)) + PutAll("replaces = ", u.replaced)
  {
    RenderFew("commit", "commit = ", u.commit);
    RenderFew("size", "size = ", Show(u.size));
    RenderFew("datahash", "datahash = ", u.dataHash);
    RenderTagged("depend", "depend = ", u.depends);
    RenderTagged("provides", "provides = ", Offered(u));
    RenderTagged("replaces", "replaces = ", u.replaced);
    SixTexts([Tagged("commit", Opt(u.commit)), Tagged("size", [Show(u.size)]), Tagged("datahash", Opt(u.dataHash)),
              Tagged("depend", u.depends), Tagged("provides", Offered(u)), Tagged("replaces", u.replaced)],
             [PutOptional("commit = ", u.commit), Put("size = ", Show(u.size)), PutOptional("datahash = ", u.dataHash),
              PutAll("depend = ", u.depends), PutAll("provides = ", Offered(u)), PutAll("replaces = ", u.replaced)]);
  }

  /** What generatePKGINFO writes, line by line. */
  lemma WrittenText(u: Source, offers: seq<string>)
    requires Stamped(u, offers)
    ensures Written(u) ==
            Put("pkgname = ", u.name) + Put("pkgver = ", u.version + "-r" + ShowInt(u.release))
            + PutOptional("pkgdesc = ", u.description) + PutOptional("license = ", u.license)
            + Put("arch = ", u.arch) + Put("builddate = ", ShowInt(u.built)) + Put("origin = ", u.name)
            + (PutOptional("commit = ", u.commit) + Put("size = ", Show(u.size))
               + PutOptional("datahash = ", u.dataHash) + PutAll("depend = ", u.depends)
               + PutAll("provides = ", offers) + PutAll("replaces = ", u.replaced))
  {
    OfferedStamped(u);
    assert offers == Offered(u);
    RenderJoin(Identity(u), Contents(u));
    IdentityText(u);
    ContentsText(u);
  }

  // ---------------------------------------------------------------------
  // Reading
  // ---------------------------------------------------------------------

  lemma {:induction false} ValuesJoin(a: seq<Pair>, b: seq<Pair>, key: string)
    ensures Values(a + b, key) == Values(a, key) + Values(b, key)
    decreases |b|
  {
    if b == [] {
      assert a + b == a;
    } else {
      var k := |b| - 1;
      assert a + b == a + b[..k] + [b[k]] && b == b[..k] + [b[k]];
      ValuesJoin(a, b[..k], key);
      ValuesAppend(a + b[..k], b[k], key);
      ValuesAppend(b[..k], b[k], key);
    }
  }

  lemma {:induction false} ValuesTagged(key: string, vals: seq<string>, k: string)
    ensures Values(Tagged(key, vals), k) == if k == key then vals else []
    decreases |vals|
  {
    if vals == [] {
    } else {
      var rest := vals[..|vals| - 1];
      ValuesTagged(key, rest, k);
      assert Tagged(key, vals) == Tagged(key, rest) + [Pair(key, vals[|vals| - 1])];
      ValuesAppend(Tagged(key, rest), Pair(key, vals[|vals| - 1]), k);
    }
  }

  /** No value has a line break. */
  ghost predicate Plain(u: Source) {
    forall k, i {:trigger Vals(u, k)[i]} :: 0 <= i < |Vals(u, k)| ==> '\n' !in Vals(u, k)[i]
  }

  /** A list of fields under any names, with any values. */
  type Naming = Key -> string
  type Valuing = Key -> seq<string>

  function Flat(text: Naming, vals: Valuing, ks: seq<Key>): seq<Pair> {
    if ks == [] then [] else Flat(text, vals, ks[..|ks| - 1]) + Tagged(text(ks[|ks| - 1]), vals(ks[|ks| - 1]))
  }

  predicate Distinct(ks: seq<Key>) {
    forall i, j :: 0 <= i < j < |ks| ==> ks[i] != ks[j]
  }

  lemma {:induction false} ValuesFlat(text: Naming, vals: Valuing, ks: seq<Key>, k: Key)
    requires Distinct(ks) && forall a, b :: text(a) == text(b) ==> a == b
    ensures Values(Flat(text, vals, ks), text(k)) == if k in ks then vals(k) else []
    decreases |ks|
  {
    if ks == [] {
    } else {
      var n := |ks| - 1;
      var rest, last := ks[..n], ks[n];
      assert ks == rest + [last];
      ValuesFlat(text, vals, rest, k);
      ValuesJoin(Flat(text, vals, rest), Tagged(text(last), vals(last)), text(k));
      ValuesTagged(text(last), vals(last), text(k));
    }
  }

  lemma {:induction false} ValuesNone(text: Naming, vals: Valuing, ks: seq<Key>, key: string)
    requires forall k :: text(k) != key
    ensures Values(Flat(text, vals, ks), key) == []
    decreases |ks|
  {
    if ks == [] {
    } else {
      var n := |ks| - 1;
      ValuesNone(text, vals, ks[..n], key);
      ValuesJoin(Flat(text, vals, ks[..n]), Tagged(text(ks[n]), vals(ks[n])), key);
      ValuesTagged(text(ks[n]), vals(ks[n]), key);
    }
  }

  lemma {:induction false} FlatWritable(text: Naming, vals: Valuing, ks: seq<Key>)
    requires forall k :: ' ' !in text(k) && '\n' !in text(k)
    requires forall k, i {:trigger vals(k)[i]} :: 0 <= i < |vals(k)| ==> '\n' !in vals(k)[i]
    ensures forall i :: 0 <= i < |Flat(text, vals, ks)| ==> Writable(Flat(text, vals, ks)[i])
    decreases |ks|
  {
    if ks == [] {
    } else {
      FlatWritable(text, vals, ks[..|ks| - 1]);
    }
  }

  /** One more field. */
  lemma FlatMore(text: Naming, vals: Valuing, ks: seq<Key>, k: Key)
    ensures Flat(text, vals, ks + [k]) == Flat(text, vals, ks) + Tagged(text(k), vals(k))
  {
    assert (ks + [k])[..|ks|] == ks;
  }

  const START: seq<Key> := [PkgName, PkgVer, PkgDesc]
  const FIRST: seq<Key> := START + [License, Arch, BuildDate, Origin]
  const ORDER: seq<Key> := FIRST + [Commit, Size, DataHash, Depend, Offer, Replace]

  lemma UnrollStart(text: Naming, vals: Valuing)
    ensures Flat(text, vals, START) == Tagged(text(PkgName), vals(PkgName)) + Tagged(text(PkgVer), vals(PkgVer))
            + Tagged(text(PkgDesc), vals(PkgDesc))
  {
    FlatMore(text, vals, [], PkgName);
    FlatMore(text, vals, [] + [PkgName], PkgVer);
    FlatMore(text, vals, [] + [PkgName] + [PkgVer], PkgDesc);
    assert [] + [PkgName] + [PkgVer] + [PkgDesc] == START;
  }

  lemma UnrollFirst(text: Naming, vals: Valuing)
    ensures Flat(text, vals, FIRST) == Flat(text, vals, START)
            + Tagged(text(License), vals(License)) + Tagged(text(Arch), vals(Arch))
              + Tagged(text(BuildDate), vals(BuildDate)) + Tagged(text(Origin), vals(Origin))
  {
    FlatMore(text, vals, START, License);
    FlatMore(text, vals, START + [License], Arch);
    FlatMore(text, vals, START + [License] + [Arch], BuildDate);
    FlatMore(text, vals, START + [License] + [Arch] + [BuildDate], Origin);
    assert START + [License] + [Arch] + [BuildDate] + [Origin] == FIRST;
  }

  lemma UnrollOrder(text: Naming, vals: Valuing)
    ensures Flat(text, vals, ORDER) == Flat(text, vals, FIRST) +
            (Tagged(text(Commit), vals(Commit)) + Tagged(text(Size), vals(Size))
              + Tagged(text(DataHash), vals(DataHash)) + Tagged(text(Depend), vals(Depend))
              + Tagged(text(Offer), vals(Offer)) + Tagged(text(Replace), vals(Replace)))
  {
    FlatMore(text, vals, FIRST, Commit);
    FlatMore(text, vals, FIRST + [Commit], Size);
    FlatMore(text, vals, FIRST + [Commit] + [Size], DataHash);
    FlatMore(text, vals, FIRST + [Commit] + [Size] + [DataHash], Depend);
    FlatMore(text, vals, FIRST + [Commit] + [Size] + [DataHash] + [Depend], Offer);
    FlatMore(text, vals, FIRST + [Commit] + [Size] + [DataHash] + [Depend] + [Offer], Replace);
    assert FIRST + [Commit] + [Size] + [DataHash] + [Depend] + [Offer] + [Replace] == ORDER;
  }

  lemma IdentityIsFlat(u: Source, vals: Valuing)
    requires forall k :: vals(k) == Vals(u, k)
    ensures Identity(u) == Flat(Text, vals, FIRST)
  {
    UnrollStart(Text, vals);
    UnrollFirst(Text, vals);
  }

  lemma ContentsAre(u: Source, vals: Valuing)
    requires forall k :: vals(k) == Vals(u, k)
    ensures Contents(u) == Tagged(Text(Commit), vals(Commit)) + Tagged(Text(Size), vals(Size))
            + Tagged(Text(DataHash), vals(DataHash)) + Tagged(Text(Depend), vals(Depend))
            + Tagged(Text(Offer), vals(Offer)) + Tagged(Text(Replace), vals(Replace))
  {
  }

  /** The pairs written, as one list over the keys. */
  lemma WrittenIsFlat(u: Source, vals: Valuing)
    requires forall k :: vals(k) == Vals(u, k)
    ensures Identity(u) + Contents(u) == Flat(Text, vals, ORDER)
  {
    IdentityIsFlat(u, vals);
    ContentsAre(u, vals);
    UnrollOrder(Text, vals);
  }

  lemma OrderFits(k: Key)
    ensures Distinct(ORDER) && k in ORDER
  {
    assert ORDER[0] == PkgName && ORDER[12] == Replace;
  }

  lemma PairsBack(u: Source, vals: Valuing)
    requires Plain(u) && forall k :: vals(k) == Vals(u, k)
    ensures Pairs(Written(u)) == Flat(Text, vals, ORDER)
  {
    WrittenIsFlat(u, vals);
    forall k ensures ' ' !in Text(k) && '\n' !in Text(k) { TextMark(k); }
    FlatWritable(Text, vals, ORDER);
    PairsRoundTrip(Flat(Text, vals, ORDER));
  }

  lemma ValuesBack(u: Source, k: Key)
    requires Plain(u)
    ensures Values(Pairs(Written(u)), Text(k)) == Vals(u, k)
  {
    var vals := j => Vals(u, j);
    PairsBack(u, vals);
    forall a, b | Text(a) == Text(b) ensures a == b { TextInjective(a, b); }
    OrderFits(k);
    ValuesFlat(Text, vals, ORDER, k);
  }

  /** Reading what was written gives, for every field, exactly the unit's values in order. */
  lemma FieldsBack(u: Source, table: map<string, seq<string>>, k: Key)
    requires Plain(u) && TableOf(Pairs(Written(u)), table)
    ensures Text(k) in table <==> Vals(u, k) != []
    ensures Text(k) in table ==> table[Text(k)] == Vals(u, k)
  {
    ValuesBack(u, k);
  }

  // ---------------------------------------------------------------------
  // Into the index
  // ---------------------------------------------------------------------

  function ValuesIn(table: map<string, seq<string>>, key: string): seq<string> {
    if key in table then table[key] else []
  }

  function Get(table: map<string, seq<string>>, key: string): string {
    var vs := ValuesIn(table, key);
    if vs == [] then "" else vs[0]
  }

  function InstalledSize(table: map<string, seq<string>>): int {
    var n := I.ParseInt(Get(table, "size"));
    if n.Ok? then n.value else 0
  }

  /** What GenerateIndex takes from a package file's metadata. */
  function PackageFrom(table: map<string, seq<string>>, digest: Data, fileSize: nat): I.Package {
    I.Package(digest, Get(table, "pkgname"), Get(table, "pkgver"), Get(table, "arch"), fileSize, InstalledSize(table),
              Get(table, "pkgdesc"), Get(table, "url"), Get(table, "license"), Get(table, "origin"),
                Get(table, "builddate"),
              Get(table, "commit"), ValuesIn(table, "depend"), ValuesIn(table, "provides"), ValuesIn(table, "replaces"))
  }

  function PackageOf(u: Source, digest: Data, fileSize: nat): I.Package {
    I.Package(digest, u.name, Stamp(u), u.arch, fileSize, u.size, u.description, "", u.license, u.name,
      ShowInt(u.built),
              u.commit, u.depends, Offered(u), u.replaced)
  }

  /** No unit has an url field. */
  lemma NoUrl(u: Source, table: map<string, seq<string>>)
    requires Plain(u) && TableOf(Pairs(Written(u)), table)
    ensures "url" !in table
  {
    var vals := j => Vals(u, j);
    PairsBack(u, vals);
    forall k ensures Text(k) != "url" { TextMark(k); }
    ValuesNone(Text, vals, ORDER, "url");
  }

  lemma Got(u: Source, table: map<string, seq<string>>, k: Key)
    requires ValuesIn(table, Text(k)) == Vals(u, k)
    ensures Get(table, Text(k)) == if Vals(u, k) == [] then "" else Vals(u, k)[0]
  {
  }

  lemma NamesGot(u: Source, table: map<string, seq<string>>)
    requires forall k {:trigger Text(k)} :: ValuesIn(table, Text(k)) == Vals(u, k)
    ensures Get(table, "pkgname") == u.name && Get(table, "pkgver") == Stamp(u)
            && Get(table, "pkgdesc") == u.description
    ensures Get(table, "license") == u.license && Get(table, "arch") == u.arch
  {
    Got(u, table, PkgName);
    Got(u, table, PkgVer);
    Got(u, table, PkgDesc);
    Got(u, table, License);
    Got(u, table, Arch);
  }

  lemma RestGot(u: Source, table: map<string, seq<string>>)
    requires forall k {:trigger Text(k)} :: ValuesIn(table, Text(k)) == Vals(u, k)
    ensures Get(table, "builddate") == ShowInt(u.built) && Get(table, "origin") == u.name
    ensures Get(table, "commit") == u.commit && Get(table, "size") == Show(u.size)
  {
    Got(u, table, BuildDate);
    Got(u, table, Origin);
    Got(u, table, Commit);
    Got(u, table, Size);
  }

  lemma ListsGot(u: Source, table: map<string, seq<string>>)
    requires forall k {:trigger Text(k)} :: ValuesIn(table, Text(k)) == Vals(u, k)
    ensures ValuesIn(table, "depend") == Vals(u, Depend) && ValuesIn(table, "provides") == Vals(u, Offer)
    ensures ValuesIn(table, "replaces") == Vals(u, Replace)
  {
    assert Text(Depend) == "depend" && Text(Offer) == "provides" && Text(Replace) == "replaces";
  }

  /** A table with the unit's values makes the unit's package. */
  lemma PackageFits(u: Source, table: map<string, seq<string>>, digest: Data, fileSize: nat)
    requires (forall k {:trigger Text(k)} :: ValuesIn(table, Text(k)) == Vals(u, k)) && "url" !in table
             && I.ParseInt(Show(u.size)) == I.Ok(u.size)
    ensures PackageFrom(table, digest, fileSize) == PackageOf(u, digest, fileSize)
  {
    NamesGot(u, table);
    RestGot(u, table);
    ListsGot(u, table);
    assert Get(table, "url") == "";
  }

  /** The package GenerateIndex sees is the unit's. */
  lemma PackageBack(u: Source, table: map<string, seq<string>>, digest: Data, fileSize: nat)
    requires Plain(u) && I.Int64(u.size) && TableOf(Pairs(Written(u)), table)
    ensures PackageFrom(table, digest, fileSize) == PackageOf(u, digest, fileSize)
  {
    forall k ensures ValuesIn(table, Text(k)) == Vals(u, k) { FieldsBack(u, table, k); }
    NoUrl(u, table);
    I.ParseShown(u.size);
    PackageFits(u, table, digest, fileSize);
  }

  /** From the units' builds through the published index to its readers: one entry per unit, in order, whose name,
      version, release and dependency lists are the unit's. */
  lemma UnitsSurvive(us: seq<Source>, tables: seq<map<string, seq<string>>>, digests: seq<Data>, sizes: seq<nat>,
                     ps: seq<I.Package>, es: seq<I.Entry>)
    requires |us| == |tables| == |digests| == |sizes| == |ps| == |es|
    requires forall i :: 0 <= i < |us| ==>
               Plain(us[i]) && TableOf(Pairs(Written(us[i])), tables[i])
                 && ps[i] == PackageFrom(tables[i], digests[i], sizes[i])
    requires forall i :: 0 <= i < |us| ==> I.Int64(us[i].size) && 0 <= us[i].release < 0x8000_0000_0000_0000
    requires forall i :: 0 <= i < |us| ==>
             T.Emittable(PackageOf(us[i], digests[i], sizes[i]))
             && es[i] == T.EntryOf(PackageOf(us[i], digests[i], sizes[i]))
    ensures I.Parse(I.IndexText(ps)) == I.Ok(es)
    ensures forall i :: 0 <= i < |us| ==>
              && es[i].name == us[i].name && es[i].version == us[i].version + "-r" + ShowInt(us[i].release)
              && V.Release(es[i].version) == V.Stamped(us[i].version, us[i].release)
              && es[i].deps == us[i].depends && Stamped(us[i], es[i].offers) && es[i].replaced == us[i].replaced
    ensures forall i :: 0 <= i < |us| ==>
              && es[i].description == us[i].description && es[i].license == us[i].license && es[i].arch == us[i].arch
              && es[i].origin == us[i].name && es[i].commit == us[i].commit && es[i].url == ""
              && es[i].size == sizes[i] && es[i].installedSize == us[i].size && es[i].checksum == digests[i]
              && es[i].buildTime == us[i].built
  {
    forall i | 0 <= i < |us| ensures ps[i] == PackageOf(us[i], digests[i], sizes[i]) {
      PackageBack(us[i], tables[i], digests[i], sizes[i]);
    }
    T.ParseOfEmitted(ps, es);
    forall i | 0 <= i < |us| ensures V.Release(es[i].version) == V.Stamped(us[i].version, us[i].release) {
      V.StampInvertsIff(us[i].version, us[i].release);
    }
    forall i | 0 <= i < |us| ensures Stamped(us[i], es[i].offers) { OfferedStamped(us[i]); }
    forall i | 0 <= i < |us| ensures es[i].buildTime == us[i].built { I.ParseShown(us[i].built); }
  }
}
