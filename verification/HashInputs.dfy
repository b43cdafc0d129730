/**
 What a content key tells of its unit (internal/resolve/hash.go): the records written for two units are equal exactly
 when the units agree on every field that is to invalidate the cache.
 */
module HashInputs {
  import opened Names
  import opened Decimals
  import opened Merkle
  import opened KeyRecords
  import Waves

  /** All that goes into a key. */
  datatype Input = Input(u: Unit, arch: string, keys: map<Name, Key>, srcInputs: string, distro: Name)

  ghost function RecordsOf(x: Input): seq<Record> {
    Records(x.u, x.arch, x.keys, x.srcInputs, x.distro)
  }

  // ---------------------------------------------------------------------
  // The fields
  // ---------------------------------------------------------------------

  predicate SameSource(u: Unit, v: Unit) {
    && u.name == v.name && u.version == v.version && u.release == v.release && u.kind == v.kind && u.scope == v.scope
    && u.description == v.description && u.license == v.license && u.source == v.source && u.sha256 == v.sha256
    && u.apkChecksum == v.apkChecksum && u.passthroughAPK == v.passthroughAPK && u.tag == v.tag
    && u.branch == v.branch && u.patches == v.patches
  }

  predicate SameBuild(u: Unit, v: Unit) {
    && u.container == v.container && u.containerArch == v.containerArch && u.sandbox == v.sandbox
    && u.shell == v.shell && u.offers == v.offers && u.replaced == v.replaced && u.runtimeDeps == v.runtimeDeps
  }

  predicate SameMetadata(u: Unit, v: Unit) {
    && u.services == v.services && u.conffiles == v.conffiles && u.environment == v.environment
    && u.extra == v.extra && u.files == v.files
  }

  /** The tables have the same list for the distro; no list counts as an empty one. */
  predicate SameAdded(m: map<Name, seq<Name>>, m': map<Name, seq<Name>>, distro: Name) {
    distro != "" ==> (if distro in m then m[distro] else []) == (if distro in m' then m'[distro] else [])
  }

  predicate SameImage(u: Unit, v: Unit) {
    && multiset(u.artifacts) == multiset(v.artifacts) && u.exclude == v.exclude && u.hostname == v.hostname
    && u.timezone == v.timezone && u.locale == v.locale && u.partitions == v.partitions
  }

  /** How often d is declared, by the unit itself and for the distro. */
  function Times(x: Input, d: Name): nat {
    multiset(x.u.deps)[d]
    + if x.distro != "" && x.distro in x.u.distroDeps then multiset(x.u.distroDeps[x.distro])[d] else 0
  }

  /** A declared dep that has a key in one has the same in the other, and is declared as often there. */
  ghost predicate SameDeps(x: Input, y: Input) {
    forall d {:trigger Times(x, d)} {:trigger Times(y, d)} ::
      (Times(x, d) > 0 && d in x.keys) || (Times(y, d) > 0 && d in y.keys) ==>
        Times(x, d) == Times(y, d) && d in x.keys && d in y.keys && x.keys[d] == y.keys[d]
  }

  ghost predicate SameInputs(x: Input, y: Input) {
    && SameSource(x.u, y.u) && x.arch == y.arch && x.srcInputs == y.srcInputs && x.distro == y.distro
    && x.u.tasks == y.u.tasks && SameBuild(x.u, y.u)
    && SameAdded(x.u.distroDeps, y.u.distroDeps, x.distro)
    && SameAdded(x.u.distroRuntimeDeps, y.u.distroRuntimeDeps, x.distro)
    && SameMetadata(x.u, y.u) && SameDeps(x, y) && (x.u.kind == "image" ==> SameImage(x.u, y.u))
  }

  // ---------------------------------------------------------------------
  // What the records rely on
  // ---------------------------------------------------------------------

  /** None of the strings is empty or holds the separator they are joined with. */
  predicate Tokens(ts: seq<string>, sep: char) {
    forall t :: t in ts ==> t != "" && sep !in t
  }

  /** A step does one thing, as a string, a function or an install step makes it. */
  predicate Plain(s: Command) {
    || (s.command != "" && s.fn.None? && s.install.None?)
    || (s.command == "" && s.fn.Some? && s.install.None?)
    || (s.command == "" && s.fn.None? && s.install.Some?)
  }

  predicate PlainTasks(ts: seq<Task>) {
    forall t :: t in ts ==> Tokens(t.distros, ',') && forall s :: s in t.steps ==> Plain(s)
  }

  /** A value may hold commas or equals signs, but no equals sign behind a comma. */
  predicate PlainValue(v: string) {
    forall i, j :: 0 <= i < j < |v| && v[i] == ',' ==> v[j] != '='
  }

  predicate PlainEnvironment(m: map<Name, string>) {
    forall k :: k in m ==> '=' !in k && ',' !in k && PlainValue(m[k])
  }

  predicate PlainLists(u: Unit) {
    && Tokens(u.patches, '|') && Tokens(u.offers, ',') && Tokens(u.replaced, ',') && Tokens(u.runtimeDeps, ',')
    && Tokens(u.services, ',') && Tokens(u.conffiles, ',') && Tokens(u.artifacts, ',') && Tokens(u.exclude, ',')
    && (forall d :: d in u.distroDeps ==> Tokens(u.distroDeps[d], ','))
    && (forall d :: d in u.distroRuntimeDeps ==> Tokens(u.distroRuntimeDeps[d], ','))
    && (forall p :: p in u.partitions ==> Tokens(p.contents, ','))
  }

  predicate PlainUnit(u: Unit) {
    PlainLists(u) && PlainTasks(u.tasks) && PlainEnvironment(u.environment)
  }

  // ---------------------------------------------------------------------
  // Joined texts
  // ---------------------------------------------------------------------

  /** The first separator is where both are cut. */
  lemma CutAlike(a: string, b: string, c: char, x: string, y: string)
    requires c !in a && c !in b && a + [c] + x == b + [c] + y
    ensures a == b && x == y
  {
    var s, t := a + [c] + x, b + [c] + y;
    assert s == t && (forall i :: 0 <= i < |a| ==> s[i] == a[i]) && forall i :: 0 <= i < |b| ==> t[i] == b[i];
    assert s[|a|] == c && t[|b|] == c;
    assert s[..|a|] == a && t[..|b|] == b && s[|a| + 1..] == x && t[|b| + 1..] == y;
  }

  lemma {:induction false} JoinTells(ts: seq<string>, us: seq<string>, c: char)
    requires Tokens(ts, c) && Tokens(us, c) && JoinWith(ts, [c]) == JoinWith(us, [c])
    ensures ts == us
    decreases |ts|
  {
    if ts == [] || us == [] {
      JoinEmpty(ts, c);
      JoinEmpty(us, c);
    } else if |ts| == 1 || |us| == 1 {
      JoinHasSep(ts, c);
      JoinHasSep(us, c);
      assert ts[0] in ts && us[0] in us;
    } else {
      assert ts[0] in ts && us[0] in us;
      CutAlike(ts[0], us[0], c, JoinWith(ts[1..], [c]), JoinWith(us[1..], [c]));
      assert (forall t :: t in ts[1..] ==> t in ts) && forall t :: t in us[1..] ==> t in us;
      JoinTells(ts[1..], us[1..], c);
      assert ts == [ts[0]] + ts[1..] && us == [us[0]] + us[1..];
    }
  }

  lemma JoinEmpty(ts: seq<string>, c: char)
    requires Tokens(ts, c)
    ensures JoinWith(ts, [c]) == "" <==> ts == []
  {
    if ts != [] { assert ts[0] in ts; }
  }

  lemma JoinHasSep(ts: seq<string>, c: char)
    requires Tokens(ts, c) && ts != []
    ensures c in JoinWith(ts, [c]) <==> |ts| > 1
  {
    assert ts[0] in ts;
    if |ts| > 1 { assert JoinWith(ts, [c])[|ts[0]|] == c; }
  }

  /** Nothing, or a further assignment: a comma, a key, an equals sign. */
  predicate Further(t: string) {
    t == "" || (t[0] == ',' && exists k :: 1 <= k < |t| && t[k] == '=' && forall i :: 1 <= i < k ==> t[i] != ',')
  }

  /** A value ends where the next assignment begins. */
  lemma ValueTells(v: string, w: string, t: string, u: string)
    requires PlainValue(v) && PlainValue(w) && Further(t) && Further(u) && v + t == w + u
    ensures v == w && t == u
  {
    if |v| < |w| {
      NotLonger(v, w, t, u);
    } else if |w| < |v| {
      NotLonger(w, v, u, t);
    }
    assert (v + t)[..|v|] == v && (w + u)[..|w|] == w && (v + t)[|v|..] == t && (w + u)[|w|..] == u;
  }

  lemma NotLonger(v: string, w: string, t: string, u: string)
    requires PlainValue(w) && Further(t) && Further(u) && v + t == w + u
    ensures |v| >= |w|
  {
    var a, b := v + t, w + u;
    assert a == b;
    assert forall i :: 0 <= i < |w| ==> b[i] == w[i];
    assert forall i :: 0 <= i < |t| ==> a[|v| + i] == t[i];
    if t != "" {
      var k :| 1 <= k < |t| && t[k] == '=' && forall i :: 1 <= i < k ==> t[i] != ',';
      assert a[|v|] == ',' && a[|v| + k] == '=';
      assert u != "" ==> b[|w|] == ',';
      assert forall i :: |v| < i <= |v| + k ==> a[i] == t[i - |v|] && a[i] != ',';
    }
  }

  /** The assignments of some keys, read from the front. */
  lemma AssignmentsFront(ks: seq<Name>, m: map<Name, string>) returns (t: string)
    requires Elems(ks) <= m.Keys && PlainEnvironment(m) && ks != []
    ensures ks[0] in m && JoinWith(Assignments(ks, m), ",") == ks[0] + ['='] + (m[ks[0]] + t) && Further(t)
    ensures |ks| == 1 ==> t == ""
    ensures |ks| > 1 ==> Elems(ks[1..]) <= m.Keys && t == "," + JoinWith(Assignments(ks[1..], m), ",")
  {
    var all := Assignments(ks, m);
    assert ks[0] in Elems(ks) && all[0] == ks[0] + "=" + m[ks[0]];
    if |ks| == 1 {
      t := "";
    } else {
      var rest := ks[1..];
      assert forall x :: x in rest ==> x in ks;
      assert all[1..] == Assignments(rest, m);
      t := "," + JoinWith(Assignments(rest, m), ",");
      assert rest[0] in Elems(rest) && Assignments(rest, m)[0] == rest[0] + "=" + m[rest[0]];
      var k := |rest[0]| + 1;
      assert t[k] == '=' && forall i :: 1 <= i < k ==> t[i] == rest[0][i - 1];
    }
  }

  lemma {:induction false} AssignmentsTell(ks: seq<Name>, ks': seq<Name>, m: map<Name, string>, m': map<Name, string>)
    requires Elems(ks) <= m.Keys && PlainEnvironment(m) && Elems(ks') <= m'.Keys && PlainEnvironment(m')
    requires JoinWith(Assignments(ks, m), ",") == JoinWith(Assignments(ks', m'), ",")
    ensures ks == ks' && forall k :: k in ks ==> k in m && k in m' && m[k] == m'[k]
    decreases |ks|
  {
    if ks == [] || ks' == [] {
      if ks != [] { var t := AssignmentsFront(ks, m); }
      if ks' != [] { var t := AssignmentsFront(ks', m'); }
    } else {
      var t := AssignmentsFront(ks, m);
      var t' := AssignmentsFront(ks', m');
      CutAlike(ks[0], ks'[0], '=', m[ks[0]] + t, m'[ks'[0]] + t');
      ValueTells(m[ks[0]], m'[ks'[0]], t, t');
      if |ks| > 1 && |ks'| > 1 {
        assert t[1..] == t'[1..];
        AssignmentsTell(ks[1..], ks'[1..], m, m');
      }
      assert ks == [ks[0]] + ks[1..] && ks' == [ks'[0]] + ks'[1..];
    }
  }

  /** k=v lists of sorted keys give the table back. */
  lemma EnvironmentTells(m: map<Name, string>, m': map<Name, string>)
    requires PlainEnvironment(m) && PlainEnvironment(m') && KeyRecords.Environment(m) == KeyRecords.Environment(m')
    ensures m == m'
  {
    var ks := Waves.Listing(m.Keys);
    AssignmentsTell(ks, Waves.Listing(m'.Keys), m, m');
    assert Elems(ks) == m.Keys == m'.Keys;
    forall k | k in m ensures m[k] == m'[k] { assert k in Elems(ks); }
  }

  // ---------------------------------------------------------------------
  // Reading records from the front
  // ---------------------------------------------------------------------

  /** What the first record is. */
  function Lead(rs: seq<Record>): string {
    if rs == [] then "" else if rs[0].Line? then rs[0].tag else "dep"
  }

  lemma Peel(a: seq<Record>, b: seq<Record>, x: seq<Record>, y: seq<Record>)
    requires |a| == |b| && a + x == b + y
    ensures a == b && x == y
  {
    assert (a + x)[..|a|] == a && (b + y)[..|b|] == b && (a + x)[|a|..] == x && (b + y)[|b|..] == y;
  }

  /** An optional record is there or not, as long as nothing behind it looks like it. */
  lemma PeelWhen(c: bool, d: bool, r: Record, s: Record, x: seq<Record>, y: seq<Record>)
    requires r.Line? && s.Line? && r.tag == s.tag && Lead(x) != r.tag && Lead(y) != r.tag
    requires When(c, r) + x == When(d, s) + y
    ensures c == d && (c ==> r == s) && x == y
  {
    var v, w := When(c, r) + x, When(d, s) + y;
    assert (if c then v[0] == r else v == x) && if d then w[0] == s else w == y;
    Peel(When(c, r), When(d, s), x, y);
  }

  lemma NamingTells(u: Unit, v: Unit, a: string, b: string)
    requires Naming(u, a) == Naming(v, b)
    ensures u.name == v.name && u.version == v.version && u.release == v.release && u.kind == v.kind
    ensures u.scope == v.scope && a == b && u.description == v.description && u.license == v.license
    ensures u.source == v.source && u.sha256 == v.sha256
  {
    var r, s := Naming(u, a), Naming(v, b);
    assert forall i :: 0 <= i < 10 ==> r[i].args[0] == s[i].args[0];
    assert r[0].args[0] == u.name && r[1].args[0] == u.version && r[2].args[0] == ShowInt(u.release);
    assert r[3].args[0] == u.kind && r[4].args[0] == u.scope && r[5].args[0] == a && r[6].args[0] == u.description;
    assert r[7].args[0] == u.license && r[8].args[0] == u.source && r[9].args[0] == u.sha256;
    ShowIntTells(u.release, v.release);
  }

  lemma OriginTells(u: Unit, v: Unit)
    requires Tokens(u.patches, '|') && Tokens(v.patches, '|') && Origin(u) == Origin(v)
    ensures u.passthroughAPK == v.passthroughAPK && u.tag == v.tag && u.branch == v.branch && u.patches == v.patches
  {
    var r, s := Origin(u), Origin(v);
    assert forall i :: 0 <= i < 4 ==> r[i].args[0] == s[i].args[0];
    assert r[0].args[0] == u.passthroughAPK && r[1].args[0] == u.tag && r[2].args[0] == u.branch;
    assert r[3].args[0] == JoinWith(u.patches, "|") && s[3].args[0] == JoinWith(v.patches, "|") && "|" == ['|'];
    JoinTells(u.patches, v.patches, '|');
  }

  lemma IdentityTells(u: Unit, v: Unit, a: string, b: string, x: seq<Record>, y: seq<Record>)
    requires Tokens(u.patches, '|') && Tokens(v.patches, '|') && Identity(u, a) + x == Identity(v, b) + y
    ensures SameSource(u, v) && a == b && x == y
  {
    var r, s := Line("apk_checksum", [u.apkChecksum]), Line("apk_checksum", [v.apkChecksum]);
    var c, d := u.apkChecksum != "", v.apkChecksum != "";
    Regroup(Naming(u, a), When(c, r), Origin(u), x);
    Regroup(Naming(v, b), When(d, s), Origin(v), y);
    Peel(Naming(u, a), Naming(v, b), When(c, r) + (Origin(u) + x), When(d, s) + (Origin(v) + y));
    NamingTells(u, v, a, b);
    PeelWhen(c, d, r, s, Origin(u) + x, Origin(v) + y);
    assert c ==> r.args[0] == s.args[0];
    Peel(Origin(u), Origin(v), x, y);
    OriginTells(u, v);
  }

  lemma Regroup(a: seq<Record>, b: seq<Record>, c: seq<Record>, d: seq<Record>)
    ensures a + b + c + d == a + (b + (c + d))
  {
  }

  lemma ContextTells(s: string, d: Name, s': string, d': Name, x: seq<Record>, y: seq<Record>)
    requires Context(s, d) + x == Context(s', d') + y
    requires Lead(x) == "task" || Lead(x) == "container"
    requires Lead(y) == "task" || Lead(y) == "container"
    ensures s == s' && d == d' && x == y
  {
    var r, r' := Line("src_state", [s]), Line("src_state", [s']);
    var e, e' := Line("effective_distro", [d]), Line("effective_distro", [d']);
    Assoc(When(s != "", r), When(d != "", e), x);
    Assoc(When(s' != "", r'), When(d' != "", e'), y);
    PeelWhen(s != "", s' != "", r, r', When(d != "", e) + x, When(d' != "", e') + y);
    PeelWhen(d != "", d' != "", e, e', x, y);
    assert s != "" ==> r.args[0] == r'.args[0];
    assert d != "" ==> e.args[0] == e'.args[0];
  }

  // ---------------------------------------------------------------------
  // Tasks
  // ---------------------------------------------------------------------

  /** What may follow a step: another step, another task, or the unit's container. */
  predicate Onward(x: seq<Record>) {
    Lead(x) == "step:cmd" || Lead(x) == "step:fn" || Lead(x) == "step:install" || Outside(x)
  }

  predicate Outside(x: seq<Record>) {
    Lead(x) == "task" || Lead(x) == "container"
  }

  lemma InstallTells(i: Install, j: Install, x: seq<Record>, y: seq<Record>)
    requires OfInstall(i) + x == OfInstall(j) + y && Onward(x) && Onward(y)
    ensures i == j && x == y
  {
    var r, r' := OfInstall(i)[..1], OfInstall(j)[..1];
    var c, c' := OfInstall(i)[1..], OfInstall(j)[1..];
    assert r + (c + x) == OfInstall(i) + x && r' + (c' + y) == OfInstall(j) + y;
    Peel(r, r', c + x, c' + y);
    assert r[0].args == [i.kind, i.src, i.dest, i.mode, i.baseDir]
      && r'[0].args == [j.kind, j.src, j.dest, j.mode, j.baseDir];
    InstallFields(i, j);
    var sum, sum' := if i.content.Some? then i.content.value else "", if j.content.Some? then j.content.value else "";
    var t, t' := Line("step:install:src-sha256", [sum]), Line("step:install:src-sha256", [sum']);
    assert c == When(i.content.Some?, t) && c' == When(j.content.Some?, t');
    PeelWhen(i.content.Some?, j.content.Some?, t, t', x, y);
    assert i.content.Some? ==> t.args[0] == t'.args[0];
  }

  lemma InstallFields(i: Install, j: Install)
    requires [i.kind, i.src, i.dest, i.mode, i.baseDir] == [j.kind, j.src, j.dest, j.mode, j.baseDir]
    ensures i.kind == j.kind && i.src == j.src && i.dest == j.dest && i.mode == j.mode && i.baseDir == j.baseDir
  {
    var a, b := [i.kind, i.src, i.dest, i.mode, i.baseDir], [j.kind, j.src, j.dest, j.mode, j.baseDir];
    assert a[0] == b[0] && a[1] == b[1] && a[2] == b[2] && a[3] == b[3] && a[4] == b[4];
  }

  /** A plain step is told by its first record. */
  lemma StepLead(s: Command)
    requires Plain(s)
    ensures OfStep(s) != []
    ensures Lead(OfStep(s)) == if s.install.Some? then "step:install" else if s.fn.Some? then "step:fn" else "step:cmd"
    ensures s.install.Some? ==> OfStep(s) == OfInstall(s.install.value)
    ensures s.fn.Some? ==> OfStep(s) == [Line("step:fn", [s.fn.value])]
    ensures s.install.None? && s.fn.None? ==> OfStep(s) == [Line("step:cmd", [s.command])]
  {
  }

  lemma LeadJoined(a: seq<Record>, x: seq<Record>)
    ensures a != [] ==> Lead(a + x) == Lead(a)
    ensures a == [] ==> a + x == x
  {
  }

  lemma StepTells(s: Command, t: Command, x: seq<Record>, y: seq<Record>)
    requires Plain(s) && Plain(t) && OfStep(s) + x == OfStep(t) + y && Onward(x) && Onward(y)
    ensures s == t && x == y
  {
    StepLead(s);
    StepLead(t);
    LeadJoined(OfStep(s), x);
    LeadJoined(OfStep(t), y);
    assert s.install.Some? == t.install.Some? && s.fn.Some? == t.fn.Some?;
    if s.install.Some? {
      InstallTells(s.install.value, t.install.value, x, y);
    } else {
      Peel(OfStep(s), OfStep(t), x, y);
      assert OfStep(s)[0].args[0] == OfStep(t)[0].args[0];
    }
  }

  lemma {:induction false} StepsFront(ss: seq<Command>)
    requires ss != []
    ensures OfSteps(ss) == OfStep(ss[0]) + OfSteps(ss[1..])
    decreases |ss|
  {
    var k := |ss| - 1;
    if k == 0 {
      assert ss[..0] == [] == ss[1..];
    } else {
      StepsFront(ss[..k]);
      assert ss[..k][1..] == ss[1..][..k - 1] && ss[1..][k - 1] == ss[k] && ss[..k][0] == ss[0];
      Assoc(OfStep(ss[0]), OfSteps(ss[1..][..k - 1]), OfStep(ss[k]));
    }
  }

  /** Some steps, and what follows them. */
  lemma StepsLead(ss: seq<Command>, x: seq<Record>)
    requires (forall s :: s in ss ==> Plain(s)) && Outside(x)
    ensures Onward(OfSteps(ss) + x)
    ensures Outside(OfSteps(ss) + x) <==> ss == []
  {
    if ss == [] {
      LeadJoined([], x);
    } else {
      StepsFront(ss);
      assert ss[0] in ss;
      StepLead(ss[0]);
      LeadJoined(OfStep(ss[0]), OfSteps(ss[1..]));
      LeadJoined(OfSteps(ss), x);
    }
  }

  lemma StepsOpen(ss: seq<Command>, x: seq<Record>)
    requires ss != [] && (forall s :: s in ss ==> Plain(s)) && Outside(x)
    ensures OfSteps(ss) + x == OfStep(ss[0]) + (OfSteps(ss[1..]) + x) && Plain(ss[0])
    ensures (forall s :: s in ss[1..] ==> Plain(s)) && Onward(OfSteps(ss[1..]) + x) && !Outside(OfSteps(ss) + x)
  {
    StepsFront(ss);
    Assoc(OfStep(ss[0]), OfSteps(ss[1..]), x);
    assert ss[0] in ss;
    StepsLead(ss, x);
    StepsLead(ss[1..], x);
  }

  lemma FrontJoins<T>(a: seq<T>, b: seq<T>)
    requires a != [] && b != [] && a[0] == b[0] && a[1..] == b[1..]
    ensures a == b
  {
    assert a == [a[0]] + a[1..] && b == [b[0]] + b[1..];
  }

  lemma NoSteps(ss: seq<Command>, x: seq<Record>, y: seq<Record>)
    requires (forall s :: s in ss ==> Plain(s)) && Outside(x) && Outside(y) && OfSteps(ss) + x == y
    ensures ss == [] && x == y
  {
    if ss != [] { StepsOpen(ss, x); }
    LeadJoined([], x);
  }

  lemma {:induction false} StepsTell(ss: seq<Command>, ts: seq<Command>, x: seq<Record>, y: seq<Record>)
    requires (forall s :: s in ss ==> Plain(s)) && (forall t :: t in ts ==> Plain(t)) && Outside(x) && Outside(y)
    requires OfSteps(ss) + x == OfSteps(ts) + y
    ensures ss == ts && x == y
    decreases |ss|
  {
    if ss == [] {
      LeadJoined(OfSteps(ss), x);
      NoSteps(ts, y, x);
    } else if ts == [] {
      LeadJoined(OfSteps(ts), y);
      NoSteps(ss, x, y);
    } else {
      StepsOpen(ss, x);
      StepsOpen(ts, y);
      StepTells(ss[0], ts[0], OfSteps(ss[1..]) + x, OfSteps(ts[1..]) + y);
      StepsTell(ss[1..], ts[1..], x, y);
      FrontJoins(ss, ts);
    }
  }

  lemma {:induction false} TasksFront(ts: seq<Task>)
    requires ts != []
    ensures OfTasks(ts) == OfTask(ts[0]) + OfTasks(ts[1..])
    decreases |ts|
  {
    var k := |ts| - 1;
    if k == 0 {
      assert ts[..0] == [] == ts[1..];
    } else {
      TasksFront(ts[..k]);
      assert ts[..k][1..] == ts[1..][..k - 1] && ts[1..][k - 1] == ts[k] && ts[..k][0] == ts[0];
      Assoc(OfTask(ts[0]), OfTasks(ts[1..][..k - 1]), OfTask(ts[k]));
    }
  }

  lemma TasksLead(ts: seq<Task>, x: seq<Record>)
    requires Lead(x) == "container"
    ensures Lead(OfTasks(ts) + x) == if ts == [] then "container" else "task"
  {
    if ts == [] {
      LeadJoined([], x);
    } else {
      TasksFront(ts);
      assert OfTask(ts[0]) != [] && Lead(OfTask(ts[0])) == "task";
      LeadJoined(OfTask(ts[0]), OfTasks(ts[1..]));
      LeadJoined(OfTasks(ts), x);
    }
  }

  lemma TaskTells(t: Task, v: Task, x: seq<Record>, y: seq<Record>)
    requires Tokens(t.distros, ',') && Tokens(v.distros, ',') && Outside(x) && Outside(y)
    requires (forall s :: s in t.steps ==> Plain(s)) && (forall s :: s in v.steps ==> Plain(s))
    requires OfTask(t) + x == OfTask(v) + y
    ensures t == v && x == y
  {
    var h, h' := [Line("task", [t.name, t.container])], [Line("task", [v.name, v.container])];
    var c, c' := t.distros != [], v.distros != [];
    var r, r' := Line("task_distros", [JoinWith(t.distros, ",")]), Line("task_distros", [JoinWith(v.distros, ",")]);
    Regroup(h, When(c, r), OfSteps(t.steps), x);
    Regroup(h', When(c', r'), OfSteps(v.steps), y);
    Peel(h, h', When(c, r) + (OfSteps(t.steps) + x), When(c', r') + (OfSteps(v.steps) + y));
    assert h[0].args[0] == h'[0].args[0] && h[0].args[1] == h'[0].args[1];
    StepsLead(t.steps, x);
    StepsLead(v.steps, y);
    PeelWhen(c, c', r, r', OfSteps(t.steps) + x, OfSteps(v.steps) + y);
    if c {
      assert r.args[0] == r'.args[0] && "," == [','];
      JoinTells(t.distros, v.distros, ',');
    }
    StepsTell(t.steps, v.steps, x, y);
  }

  lemma TasksOpen(ts: seq<Task>, x: seq<Record>)
    requires ts != [] && PlainTasks(ts) && Lead(x) == "container"
    ensures OfTasks(ts) + x == OfTask(ts[0]) + (OfTasks(ts[1..]) + x)
    ensures Tokens(ts[0].distros, ',') && forall s :: s in ts[0].steps ==> Plain(s)
    ensures PlainTasks(ts[1..]) && Outside(OfTasks(ts[1..]) + x) && Lead(OfTasks(ts) + x) == "task"
  {
    TasksFront(ts);
    Assoc(OfTask(ts[0]), OfTasks(ts[1..]), x);
    assert ts[0] in ts && forall t :: t in ts[1..] ==> t in ts;
    TasksLead(ts, x);
    TasksLead(ts[1..], x);
  }

  lemma NoTasks(ts: seq<Task>, x: seq<Record>, y: seq<Record>)
    requires PlainTasks(ts) && Lead(x) == "container" && Lead(y) == "container" && OfTasks(ts) + x == y
    ensures ts == [] && x == y
  {
    if ts != [] { TasksOpen(ts, x); }
    LeadJoined([], x);
  }

  lemma {:induction false} TasksTell(ts: seq<Task>, vs: seq<Task>, x: seq<Record>, y: seq<Record>)
    requires PlainTasks(ts) && PlainTasks(vs) && Lead(x) == "container" && Lead(y) == "container"
    requires OfTasks(ts) + x == OfTasks(vs) + y
    ensures ts == vs && x == y
    decreases |ts|
  {
    if ts == [] {
      LeadJoined(OfTasks(ts), x);
      NoTasks(vs, y, x);
    } else if vs == [] {
      LeadJoined(OfTasks(vs), y);
      NoTasks(ts, x, y);
    } else {
      TasksOpen(ts, x);
      TasksOpen(vs, y);
      TaskTells(ts[0], vs[0], OfTasks(ts[1..]) + x, OfTasks(vs[1..]) + y);
      TasksTell(ts[1..], vs[1..], x, y);
      FrontJoins(ts, vs);
    }
  }

  // ---------------------------------------------------------------------
  // Build settings and metadata
  // ---------------------------------------------------------------------

  lemma FlagTells(a: bool, b: bool)
    requires (if a then "true" else "false") == if b then "true" else "false"
    ensures a == b
  {
    assert "true"[0] != "false"[0];
  }

  lemma BuildTells(u: Unit, v: Unit, x: seq<Record>, y: seq<Record>)
    requires PlainLists(u) && PlainLists(v) && Build(u) + x == Build(v) + y
    ensures SameBuild(u, v) && x == y
  {
    Peel(Build(u), Build(v), x, y);
    var r, s := Build(u), Build(v);
    assert forall i :: 0 <= i < 7 ==> r[i].args[0] == s[i].args[0];
    assert r[0].args[0] == u.container && r[1].args[0] == u.containerArch && r[3].args[0] == u.shell;
    assert r[2].args[0] == if u.sandbox then "true" else "false";
    assert s[2].args[0] == if v.sandbox then "true" else "false";
    FlagTells(u.sandbox, v.sandbox);
    assert r[4].args[0] == JoinWith(u.offers, ",") && r[5].args[0] == JoinWith(u.replaced, ",");
    assert r[6].args[0] == JoinWith(u.runtimeDeps, ",") && "," == [','];
    JoinTells(u.offers, v.offers, ',');
    JoinTells(u.replaced, v.replaced, ',');
    JoinTells(u.runtimeDeps, v.runtimeDeps, ',');
  }

  /** One of the two records a distro may add. */
  lemma AddedTells(a: seq<Name>, b: seq<Name>, tag: string, distro: Name, x: seq<Record>, y: seq<Record>)
    requires Tokens(a, ',') && Tokens(b, ',') && Lead(x) != tag && Lead(y) != tag
    requires When(a != [], Line(tag, [distro, JoinWith(a, ",")])) + x ==
             When(b != [], Line(tag, [distro, JoinWith(b, ",")])) + y
    ensures a == b && x == y
  {
    var r, s := Line(tag, [distro, JoinWith(a, ",")]), Line(tag, [distro, JoinWith(b, ",")]);
    PeelWhen(a != [], b != [], r, s, x, y);
    if a != [] {
      assert r.args[1] == s.args[1] && "," == [','];
      JoinTells(a, b, ',');
    }
  }

  lemma PerDistroTells(u: Unit, v: Unit, distro: Name, x: seq<Record>, y: seq<Record>)
    requires PlainLists(u) && PlainLists(v) && Lead(x) == "services" && Lead(y) == "services"
    requires PerDistro(u, distro) + x == PerDistro(v, distro) + y
    ensures SameAdded(u.distroDeps, v.distroDeps, distro)
    ensures SameAdded(u.distroRuntimeDeps, v.distroRuntimeDeps, distro) && x == y
  {
    if distro == "" {
      LeadJoined([], x);
      LeadJoined([], y);
    } else {
      var a, b := Added(u.distroDeps, distro), Added(v.distroDeps, distro);
      var c, d := Added(u.distroRuntimeDeps, distro), Added(v.distroRuntimeDeps, distro);
      var f, g := When(a != [], Line("distro_deps", [distro, JoinWith(a, ",")])),
        When(c != [], Line("distro_runtime_deps", [distro, JoinWith(c, ",")]));
      var f', g' := When(b != [], Line("distro_deps", [distro, JoinWith(b, ",")])),
        When(d != [], Line("distro_runtime_deps", [distro, JoinWith(d, ",")]));
      Assoc(f, g, x);
      Assoc(f', g', y);
      AddedTells(a, b, "distro_deps", distro, g + x, g' + y);
      AddedTells(c, d, "distro_runtime_deps", distro, x, y);
    }
  }

  lemma {:induction false} FilesAt(fs: seq<File>, i: nat)
    requires i < |fs|
    ensures |OfFiles(fs)| == |fs| && OfFiles(fs)[i] == Line("file", [fs[i].path, fs[i].sum])
    decreases |fs|
  {
    var k := |fs| - 1;
    if k == 0 {
      assert fs[..0] == [];
    } else {
      FilesAt(fs[..k], if i < k then i else 0);
    }
  }

  lemma FilesLead(fs: seq<File>, x: seq<Record>)
    ensures Lead(OfFiles(fs) + x) == if fs == [] then Lead(x) else "file"
  {
    if fs == [] {
      LeadJoined([], x);
    } else {
      FilesAt(fs, 0);
    }
  }

  /** Neither list of files is the longer one, as no file follows it. */
  lemma FilesTell(fs: seq<File>, gs: seq<File>, x: seq<Record>, y: seq<Record>)
    requires OfFiles(fs) + x == OfFiles(gs) + y && Lead(x) != "file" && Lead(y) != "file"
    ensures fs == gs && x == y
  {
    FilesCount(fs);
    FilesCount(gs);
    var v, w := OfFiles(fs) + x, OfFiles(gs) + y;
    assert |fs| < |v| ==> v[|fs|] == x[0];
    assert |gs| < |w| ==> w[|gs|] == y[0];
    forall i | 0 <= i < |fs| ensures v[i].Line? && v[i].tag == "file" { FilesAt(fs, i); }
    forall i | 0 <= i < |gs| ensures w[i].Line? && w[i].tag == "file" { FilesAt(gs, i); }
    assert |fs| == |gs|;
    Peel(OfFiles(fs), OfFiles(gs), x, y);
    forall i | 0 <= i < |fs| ensures fs[i] == gs[i] {
      FilesAt(fs, i);
      FilesAt(gs, i);
      assert OfFiles(fs)[i].args[0] == OfFiles(gs)[i].args[0] && OfFiles(fs)[i].args[1] == OfFiles(gs)[i].args[1];
    }
  }

  lemma FilesCount(fs: seq<File>)
    ensures |OfFiles(fs)| == |fs|
  {
    if fs != [] { FilesAt(fs, 0); }
  }

  /** What follows the files: keys of deps, the fields of an image, or nothing. */
  predicate BehindFiles(x: seq<Record>) {
    Lead(x) == "dep" || Lead(x) == "packages" || Lead(x) == ""
  }

  lemma MetadataTells(u: Unit, v: Unit, x: seq<Record>, y: seq<Record>)
    requires PlainLists(u) && PlainLists(v) && PlainEnvironment(u.environment) && PlainEnvironment(v.environment)
    requires Metadata(u) + x == Metadata(v) + y && BehindFiles(x) && BehindFiles(y)
    ensures SameMetadata(u, v) && x == y
  {
    var e, f := KeyRecords.Environment(u.environment), KeyRecords.Environment(v.environment);
    var r, s := Line("extra", [u.extra]), Line("extra", [v.extra]);
    Regroup(Setup(u, e), When(u.extra != "", r), OfFiles(u.files), x);
    Regroup(Setup(v, f), When(v.extra != "", s), OfFiles(v.files), y);
    Peel(Setup(u, e), Setup(v, f), When(u.extra != "", r) + (OfFiles(u.files) + x),
         When(v.extra != "", s) + (OfFiles(v.files) + y));
    SetupTells(u, v, e, f);
    EnvironmentTells(u.environment, v.environment);
    FilesLead(u.files, x);
    FilesLead(v.files, y);
    PeelWhen(u.extra != "", v.extra != "", r, s, OfFiles(u.files) + x, OfFiles(v.files) + y);
    assert u.extra != "" ==> r.args[0] == s.args[0];
    FilesTell(u.files, v.files, x, y);
  }

  lemma SetupTells(u: Unit, v: Unit, e: string, f: string)
    requires PlainLists(u) && PlainLists(v) && Setup(u, e) == Setup(v, f)
    ensures u.services == v.services && u.conffiles == v.conffiles && e == f
  {
    var r, s := Setup(u, e), Setup(v, f);
    assert forall i :: 0 <= i < 3 ==> r[i].args[0] == s[i].args[0];
    assert r[0].args[0] == JoinWith(u.services, ",") && r[1].args[0] == JoinWith(u.conffiles, ",");
    assert r[2].args[0] == e && "," == [','];
    JoinTells(u.services, v.services, ',');
    JoinTells(u.conffiles, v.conffiles, ',');
  }

  // ---------------------------------------------------------------------
  // Deps
  // ---------------------------------------------------------------------

  lemma {:induction false} DepsOnly(ds: seq<Name>, keys: map<Name, Key>)
    ensures forall r :: r in OfDeps(ds, keys) ==> r.Dep?
  {
    if ds == [] {
    } else {
      DepsOnly(ds[..|ds| - 1], keys);
    }
  }

  /** A dep with a key is written as often as it is listed. */
  lemma {:induction false} DepCount(ds: seq<Name>, keys: map<Name, Key>, d: Name, k: Key)
    ensures multiset(OfDeps(ds, keys))[Dep(d, k)] == if d in keys && keys[d] == k then multiset(ds)[d] else 0
  {
    if ds == [] {
    } else {
      var i := |ds| - 1;
      DepCount(ds[..i], keys, d, k);
      assert ds == ds[..i] + [ds[i]];
    }
  }

  lemma Declared(x: Input, d: Name)
    ensures multiset(SortStrings(DepsForDistro(x.u, x.distro)))[d] == Times(x, d)
  {
  }

  /** The deps of one unit are read before the fields of an image, which are no deps. */
  lemma DepsTell(ds: seq<Name>, es: seq<Name>, keys: map<Name, Key>, keys': map<Name, Key>, x: seq<Record>,
                 y: seq<Record>)
    requires OfDeps(ds, keys) + x == OfDeps(es, keys') + y && Lead(x) != "dep" && Lead(y) != "dep"
    ensures OfDeps(ds, keys) == OfDeps(es, keys') && x == y
  {
    DepsOnly(ds, keys);
    DepsOnly(es, keys');
    var a, b := OfDeps(ds, keys), OfDeps(es, keys');
    var v, w := a + x, b + y;
    assert (forall i :: 0 <= i < |a| ==> v[i] == a[i]) && forall i :: 0 <= i < |b| ==> w[i] == b[i];
    assert (forall i :: 0 <= i < |a| ==> a[i].Dep?) && forall i :: 0 <= i < |b| ==> b[i].Dep?;
    assert |a| < |v| ==> v[|a|] == x[0] && x[0].Line?;
    assert |b| < |w| ==> w[|b|] == y[0] && y[0].Line?;
    assert |a| == |b|;
    Peel(a, b, x, y);
  }

  lemma SameDepRecords(x: Input, y: Input, ds: seq<Name>, es: seq<Name>)
    requires ds == SortStrings(DepsForDistro(x.u, x.distro)) && es == SortStrings(DepsForDistro(y.u, y.distro))
    requires OfDeps(ds, x.keys) == OfDeps(es, y.keys)
    ensures SameDeps(x, y)
  {
    forall d | (Times(x, d) > 0 && d in x.keys) || (Times(y, d) > 0 && d in y.keys)
      ensures Times(x, d) == Times(y, d) && d in x.keys && d in y.keys && x.keys[d] == y.keys[d]
    {
      Declared(x, d);
      Declared(y, d);
      var k := if Times(x, d) > 0 && d in x.keys then x.keys[d] else y.keys[d];
      DepCount(ds, x.keys, d, k);
      DepCount(es, y.keys, d, k);
    }
  }

  // ---------------------------------------------------------------------
  // Images
  // ---------------------------------------------------------------------

  lemma {:induction false} PartitionsAt(ps: seq<Partition>, i: nat)
    requires i < |ps|
    ensures |OfPartitions(ps)| == |ps|
    ensures OfPartitions(ps)[i] ==
            Line("partition", [ShowInt(i), ps[i].title, ps[i].kind, ps[i].size, if ps[i].root then "true" else "false",
                               JoinWith(ps[i].contents, ",")])
    decreases |ps|
  {
    var k := |ps| - 1;
    if k == 0 {
      assert ps[..0] == [];
    } else {
      PartitionsAt(ps[..k], if i < k then i else 0);
    }
  }

  lemma PartitionsTell(ps: seq<Partition>, qs: seq<Partition>)
    requires forall p :: p in ps || p in qs ==> Tokens(p.contents, ',')
    requires OfPartitions(ps) == OfPartitions(qs)
    ensures ps == qs
  {
    if ps != [] { PartitionsAt(ps, 0); }
    if qs != [] { PartitionsAt(qs, 0); }
    assert |ps| == |qs|;
    forall i | 0 <= i < |ps| ensures ps[i] == qs[i] {
      PartitionsAt(ps, i);
      PartitionsAt(qs, i);
      PartitionTells(i, ps[i], qs[i]);
    }
  }

  lemma PartitionTells(i: nat, p: Partition, q: Partition)
    requires Tokens(p.contents, ',') && Tokens(q.contents, ',')
    requires [ShowInt(i), p.title, p.kind, p.size, if p.root then "true" else "false", JoinWith(p.contents, ",")] ==
             [ShowInt(i), q.title, q.kind, q.size, if q.root then "true" else "false", JoinWith(q.contents, ",")]
    ensures p == q
  {
    var a := [ShowInt(i), p.title, p.kind, p.size, if p.root then "true" else "false", JoinWith(p.contents, ",")];
    var b := [ShowInt(i), q.title, q.kind, q.size, if q.root then "true" else "false", JoinWith(q.contents, ",")];
    assert a[1] == b[1] && a[2] == b[2] && a[3] == b[3] && a[4] == b[4] && a[5] == b[5] && "," == [','];
    FlagTells(p.root, q.root);
    JoinTells(p.contents, q.contents, ',');
  }

  lemma RootfsTells(u: Unit, v: Unit)
    requires PlainLists(u) && PlainLists(v) && Rootfs(u) == Rootfs(v)
    ensures multiset(u.artifacts) == multiset(v.artifacts) && u.exclude == v.exclude && u.hostname == v.hostname
    ensures u.timezone == v.timezone && u.locale == v.locale
  {
    var r, s := Rootfs(u), Rootfs(v);
    assert forall i :: 0 <= i < 5 ==> r[i].args[0] == s[i].args[0];
    var a, b := SortStrings(u.artifacts), SortStrings(v.artifacts);
    assert r[0].args[0] == JoinWith(a, ",") && s[0].args[0] == JoinWith(b, ",") && "," == [','];
    assert r[1].args[0] == JoinWith(u.exclude, ",") && r[2].args[0] == u.hostname && r[3].args[0] == u.timezone;
    assert r[4].args[0] == u.locale;
    SortedTokens(u.artifacts, ',');
    SortedTokens(v.artifacts, ',');
    JoinTells(a, b, ',');
    JoinTells(u.exclude, v.exclude, ',');
  }

  lemma SortedTokens(ts: seq<string>, c: char)
    requires Tokens(ts, c)
    ensures Tokens(SortStrings(ts), c)
  {
    forall t | t in SortStrings(ts) ensures t in ts {
      assert t in multiset(SortStrings(ts));
    }
  }

  lemma ImageTells(u: Unit, v: Unit)
    requires PlainLists(u) && PlainLists(v) && u.kind == "image" == v.kind && ImageFields(u) == ImageFields(v)
    ensures SameImage(u, v)
  {
    Peel(Rootfs(u), Rootfs(v), OfPartitions(u.partitions), OfPartitions(v.partitions));
    RootfsTells(u, v);
    PartitionsTell(u.partitions, v.partitions);
  }

  // ---------------------------------------------------------------------
  // Whole units
  // ---------------------------------------------------------------------

  ghost function DepRecords(x: Input): seq<Record> {
    OfDeps(SortStrings(DepsForDistro(x.u, x.distro)), x.keys)
  }

  /** The metadata, the deps and the fields of an image. */
  ghost function Back(x: Input): seq<Record> {
    Metadata(x.u) + (DepRecords(x) + ImageFields(x.u))
  }

  /** All that follows a unit's list of tasks. */
  ghost function Behind(x: Input): seq<Record> {
    Build(x.u) + (PerDistro(x.u, x.distro) + Back(x))
  }

  lemma Nested(a: seq<Record>, b: seq<Record>, c: seq<Record>, d: seq<Record>, e: seq<Record>, f: seq<Record>,
               g: seq<Record>, h: seq<Record>)
    ensures a + b + c + d + e + f + g + h == a + (b + (c + (d + (e + (f + (g + h))))))
  {
    Regroup(a + b + c + d + e, f, g, h);
    Regroup(a + b, c, d, e + (f + (g + h)));
    Assoc(a + b + c + d, e, f + (g + h));
    Assoc(a, b, c + (d + (e + (f + (g + h)))));
  }

  lemma Laid(x: Input)
    ensures RecordsOf(x) ==
            Identity(x.u, x.arch) + (Context(x.srcInputs, x.distro) + (OfTasks(x.u.tasks) + Behind(x)))
  {
    Nested(Identity(x.u, x.arch), Context(x.srcInputs, x.distro), OfTasks(x.u.tasks), Build(x.u),
           PerDistro(x.u, x.distro), Metadata(x.u), DepRecords(x), ImageFields(x.u));
  }

  lemma ImageLead(u: Unit)
    ensures Lead(ImageFields(u)) == if u.kind == "image" then "packages" else ""
  {
  }

  lemma BackLead(x: Input)
    ensures Lead(Back(x)) == "services" && BehindFiles(DepRecords(x) + ImageFields(x.u))
  {
    ImageLead(x.u);
    DepsOnly(SortStrings(DepsForDistro(x.u, x.distro)), x.keys);
    LeadJoined(DepRecords(x), ImageFields(x.u));
    if DepRecords(x) != [] { assert DepRecords(x)[0] in DepRecords(x); }
  }

  lemma BehindLead(x: Input)
    ensures Lead(Behind(x)) == "container"
  {
  }

  lemma BackTells(x: Input, y: Input)
    requires PlainUnit(x.u) && PlainUnit(y.u) && x.u.kind == y.u.kind && Back(x) == Back(y)
    ensures SameMetadata(x.u, y.u) && SameDeps(x, y) && (x.u.kind == "image" ==> SameImage(x.u, y.u))
  {
    BackLead(x);
    BackLead(y);
    MetadataTells(x.u, y.u, DepRecords(x) + ImageFields(x.u), DepRecords(y) + ImageFields(y.u));
    var ds, es := SortStrings(DepsForDistro(x.u, x.distro)), SortStrings(DepsForDistro(y.u, y.distro));
    ImageLead(x.u);
    ImageLead(y.u);
    DepsTell(ds, es, x.keys, y.keys, ImageFields(x.u), ImageFields(y.u));
    SameDepRecords(x, y, ds, es);
    if x.u.kind == "image" { ImageTells(x.u, y.u); }
  }

  lemma BehindTells(x: Input, y: Input)
    requires PlainUnit(x.u) && PlainUnit(y.u) && x.distro == y.distro && Behind(x) == Behind(y)
    ensures SameBuild(x.u, y.u) && SameAdded(x.u.distroDeps, y.u.distroDeps, x.distro)
    ensures SameAdded(x.u.distroRuntimeDeps, y.u.distroRuntimeDeps, x.distro) && Back(x) == Back(y)
  {
    BuildTells(x.u, y.u, PerDistro(x.u, x.distro) + Back(x), PerDistro(y.u, y.distro) + Back(y));
    BackLead(x);
    BackLead(y);
    PerDistroTells(x.u, y.u, x.distro, Back(x), Back(y));
  }

  /** Nothing that is to invalidate the cache is left out of the records. */
  lemma RecordsTell(x: Input, y: Input)
    requires PlainUnit(x.u) && PlainUnit(y.u) && RecordsOf(x) == RecordsOf(y)
    ensures SameInputs(x, y)
  {
    Laid(x);
    Laid(y);
    var t, t' := OfTasks(x.u.tasks) + Behind(x), OfTasks(y.u.tasks) + Behind(y);
    IdentityTells(x.u, y.u, x.arch, y.arch, Context(x.srcInputs, x.distro) + t, Context(y.srcInputs, y.distro) + t');
    BehindLead(x);
    BehindLead(y);
    TasksLead(x.u.tasks, Behind(x));
    TasksLead(y.u.tasks, Behind(y));
    ContextTells(x.srcInputs, x.distro, y.srcInputs, y.distro, t, t');
    TasksTell(x.u.tasks, y.u.tasks, Behind(x), Behind(y));
    BehindTells(x, y);
    BackTells(x, y);
  }

  // ---------------------------------------------------------------------
  // And nothing else is in them
  // ---------------------------------------------------------------------

  /** The listed names that have a key. */
  function Keyed(ds: seq<Name>, keys: map<Name, Key>): seq<Name> {
    if ds == [] then []
    else Keyed(ds[..|ds| - 1], keys) + if ds[|ds| - 1] in keys then [ds[|ds| - 1]] else []
  }

  lemma {:induction false} KeyedIn(ds: seq<Name>, keys: map<Name, Key>, d: Name)
    ensures multiset(Keyed(ds, keys))[d] == if d in keys then multiset(ds)[d] else 0
  {
    if ds == [] {
    } else {
      KeyedIn(ds[..|ds| - 1], keys, d);
      assert ds == ds[..|ds| - 1] + [ds[|ds| - 1]];
    }
  }

  lemma SortedNext(ds: seq<Name>, keys: map<Name, Key>)
    requires ds != [] && Sorted(ds) && Sorted(Keyed(ds[..|ds| - 1], keys))
    ensures Sorted(Keyed(ds[..|ds| - 1], keys) + [ds[|ds| - 1]])
  {
    var k := |ds| - 1;
    var before := Keyed(ds[..k], keys);
    forall i | 0 <= i < |before| ensures Leq(before[i], ds[k]) {
      KeyedIn(ds[..k], keys, before[i]);
      assert before[i] in multiset(before);
      assert before[i] in multiset(ds[..k]);
      var j :| 0 <= j < k && ds[j] == before[i];
    }
  }

  lemma {:induction false} KeyedSorted(ds: seq<Name>, keys: map<Name, Key>)
    requires Sorted(ds)
    ensures Sorted(Keyed(ds, keys)) && OfDeps(Keyed(ds, keys), keys) == OfDeps(ds, keys)
  {
    if ds == [] {
    } else {
      var k := |ds| - 1;
      var before := Keyed(ds[..k], keys);
      KeyedSorted(ds[..k], keys);
      SortedNext(ds, keys);
      assert (before + [ds[k]])[..|before|] == before && before + [] == before;
    }
  }

  lemma SameDepsSameRecords(x: Input, y: Input)
    requires SameDeps(x, y)
    ensures DepRecords(x) == DepRecords(y)
  {
    var ds, es := SortStrings(DepsForDistro(x.u, x.distro)), SortStrings(DepsForDistro(y.u, y.distro));
    var a, b := Keyed(ds, x.keys), Keyed(es, y.keys);
    KeyedSorted(ds, x.keys);
    KeyedSorted(es, y.keys);
    forall d ensures multiset(a)[d] == multiset(b)[d] {
      Declared(x, d);
      Declared(y, d);
      KeyedIn(ds, x.keys, d);
      KeyedIn(es, y.keys, d);
    }
    assert multiset(a) == multiset(b);
    SortedUnique(a, b);
    forall d | d in a ensures d in x.keys && d in y.keys && x.keys[d] == y.keys[d] {
      assert d in multiset(a);
      Declared(x, d);
      KeyedIn(ds, x.keys, d);
      assert Times(x, d) > 0 && d in x.keys;
    }
    OfDepsSame(a, x.keys, y.keys);
  }

  lemma SameImageSameRecords(u: Unit, v: Unit)
    requires u.kind == v.kind && (u.kind == "image" ==> SameImage(u, v))
    ensures ImageFields(u) == ImageFields(v)
  {
    if u.kind == "image" { SortedUnique(SortStrings(u.artifacts), SortStrings(v.artifacts)); }
  }

  lemma SameSections(x: Input, y: Input)
    requires Identity(x.u, x.arch) == Identity(y.u, y.arch)
    requires Context(x.srcInputs, x.distro) == Context(y.srcInputs, y.distro)
    requires OfTasks(x.u.tasks) == OfTasks(y.u.tasks) && Build(x.u) == Build(y.u)
    requires PerDistro(x.u, x.distro) == PerDistro(y.u, y.distro) && Metadata(x.u) == Metadata(y.u)
    requires DepRecords(x) == DepRecords(y) && ImageFields(x.u) == ImageFields(y.u)
    ensures RecordsOf(x) == RecordsOf(y)
  {
  }

  lemma SameFront(u: Unit, v: Unit, arch: string)
    requires SameSource(u, v) && SameBuild(u, v)
    ensures Identity(u, arch) == Identity(v, arch) && Build(u) == Build(v)
  {
  }

  lemma SamePerDistro(u: Unit, v: Unit, distro: Name)
    requires SameAdded(u.distroDeps, v.distroDeps, distro)
    requires SameAdded(u.distroRuntimeDeps, v.distroRuntimeDeps, distro)
    ensures PerDistro(u, distro) == PerDistro(v, distro)
  {
  }

  lemma SameMetadataRecords(u: Unit, v: Unit)
    requires SameMetadata(u, v)
    ensures Metadata(u) == Metadata(v)
  {
  }

  /** What the key does not cover changes no record. */
  lemma SameInputsSameRecords(x: Input, y: Input)
    requires SameInputs(x, y)
    ensures RecordsOf(x) == RecordsOf(y)
  {
    SameFront(x.u, y.u, x.arch);
    SamePerDistro(x.u, y.u, x.distro);
    SameMetadataRecords(x.u, y.u);
    SameDepsSameRecords(x, y);
    SameImageSameRecords(x.u, y.u);
    SameSections(x, y);
  }

  /** Two units write the same records exactly when they agree on every field a key covers: mirrors, compatibility tags,
      what other distros add, deps without a key and the order of deps and artifacts are all that may differ. */
  lemma SameRecordsIff(x: Input, y: Input)
    requires PlainUnit(x.u) && PlainUnit(y.u)
    ensures RecordsOf(x) == RecordsOf(y) <==> SameInputs(x, y)
  {
    if RecordsOf(x) == RecordsOf(y) { RecordsTell(x, y); }
    if SameInputs(x, y) { SameInputsSameRecords(x, y); }
  }

  // ---------------------------------------------------------------------
  // What no key tells
  // ---------------------------------------------------------------------

  /** An empty command at the end of a task writes nothing. */
  lemma EmptyCommandUnseen(ss: seq<Command>)
    ensures OfSteps(ss + [Command("", None, None)]) == OfSteps(ss)
  {
    assert (ss + [Command("", None, None)])[..|ss|] == ss;
  }

  lemma OffersUnseen(x: Input, offers: seq<string>)
    requires JoinWith(offers, ",") == JoinWith(x.u.offers, ",")
    ensures RecordsOf(x.(u := x.u.(offers := offers))) == RecordsOf(x)
  {
    var y := x.(u := x.u.(offers := offers));
    assert SameSource(x.u, y.u) && SameMetadata(x.u, y.u) && Build(x.u) == Build(y.u);
    assert Identity(x.u, x.arch) == Identity(y.u, y.arch);
    SameMetadataRecords(x.u, y.u);
    SameSections(x, y);
  }

  /** A comma inside one name of a list looks like two names. */
  lemma CommaUnseen(x: Input)
    requires x.u.offers == ["a,b"]
    ensures RecordsOf(x.(u := x.u.(offers := ["a", "b"]))) == RecordsOf(x)
  {
    assert ["a", "b"][1..] == ["b"] && JoinWith(["a", "b"], ",") == "a,b" == JoinWith(["a,b"], ",");
    OffersUnseen(x, ["a", "b"]);
  }
}
