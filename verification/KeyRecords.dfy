/**
 What UnitHash of internal/resolve/hash.go writes to its running digest: the list of
 records of a unit. The contents of files a unit refers to are part of the unit here.
 */
module KeyRecords {
  import opened Names
  import opened Decimals
  import opened Merkle
  import Waves

  datatype Option<T> = None | Some(value: T)

  datatype Install = Install(kind: string, src: string, dest: string, mode: string, baseDir: string,
    content: Option<string>)
  datatype Command = Command(command: string, fn: Option<string>, install: Option<Install>)
  datatype Task = Task(name: string, container: string, distros: seq<string>, steps: seq<Command>)
  datatype Partition = Partition(title: string, kind: string, size: string, root: bool, contents: seq<string>)
  datatype File = File(path: string, sum: string)

  datatype Unit = Unit(
    name: Name, version: string, release: int, kind: string, scope: string, distro: Name,
    description: string, license: string, source: string, mirrors: seq<string>,
    sha256: string, apkChecksum: string, passthroughAPK: string, tag: string, branch: string,
    patches: seq<string>, tasks: seq<Task>, container: string, containerArch: string, sandbox: bool, shell: string,
    offers: seq<string>, replaced: seq<string>, deps: seq<Name>, runtimeDeps: seq<Name>,
    distroDeps: map<Name, seq<Name>>, distroRuntimeDeps: map<Name, seq<Name>>,
    services: seq<string>, conffiles: seq<string>, environment: map<Name, string>, extra: string, files: seq<File>,
    artifacts: seq<Name>, exclude: seq<string>, hostname: string, timezone: string, locale: string,
    partitions: seq<Partition>)

  function JoinWith(ts: seq<string>, sep: string): string {
    if ts == [] then "" else if |ts| == 1 then ts[0] else ts[0] + sep + JoinWith(ts[1..], sep)
  }

  /** unit.Deps, then what the consuming distro adds. */
  function DepsForDistro(u: Unit, distro: Name): seq<Name> {
    if distro == "" || distro !in u.distroDeps then u.deps else u.deps + u.distroDeps[distro]
  }

  // ---------------------------------------------------------------------
  // The records of a unit
  // ---------------------------------------------------------------------

  function When(c: bool, r: Record): seq<Record> {
    if c then [r] else []
  }

  function Naming(u: Unit, arch: string): seq<Record> {
    [Line("name", [u.name]), Line("version", [u.version]), Line("release", [ShowInt(u.release)]),
     Line("class", [u.kind]), Line("scope", [u.scope]), Line("arch", [arch]), Line("description", [u.description]),
     Line("license", [u.license]), Line("source", [u.source]), Line("sha256", [u.sha256])]
  }

  function Origin(u: Unit): seq<Record> {
    [Line("passthrough_apk", [u.passthroughAPK]), Line("tag", [u.tag]), Line("branch", [u.branch]),
     Line("patches", [JoinWith(u.patches, "|")])]
  }

  function Identity(u: Unit, arch: string): seq<Record> {
    Naming(u, arch) + When(u.apkChecksum != "", Line("apk_checksum", [u.apkChecksum])) + Origin(u)
  }

  function Context(srcInputs: string, distro: Name): seq<Record> {
    When(srcInputs != "", Line("src_state", [srcInputs])) + When(distro != "", Line("effective_distro", [distro]))
  }

  /** The step, and the sum of the file it installs if that can be read. */
  function OfInstall(i: Install): seq<Record> {
    [Line("step:install", [i.kind, i.src, i.dest, i.mode, i.baseDir])]
    + if i.content.Some? then [Line("step:install:src-sha256", [i.content.value])] else []
  }

  function OfStep(s: Command): seq<Record> {
    When(s.command != "", Line("step:cmd", [s.command]))
    + (if s.fn.Some? then [Line("step:fn", [s.fn.value])] else [])
    + (if s.install.Some? then OfInstall(s.install.value) else [])
  }

  function OfSteps(ss: seq<Command>): seq<Record> {
    if ss == [] then [] else OfSteps(ss[..|ss| - 1]) + OfStep(ss[|ss| - 1])
  }

  function TaskHead(t: Task): seq<Record> {
    [Line("task", [t.name, t.container])] + When(t.distros != [], Line("task_distros", [JoinWith(t.distros, ",")]))
  }

  function OfTask(t: Task): seq<Record> {
    TaskHead(t) + OfSteps(t.steps)
  }

  function OfTasks(ts: seq<Task>): seq<Record> {
    if ts == [] then [] else OfTasks(ts[..|ts| - 1]) + OfTask(ts[|ts| - 1])
  }

  function Build(u: Unit): seq<Record> {
    [Line("container", [u.container]), Line("container_arch", [u.containerArch]),
     Line("sandbox", [if u.sandbox then "true" else "false"]), Line("shell", [u.shell]),
     Line("provides", [JoinWith(u.offers, ",")]), Line("replaces", [JoinWith(u.replaced, ",")]),
     Line("runtime_deps", [JoinWith(u.runtimeDeps, ",")])]
  }

  function Added(m: map<Name, seq<Name>>, distro: Name): seq<Name> {
    if distro in m then m[distro] else []
  }

  function PerDistro(u: Unit, distro: Name): seq<Record> {
    if distro == "" then []
    else
      When(Added(u.distroDeps, distro) != [], Line("distro_deps", [distro, JoinWith(Added(u.distroDeps, distro), ",")]))
      + When(Added(u.distroRuntimeDeps, distro) != [],
        Line("distro_runtime_deps", [distro, JoinWith(Added(u.distroRuntimeDeps, distro), ",")]))
  }

  /** k=v for each listed key. */
  function Assignments(ks: seq<Name>, m: map<Name, string>): seq<string>
    requires Elems(ks) <= m.Keys
  {
    seq(|ks|, i requires 0 <= i < |ks| => assert ks[i] in Elems(ks); ks[i] + "=" + m[ks[i]])
  }

  ghost function Environment(m: map<Name, string>): string {
    JoinWith(Assignments(Waves.Listing(m.Keys), m), ",")
  }

  function OfFiles(fs: seq<File>): seq<Record> {
    if fs == [] then [] else OfFiles(fs[..|fs| - 1]) + [Line("file", [fs[|fs| - 1].path, fs[|fs| - 1].sum])]
  }

  function Setup(u: Unit, env: string): seq<Record> {
    [Line("services", [JoinWith(u.services, ",")]), Line("conffiles", [JoinWith(u.conffiles, ",")]),
     Line("environment", [env])]
  }

  ghost function Metadata(u: Unit): seq<Record> {
    Setup(u, Environment(u.environment)) + When(u.extra != "", Line("extra", [u.extra])) + OfFiles(u.files)
  }

  /** The keys of the declared deps that have one. */
  function OfDeps(ds: seq<Name>, keys: map<Name, Key>): seq<Record> {
    if ds == [] then []
    else
      var d := ds[|ds| - 1];
      OfDeps(ds[..|ds| - 1], keys) + (if d in keys then [Dep(d, keys[d])] else [])
  }

  function OfPartitions(ps: seq<Partition>): seq<Record> {
    if ps == [] then []
    else
      var i := |ps| - 1;
      OfPartitions(ps[..i])
      + [Line("partition", [ShowInt(i), ps[i].title, ps[i].kind, ps[i].size, if ps[i].root then "true" else "false",
                            JoinWith(ps[i].contents, ",")])]
  }

  function Rootfs(u: Unit): seq<Record> {
    [Line("packages", [JoinWith(SortStrings(u.artifacts), ",")]), Line("exclude", [JoinWith(u.exclude, ",")]),
     Line("hostname", [u.hostname]), Line("timezone", [u.timezone]), Line("locale", [u.locale])]
  }

  function ImageFields(u: Unit): seq<Record> {
    if u.kind != "image" then [] else Rootfs(u) + OfPartitions(u.partitions)
  }

  function Head(u: Unit, arch: string, srcInputs: string, distro: Name): seq<Record> {
    Identity(u, arch) + Context(srcInputs, distro) + OfTasks(u.tasks)
  }

  /** Everything but the deps' keys. */
  ghost function Front(u: Unit, arch: string, srcInputs: string, distro: Name): seq<Record> {
    Head(u, arch, srcInputs, distro) + Build(u) + PerDistro(u, distro) + Metadata(u)
  }

  ghost function Records(u: Unit, arch: string, keys: map<Name, Key>, srcInputs: string, distro: Name): seq<Record> {
    Front(u, arch, srcInputs, distro) + OfDeps(SortStrings(DepsForDistro(u, distro)), keys) + ImageFields(u)
  }

  lemma Assoc(a: seq<Record>, b: seq<Record>, c: seq<Record>)
    ensures a + b + c == a + (b + c)
  {
  }

  lemma {:induction false} OfDepsSame(ds: seq<Name>, a: map<Name, Key>, b: map<Name, Key>)
    requires Agree(Elems(ds), a, b)
    ensures OfDeps(ds, a) == OfDeps(ds, b)
  {
    if ds == [] {
    } else {
      var rest := ds[..|ds| - 1];
      assert Elems(rest) <= Elems(ds) && ds[|ds| - 1] in Elems(ds);
      OfDepsSame(rest, a, b);
    }
  }
}
