/**
 BuildProvidesTable of internal/apkindex/provides.go: which index entry answers for
 each name, soname or command.
 */
module Provides {
  import opened Decimals
  import opened Versions

  datatype Package = Package(name: string, version: string, offers: seq<string>)

  /** The token without its "=version" suffix. */
  function Key(token: string): string {
    if token == [] || token[0] == '=' then "" else [token[0]] + Key(token[1..])
  }

  /** e answers for t: by its name or by one of its provides; an empty token counts for nothing. */
  predicate Answers(e: Package, t: string) {
    (e.name != "" && Key(e.name) == t) || exists p :: p in e.offers && p != "" && Key(p) == t
  }

  predicate Answered(es: seq<Package>, t: string, n: nat)
    requires n <= |es|
  {
    exists i :: 0 <= i < n && Answers(es[i], t)
  }

  /** Entry i is, of the first n that answer for t, the first of maximal version. */
  predicate Newest(es: seq<Package>, t: string, n: nat, i: nat)
    requires n <= |es|
  {
    && i < n && Answers(es[i], t)
    && (forall j :: 0 <= j < n && Answers(es[j], t) ==> CompareVersions(es[j].version, es[i].version) <= 0)
    && (forall j :: 0 <= j < i && Answers(es[j], t) ==> CompareVersions(es[j].version, es[i].version) < 0)
  }

  /** The table holds entry positions, as the source's references into the entries do. */
  ghost predicate TableFor(es: seq<Package>, n: nat, table: map<string, nat>)
    requires n <= |es|
  {
    forall t {:trigger t in table} :: (t in table <==> Answered(es, t, n))
      && (t in table ==> Newest(es, t, n, table[t]))
  }

  /** There is only one right table. */
  lemma TableUnique(es: seq<Package>, a: map<string, nat>, b: map<string, nat>)
    requires TableFor(es, |es|, a) && TableFor(es, |es|, b)
    ensures a == b
  {
    forall t ensures t in a <==> t in b {
      assert t in a <==> Answered(es, t, |es|);
      assert t in b <==> Answered(es, t, |es|);
    }
    forall t | t in a ensures a[t] == b[t] {
      assert t in b;
      NewestUnique(es, t, a[t], b[t]);
    }
  }

  lemma NewestUnique(es: seq<Package>, t: string, i: nat, k: nat)
    requires Newest(es, t, |es|, i) && Newest(es, t, |es|, k)
    ensures i == k
  {
    if i < k {
      VersionsAntisymmetric(es[i].version, es[k].version);
    } else if k < i {
      VersionsAntisymmetric(es[k].version, es[i].version);
    }
  }

  // ---------------------------------------------------------------------
  // What the table holds, told from the entries' texts
  // ---------------------------------------------------------------------

  /** A token names t alone or with a version behind it. */
  predicate NamesToken(token: string, t: string) {
    token != "" && (token == t || t + "=" <= token)
  }

  lemma {:induction false} KeyMeans(token: string, t: string)
    ensures Key(token) == t <==> '=' !in t && (token == t || t + "=" <= token)
  {
    if token == "" {
    } else if token[0] == '=' {
      if t != "" { assert (t + "=")[0] == t[0]; }
    } else if t == "" {
      assert ("" + "=")[0] == '=';
    } else {
      KeyMeans(token[1..], t[1..]);
      assert token == [token[0]] + token[1..] && t == [t[0]] + t[1..];
      assert (t + "=")[0] == t[0] && (t + "=")[1..] == t[1..] + "=";
    }
  }

  /** The entry bears the name or offers it, with or without a version. */
  predicate Bears(e: Package, t: string) {
    NamesToken(e.name, t) || exists p :: p in e.offers && NamesToken(p, t)
  }

  lemma AnswersMeans(e: Package, t: string)
    ensures Answers(e, t) <==> '=' !in t && Bears(e, t)
  {
    KeyMeans(e.name, t);
    forall p ensures Key(p) == t <==> '=' !in t && (p == t || t + "=" <= p) { KeyMeans(p, t); }
  }

  /** The table has the names that entries bear, and no others. */
  lemma TableNames(es: seq<Package>, table: map<string, nat>, t: string)
    requires TableFor(es, |es|, table)
    ensures t in table <==> '=' !in t && exists i :: 0 <= i < |es| && Bears(es[i], t)
    ensures t in table ==> table[t] < |es| && Bears(es[table[t]], t)
  {
    forall i | 0 <= i < |es| ensures Answers(es[i], t) <==> '=' !in t && Bears(es[i], t) { AnswersMeans(es[i], t); }
    assert t in table <==> Answered(es, t, |es|);
  }

  /** Both entries bear the name, and the first is an older build of the same version as the second, or has the smaller
      number in the first component that differs. */
  ghost predicate Outdated(es: seq<Package>, t: string, a: nat, b: nat)
    requires a < |es| && b < |es|
  {
    && '=' !in t && Bears(es[a], t) && Bears(es[b], t)
    && (OlderRelease(es[a].version, es[b].version) || SmallerComponent(es[a].version, es[b].version))
  }

  /** Of two entries that bear a name, the table does not hold the one that is the older build of the same version, or
      has the smaller number in the first component that differs. */
  lemma NewerKept(es: seq<Package>, table: map<string, nat>, t: string, a: nat, b: nat)
    requires TableFor(es, |es|, table) && a < |es| && b < |es| && Outdated(es, t, a, b)
    ensures t in table && table[t] != a
  {
    AnswersMeans(es[a], t);
    AnswersMeans(es[b], t);
    assert Answers(es[a], t) && Answers(es[b], t);
    assert Answered(es, t, |es|);
    if OlderRelease(es[a].version, es[b].version) {
      var p, i, j :| IsRelease(es[a].version, p, i) && IsRelease(es[b].version, p, j) && i < j;
      ReleaseDecides(p, i, j);
    } else {
      var q, d, e, x, y :| IsComponent(es[a].version, q, d, x) && IsComponent(es[b].version, q, e, y)
        && Value(d) < Value(e);
      FirstNumberDecides(q, d, e, x, y);
    }
    VersionsAntisymmetric(es[a].version, es[b].version);
  }

  predicate IsRelease(v: string, p: string, n: nat) {
    n < 0x8000_0000_0000_0000 && v == p + "-r" + Show(n)
  }

  ghost predicate OlderRelease(v: string, w: string) {
    exists p, i, j :: IsRelease(v, p, i) && IsRelease(w, p, j) && i < j
  }

  predicate IsComponent(v: string, q: string, d: string, x: string) {
    v == q + d + x && AtComponent(q) && AllDigits(d) && NoDigitFirst(x)
  }

  ghost predicate SmallerComponent(v: string, w: string) {
    exists q, d, e, x, y :: IsComponent(v, q, d, x) && IsComponent(w, q, e, y) && Value(d) < Value(e)
  }

  /** While entry n's tokens are being registered: those in `seen` are, the others are not. */
  ghost predicate Registering(es: seq<Package>, n: nat, table: map<string, nat>, seen: set<string>)
    requires n < |es|
  {
    forall t {:trigger t in table} ::
      if t in seen then t in table && Newest(es, t, n + 1, table[t])
      else (t in table <==> Answered(es, t, n)) && (t in table ==> Newest(es, t, n, table[t]))
  }

  /** The newcomer takes the slot exactly when it is newer than the best so far: a tie keeps the earlier entry. */
  lemma NewestStep(es: seq<Package>, t: string, n: nat, cur: nat)
    requires n < |es| && Answers(es[n], t) && Newest(es, t, n, cur)
    ensures Newest(es, t, n + 1, if CompareVersions(es[n].version, es[cur].version) > 0 then n else cur)
  {
    VersionsAntisymmetric(es[n].version, es[cur].version);
    VersionsAntisymmetric(es[n].version, es[n].version);
    if CompareVersions(es[n].version, es[cur].version) > 0 {
      forall j | 0 <= j < n && Answers(es[j], t) ensures CompareVersions(es[j].version, es[n].version) < 0 {
        VersionsTransitive(es[j].version, es[cur].version, es[n].version);
      }
    }
  }

  lemma NewestFirst(es: seq<Package>, t: string, n: nat)
    requires n < |es| && Answers(es[n], t) && !Answered(es, t, n)
    ensures Newest(es, t, n + 1, n)
  {
    VersionsAntisymmetric(es[n].version, es[n].version);
  }

  /** An entry that registers a token a second time changes nothing. */
  lemma NewestAgain(es: seq<Package>, t: string, n: nat, cur: nat)
    requires n < |es| && Answers(es[n], t) && Newest(es, t, n + 1, cur)
    ensures CompareVersions(es[n].version, es[cur].version) <= 0
  {
  }

  method RegisterToken(es: seq<Package>, n: nat, token: string, table0: map<string, nat>, ghost seen: set<string>)
    returns (table: map<string, nat>, ghost seen': set<string>)
    requires n < |es| && Registering(es, n, table0, seen)
    requires token != "" ==> Answers(es[n], Key(token))
    ensures seen' == if token == "" then seen else seen + {Key(token)}
    ensures Registering(es, n, table, seen')
  {
    table, seen' := table0, seen;
    if token == "" {
      return;
    }
    var t := Key(token);
    seen' := seen + {t};
    if t in table {
      var c := Compare(es[n].version, es[table[t]].version);
      if t in seen {
        NewestAgain(es, t, n, table[t]);
      } else {
        NewestStep(es, t, n, table[t]);
      }
      if c > 0 { table := table[t := n]; }
    } else {
      NewestFirst(es, t, n);
      table := table[t := n];
    }
  }

  method RegisterEntry(es: seq<Package>, n: nat, table0: map<string, nat>) returns (table: map<string, nat>)
    requires n < |es| && TableFor(es, n, table0)
    ensures TableFor(es, n + 1, table)
  {
    var e := es[n];
    ghost var seen: set<string> := {};
    table, seen := RegisterToken(es, n, e.name, table0, seen);
    for k := 0 to |e.offers|
      invariant Registering(es, n, table, seen)
      invariant forall t :: t in seen ==> Answers(e, t)
      invariant e.name != "" ==> Key(e.name) in seen
      invariant forall p :: p in e.offers[..k] && p != "" ==> Key(p) in seen
    {
      assert e.offers[k] in e.offers;
      table, seen := RegisterToken(es, n, e.offers[k], table, seen);
      assert e.offers[..k + 1] == e.offers[..k] + [e.offers[k]];
    }
    assert e.offers[..|e.offers|] == e.offers;
    Registered(es, n, table, seen);
  }

  lemma Registered(es: seq<Package>, n: nat, table: map<string, nat>, seen: set<string>)
    requires n < |es| && Registering(es, n, table, seen)
    requires forall t :: t in seen <==> Answers(es[n], t)
    ensures TableFor(es, n + 1, table)
  {
    forall t {:trigger t in table}
      ensures (t in table <==> Answered(es, t, n + 1)) && (t in table ==> Newest(es, t, n + 1, table[t]))
    {
      AnsweredNext(es, t, n);
      if t in table && t !in seen { NewestKept(es, t, n, table[t]); }
    }
  }

  lemma AnsweredNext(es: seq<Package>, t: string, n: nat)
    requires n < |es|
    ensures Answered(es, t, n + 1) <==> Answered(es, t, n) || Answers(es[n], t)
  {
    if Answered(es, t, n + 1) {
      var i :| 0 <= i < n + 1 && Answers(es[i], t);
    }
  }

  lemma NewestKept(es: seq<Package>, t: string, n: nat, i: nat)
    requires n < |es| && Newest(es, t, n, i) && !Answers(es[n], t)
    ensures Newest(es, t, n + 1, i)
  {
  }

  /** For every token, the first entry in index order among those of maximal version that answer for it. */
  method BuildProvidesTable(es: seq<Package>) returns (table: map<string, nat>)
    ensures TableFor(es, |es|, table)
    ensures forall t :: t in table <==> '=' !in t && exists i :: 0 <= i < |es| && Bears(es[i], t)
    ensures forall t :: t in table ==> table[t] < |es| && Bears(es[table[t]], t)
    ensures forall t, a, b {:trigger Bears(es[a], t), Bears(es[b], t)} ::
              0 <= a < |es| && 0 <= b < |es| && Outdated(es, t, a, b) ==> t in table && table[t] != a
  {
    table := map[];
    for n := 0 to |es|
      invariant TableFor(es, n, table)
    {
      table := RegisterEntry(es, n, table);
    }
    forall t ensures (t in table <==> '=' !in t && exists i :: 0 <= i < |es| && Bears(es[i], t))
      && (t in table ==> table[t] < |es| && Bears(es[table[t]], t))
    {
      TableNames(es, table, t);
    }
    forall t, a, b | 0 <= a < |es| && 0 <= b < |es| && Outdated(es, t, a, b) ensures t in table && table[t] != a {
      NewerKept(es, table, t, a, b);
    }
  }
}
