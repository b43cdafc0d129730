/**
 The "key = value" lines of a package's .PKGINFO: generatePKGINFO
 (internal/artifact/apk.go) writes them, extractPKGINFO (internal/repo/index.go)
 reads them back into a table of value lists.
 */
module Pkginfo {

  datatype Pair = Pair(key: string, val: string)

  function Render(ps: seq<Pair>): string {
    if ps == [] then "" else ps[0].key + " = " + ps[0].val + "\n" + Render(ps[1..])
  }

  /** strings.Split on line ends: one piece more than there are line ends. */
  function Pieces(s: string, cur: string): seq<string>
    decreases |s|
  {
    if s == "" then [cur] else if s[0] == '\n' then [cur] + Pieces(s[1..], "") else Pieces(s[1..], cur + [s[0]])
  }

  /** Where " = " first occurs, or |line|. */
  function Equals(line: string): (i: nat)
    ensures i <= |line| && (i < |line| ==> i + 3 <= |line|)
  {
    if line == "" || " = " <= line then 0 else Equals(line[1..]) + 1
  }

  /** The pair on a line, if there is one. */
  function PairOn(line: string): seq<Pair> {
    var i := Equals(line);
    if i == |line| then [] else [Pair(line[..i], line[i + 3..])]
  }

  function PairsOn(lines: seq<string>): seq<Pair> {
    if lines == [] then [] else PairOn(lines[0]) + PairsOn(lines[1..])
  }

  function Pairs(text: string): seq<Pair> {
    PairsOn(Pieces(text, ""))
  }

  /** All values of a key, in order. */
  function Values(ps: seq<Pair>, key: string): seq<string> {
    if ps == [] then []
    else
      var p := ps[|ps| - 1];
      Values(ps[..|ps| - 1], key) + (if p.key == key then [p.val] else [])
  }

  /** The table holds every key that has a value, with its values in order. */
  ghost predicate TableOf(ps: seq<Pair>, table: map<string, seq<string>>) {
    forall k {:trigger k in table} :: (k in table <==> Values(ps, k) != [])
      && (k in table ==> table[k] == Values(ps, k))
  }

  lemma ValuesAppend(ps: seq<Pair>, p: Pair, key: string)
    ensures Values(ps + [p], key) == Values(ps, key) + (if p.key == key then [p.val] else [])
  {
    assert (ps + [p])[..|ps|] == ps;
  }

  lemma {:induction false} PairsAppend(lines: seq<string>, line: string)
    ensures PairsOn(lines + [line]) == PairsOn(lines) + PairOn(line)
  {
    if lines == [] {
      assert ([] + [line])[1..] == [];
      assert PairsOn([line]) == PairOn(line) + PairsOn([line][1..]);
    } else {
      assert (lines + [line])[1..] == lines[1..] + [line];
      PairsAppend(lines[1..], line);
    }
  }

  lemma TableStep(ps: seq<Pair>, p: Pair, table: map<string, seq<string>>)
    requires TableOf(ps, table)
    ensures TableOf(ps + [p], table[p.key := (if p.key in table then table[p.key] else []) + [p.val]])
  {
    forall k ensures Values(ps + [p], k) == Values(ps, k) + (if p.key == k then [p.val] else []) {
      ValuesAppend(ps, p, k);
    }
  }

  /** One more line. */
  lemma LineStep(lines: seq<string>, i: nat, table: map<string, seq<string>>)
    requires i < |lines| && TableOf(PairsOn(lines[..i]), table)
    ensures PairOn(lines[i]) == [] ==> TableOf(PairsOn(lines[..i + 1]), table)
    ensures |PairOn(lines[i])| == 1 ==>
              var p := PairOn(lines[i])[0];
              TableOf(PairsOn(lines[..i + 1]), table[p.key := (if p.key in table then table[p.key] else []) + [p.val]])
  {
    var ps, more := PairsOn(lines[..i]), PairOn(lines[i]);
    assert lines[..i + 1] == lines[..i] + [lines[i]];
    PairsAppend(lines[..i], lines[i]);
    if |more| == 1 {
      assert more == [more[0]];
      TableStep(ps, more[0], table);
    } else {
      assert more == [] && ps + more == ps;
    }
  }

  method ExtractPkginfo(text: string) returns (table: map<string, seq<string>>)
    ensures TableOf(Pairs(text), table)
  {
    var lines := Pieces(text, "");
    table := map[];
    for i := 0 to |lines|
      invariant TableOf(PairsOn(lines[..i]), table)
    {
      LineStep(lines, i, table);
      var idx := Equals(lines[i]);
      if idx < |lines[i]| {
        var key, val := lines[i][..idx], lines[i][idx + 3..];
        table := table[key := (if key in table then table[key] else []) + [val]];
      }
    }
    assert lines[..|lines|] == lines;
  }

  // ---------------------------------------------------------------------
  // Reading what was written
  // ---------------------------------------------------------------------

  predicate Writable(p: Pair) {
    ' ' !in p.key && '\n' !in p.key && '\n' !in p.val
  }

  lemma {:induction false} PieceOf(line: string, rest: string, cur: string)
    requires '\n' !in line
    ensures Pieces(line + "\n" + rest, cur) == [cur + line] + Pieces(rest, "")
    decreases |line|
  {
    var s := line + "\n" + rest;
    if line == "" {
      assert s[1..] == rest && cur + line == cur;
    } else {
      assert s[1..] == line[1..] + "\n" + rest;
      PieceOf(line[1..], rest, cur + [line[0]]);
      assert cur + [line[0]] + line[1..] == cur + line;
    }
  }

  lemma {:induction false} EqualsAfterKey(key: string, val: string)
    requires ' ' !in key
    ensures Equals(key + (" = " + val)) == |key|
  {
    var s := key + (" = " + val);
    if key == "" {
      assert s == " = " + val;
    } else {
      assert s[0] == key[0] && s[1..] == key[1..] + (" = " + val);
      EqualsAfterKey(key[1..], val);
    }
  }

  lemma PairBack(p: Pair)
    requires Writable(p)
    ensures PairOn(p.key + " = " + p.val) == [p]
  {
    var s := p.key + " = " + p.val;
    assert s == p.key + (" = " + p.val);
    EqualsAfterKey(p.key, p.val);
    assert s[..|p.key|] == p.key && s[|p.key| + 3..] == p.val;
  }

  /** The pairs come back in order, repeated keys included. */
  lemma {:induction false} PairsRoundTrip(ps: seq<Pair>)
    requires forall i :: 0 <= i < |ps| ==> Writable(ps[i])
    ensures Pairs(Render(ps)) == ps
  {
    if ps == [] {
      assert Pieces("", "") == [""];
      assert PairsOn([""]) == PairOn("") + PairsOn([""][1..]);
    } else {
      var p := ps[0];
      var line := p.key + " = " + p.val;
      PieceOf(line, Render(ps[1..]), "");
      assert "" + line == line;
      PairBack(p);
      PairsRoundTrip(ps[1..]);
      var rest := Pieces(Render(ps[1..]), "");
      assert ([line] + rest)[1..] == rest;
    }
  }
}
