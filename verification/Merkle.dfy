/**
 Keys computed along a topological order, for any way of listing the records of a
 node that looks at its declared deps' keys only. internal/resolve/hash.go is the
 instance; here nothing is known of what else the records say.
 */
module Merkle {
  import opened Names
  import opened Graph

  type Key = string

  /** One formatted write: its label and arguments, or the key of a dependency. */
  datatype Record = Line(tag: string, args: seq<string>) | Dep(name: Name, key: Key)

  type Digest = seq<Record> -> Key

  /** The records of a node, given the keys known so far. */
  type Listing = (Name, map<Name, Key>) -> seq<Record>

  type Declared = map<Name, set<Name>>

  /** Both tables say the same of each of the names. */
  predicate Agree(ds: set<Name>, a: map<Name, Key>, b: map<Name, Key>) {
    forall d :: d in ds ==> (d in a <==> d in b) && (d in a ==> a[d] == b[d])
  }

  /** The records of a node depend on the keys of its declared deps alone. */
  ghost predicate Framed(listing: Listing, declared: Declared) {
    forall n, a, b {:trigger listing(n, a), listing(n, b)} :: n in declared && Agree(declared[n], a, b) ==>
      listing(n, a) == listing(n, b)
  }

  /** The recursive definition: a node's key is the digest of its records, in which its deps appear by their keys. */
  ghost predicate IsMerkle(digest: Digest, listing: Listing, declared: Declared, keys: map<Name, Key>) {
    keys.Keys == declared.Keys && forall n {:trigger keys[n]} :: n in declared ==> keys[n] == digest(listing(n, keys))
  }

  /** Every declared dep that names a node is an edge under that very name. */
  ghost predicate SelfResolving(declared: Declared, r: Rel) {
    r.Keys == declared.Keys && forall n {:trigger declared[n]} :: n in declared ==> declared[n] * declared.Keys <= r[n]
  }

  // ---------------------------------------------------------------------
  // Keys along an order
  // ---------------------------------------------------------------------

  /** What the nodes of an order get, each computed from the keys of those before it. */
  function KeysAlong(digest: Digest, listing: Listing, order: seq<Name>): map<Name, Key> {
    if order == [] then map[]
    else
      var k := |order| - 1;
      var before := KeysAlong(digest, listing, order[..k]);
      before[order[k] := digest(listing(order[k], before))]
  }

  /** Every node once, each after those of its declared deps that are nodes. */
  ghost predicate DeclaredFirst(declared: Declared, order: seq<Name>) {
    && NoDup(order) && Elems(order) == declared.Keys
    && forall i {:trigger order[i]} :: 0 <= i < |order| ==> declared[order[i]] * declared.Keys <= Elems(order[..i])
  }

  /** Deps first in the graph is declared deps first, where declared deps resolve to themselves. */
  lemma DepsKeyedFirst(declared: Declared, r: Rel, order: seq<Name>)
    requires SelfResolving(declared, r) && IsTopo(r, order)
    ensures DeclaredFirst(declared, order)
  {
    forall i | 0 <= i < |order| ensures declared[order[i]] * declared.Keys <= Elems(order[..i]) {
      assert order[i] in Elems(order);
      assert r[order[i]] <= Elems(order[..i]);
    }
  }

  lemma AlongStep(digest: Digest, listing: Listing, order: seq<Name>, i: nat)
    requires i < |order|
    ensures var before := KeysAlong(digest, listing, order[..i]);
            KeysAlong(digest, listing, order[..i + 1]) == before[order[i] := digest(listing(order[i], before))]
  {
    assert order[..i + 1][..i] == order[..i];
  }

  lemma {:induction false} AlongKeys(digest: Digest, listing: Listing, order: seq<Name>)
    ensures KeysAlong(digest, listing, order).Keys == Elems(order)
  {
    if order == [] {
    } else {
      var k := |order| - 1;
      AlongKeys(digest, listing, order[..k]);
      assert order[..k + 1] == order;
      PrefixElems(order, k);
    }
  }

  /** A key, once computed, stays. */
  lemma {:induction false} AlongStays(digest: Digest, listing: Listing, order: seq<Name>, i: nat, k: nat)
    requires NoDup(order) && i < k <= |order|
    ensures order[i] in KeysAlong(digest, listing, order[..k])
    ensures KeysAlong(digest, listing, order[..k])[order[i]] ==
            digest(listing(order[i], KeysAlong(digest, listing, order[..i])))
    decreases k
  {
    AlongStep(digest, listing, order, k - 1);
    if i == k - 1 {
    } else {
      assert order[i] != order[k - 1];
      AlongStays(digest, listing, order, i, k - 1);
    }
  }

  /** Listings that say the same of every node give the same keys. */
  lemma {:induction false} SameAlong(digest: Digest, l: Listing, l': Listing, names: set<Name>, order: seq<Name>)
    requires Elems(order) <= names
    requires forall n, keys {:trigger l(n, keys)} {:trigger l'(n, keys)} :: n in names ==> l(n, keys) == l'(n, keys)
    ensures KeysAlong(digest, l, order) == KeysAlong(digest, l', order)
    decreases |order|
  {
    if order == [] {
    } else {
      var k := |order| - 1;
      assert order[k] in Elems(order) && forall d :: d in order[..k] ==> d in Elems(order);
      SameAlong(digest, l, l', names, order[..k]);
      var before := KeysAlong(digest, l, order[..k]);
      assert l(order[k], before) == l'(order[k], before);
    }
  }

  /** A node's records say the same in the end as when it was keyed. */
  lemma RecordsStay(digest: Digest, listing: Listing, declared: Declared, order: seq<Name>, i: nat)
    requires Framed(listing, declared) && DeclaredFirst(declared, order) && i < |order|
    ensures order[i] in declared
    ensures listing(order[i], KeysAlong(digest, listing, order)) ==
            listing(order[i], KeysAlong(digest, listing, order[..i]))
  {
    var n, now, first := order[i], KeysAlong(digest, listing, order), KeysAlong(digest, listing, order[..i]);
    assert n in Elems(order) && order[..|order|] == order;
    AlongKeys(digest, listing, order);
    AlongKeys(digest, listing, order[..i]);
    assert forall d :: d in order[..i] ==> d in Elems(order);
    forall d | d in declared[n] ensures (d in now <==> d in first) && (d in now ==> now[d] == first[d]) {
      if d in declared.Keys {
        assert d in declared[n] * declared.Keys;
        var j :| 0 <= j < i && order[..i][j] == d;
        AlongStays(digest, listing, order, j, |order|);
        AlongStays(digest, listing, order, j, i);
      }
    }
    assert Agree(declared[n], now, first);
  }

  /** Along an order with declared deps first, the keys solve the recursive definition. */
  lemma AlongIsMerkle(digest: Digest, listing: Listing, declared: Declared, order: seq<Name>)
    requires Framed(listing, declared) && DeclaredFirst(declared, order)
    ensures IsMerkle(digest, listing, declared, KeysAlong(digest, listing, order))
  {
    var keys := KeysAlong(digest, listing, order);
    AlongKeys(digest, listing, order);
    forall n | n in declared ensures keys[n] == digest(listing(n, keys)) {
      assert n in Elems(order);
      var i :| 0 <= i < |order| && order[i] == n;
      RecordsStay(digest, listing, declared, order, i);
      AlongStays(digest, listing, order, i, |order|);
      assert order[..|order|] == order;
    }
  }

  /** With an injective digest they do so along no other order. */
  lemma MerkleMeansFirst(digest: Digest, listing: Listing, declared: Declared, order: seq<Name>)
    requires Injective(digest) && NamesDeps(listing, declared) && NoDup(order) && Elems(order) == declared.Keys
    requires IsMerkle(digest, listing, declared, KeysAlong(digest, listing, order))
    ensures DeclaredFirst(declared, order)
  {
    var keys := KeysAlong(digest, listing, order);
    forall i | 0 <= i < |order| ensures declared[order[i]] * declared.Keys <= Elems(order[..i]) {
      var n, before := order[i], KeysAlong(digest, listing, order[..i]);
      assert n in Elems(order) && order[..|order|] == order;
      AlongStays(digest, listing, order, i, |order|);
      assert digest(listing(n, keys)) == digest(listing(n, before));
      AlongKeys(digest, listing, order[..i]);
      forall d | d in declared[n] * declared.Keys ensures d in Elems(order[..i]) {
        assert Dep(d, keys[d]) in listing(n, keys);
        assert Dep(d, keys[d]) in listing(n, before);
      }
    }
  }

  /** One declared dep that is a node and comes later is enough. */
  lemma LateDepBreaks(digest: Digest, listing: Listing, declared: Declared, order: seq<Name>, i: nat, d: Name)
    requires Injective(digest) && NamesDeps(listing, declared) && NoDup(order) && Elems(order) == declared.Keys
    requires i < |order| && order[i] in declared && d in declared[order[i]] && d in declared && d !in order[..i]
    ensures !IsMerkle(digest, listing, declared, KeysAlong(digest, listing, order))
  {
    assert d in declared[order[i]] * declared.Keys;
    if IsMerkle(digest, listing, declared, KeysAlong(digest, listing, order)) {
      MerkleMeansFirst(digest, listing, declared, order);
    }
  }

  predicate SameUpTo(order: seq<Name>, k: nat, a: map<Name, Key>, b: map<Name, Key>)
    requires k <= |order|
  {
    forall i :: 0 <= i < k ==> order[i] in a && order[i] in b && a[order[i]] == b[order[i]]
  }

  lemma PrefixAgrees(declared: Declared, order: seq<Name>, a: map<Name, Key>, b: map<Name, Key>, k: nat)
    requires DeclaredFirst(declared, order) && k < |order| && SameUpTo(order, k, a, b)
    requires a.Keys == b.Keys == declared.Keys && order[k] in declared
    ensures Agree(declared[order[k]], a, b)
  {
    forall d | d in declared[order[k]] && d in declared ensures a[d] == b[d] {
      assert d in declared[order[k]] * declared.Keys;
      var j :| 0 <= j < k && order[..k][j] == d;
      assert order[j] == d;
    }
  }

  lemma SameListing(listing: Listing, declared: Declared, n: Name, a: map<Name, Key>, b: map<Name, Key>)
    requires Framed(listing, declared) && n in declared && Agree(declared[n], a, b)
    ensures listing(n, a) == listing(n, b)
  {
  }

  lemma {:induction false} MerklePrefix(digest: Digest, listing: Listing, declared: Declared, order: seq<Name>,
                                        a: map<Name, Key>, b: map<Name, Key>, k: nat)
    requires Framed(listing, declared) && DeclaredFirst(declared, order) && k <= |order|
    requires IsMerkle(digest, listing, declared, a) && IsMerkle(digest, listing, declared, b)
    ensures SameUpTo(order, k, a, b)
    decreases k
  {
    if k == 0 {
    } else {
      MerklePrefix(digest, listing, declared, order, a, b, k - 1);
      assert order[k - 1] in Elems(order);
      PrefixAgrees(declared, order, a, b, k - 1);
      SameListing(listing, declared, order[k - 1], a, b);
    }
  }

  /** Where some order has declared deps first, the recursive definition has one solution. */
  lemma MerkleUnique(digest: Digest, listing: Listing, declared: Declared, order: seq<Name>, a: map<Name, Key>,
                     b: map<Name, Key>)
    requires Framed(listing, declared) && DeclaredFirst(declared, order)
    requires IsMerkle(digest, listing, declared, a) && IsMerkle(digest, listing, declared, b)
    ensures a == b
  {
    MerklePrefix(digest, listing, declared, order, a, b, |order|);
    forall n | n in a ensures n in b && a[n] == b[n] {
      assert n in Elems(order);
      var i :| 0 <= i < |order| && order[i] == n;
    }
    assert a.Keys == b.Keys;
  }

  // ---------------------------------------------------------------------
  // Equal keys mean equal records
  // ---------------------------------------------------------------------

  ghost predicate Injective(digest: Digest) {
    forall x, y {:trigger digest(x), digest(y)} :: digest(x) == digest(y) ==> x == y
  }

  /** The dep records of a node are its declared deps that have a key, with that key. */
  ghost predicate NamesDeps(listing: Listing, declared: Declared) {
    forall n, keys, d, k {:trigger Dep(d, k) in listing(n, keys)} :: n in declared ==>
      (Dep(d, k) in listing(n, keys) <==> d in declared[n] && d in keys && keys[d] == k)
  }

  /** p leads from a node to a declared dep, and on. */
  predicate DepChain(declared: Declared, p: seq<Name>) {
    |p| > 0 && (forall i :: 0 <= i < |p| ==> p[i] in declared)
    && forall i :: 0 <= i < |p| - 1 ==> p[i + 1] in declared[p[i]]
  }

  /** A node with the same key in two graphs has the same records in both, and so has every declared transitive dep. */
  lemma {:induction false} EqualKeysEqualRecords(digest: Digest, listing: Listing, declared: Declared,
                                                 keys: map<Name, Key>,
      listing': Listing, declared': Declared, keys': map<Name, Key>, p: seq<Name>)
    requires Injective(digest) && NamesDeps(listing, declared) && NamesDeps(listing', declared')
    requires IsMerkle(digest, listing, declared, keys) && IsMerkle(digest, listing', declared', keys')
    requires DepChain(declared, p) && p[0] in keys' && keys[p[0]] == keys'[p[0]]
    ensures var d := p[|p| - 1]; d in keys' && keys[d] == keys'[d] && listing(d, keys) == listing'(d, keys')
    decreases |p|
  {
    var n := p[0];
    assert keys[n] == digest(listing(n, keys)) && keys'[n] == digest(listing'(n, keys'));
    if |p| <= 1 {
    } else {
      var d := p[1];
      assert Dep(d, keys[d]) in listing(n, keys);
      assert Dep(d, keys[d]) in listing'(n, keys');
      assert DepChain(declared, p[1..]);
      EqualKeysEqualRecords(digest, listing, declared, keys, listing', declared', keys', p[1..]);
    }
  }
}
