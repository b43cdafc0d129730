/**
 markerScanner of internal/device/boottest.go: watch a console stream, written in
 arbitrary chunks, for a marker, keeping only a bounded tail between writes.
 */
module Marker {
  import opened Bytes

  predicate At(s: Data, i: int, m: Data) {
    0 <= i <= |s| - |m| && s[i..i + |m|] == m
  }

  /** bytes.Contains. */
  predicate Contains(s: Data, m: Data) {
    exists i :: 0 <= i <= |s| && At(s, i, m)
  }

  const SLACK: nat := 256

  /** The last cap bytes. */
  function Trim(tail: Data, cap: nat): Data {
    if |tail| > cap then tail[|tail| - cap..] else tail
  }

  datatype Scan = Scan(tail: Data, found: bool)

  /** One write. */
  function Wrote(marker: Data, s: Scan, p: Data): Scan {
    var tail := s.tail + p;
    Scan(Trim(tail, |marker| + SLACK), s.found || Contains(tail, marker))
  }

  function Run(marker: Data, chunks: seq<Data>): Scan {
    if chunks == [] then Scan([], false)
    else Wrote(marker, Run(marker, chunks[..|chunks| - 1]), chunks[|chunks| - 1])
  }

  lemma AtAfter(m: Data, d: Data, e: Data, i: nat)
    requires i <= |e|
    ensures At(d + e, |d| + i, m) <==> At(e, i, m)
  {
    if i + |m| <= |e| {
      assert (d + e)[|d| + i..|d| + i + |m|] == e[i..i + |m|];
    }
  }

  lemma AtBefore(m: Data, d: Data, e: Data, i: nat)
    requires i + |m| <= |d|
    ensures At(d + e, i, m) <==> At(d, i, m)
  {
    assert (d + e)[i..i + |m|] == d[i..i + |m|];
  }

  /** An occurrence after new bytes lies in the old stream, or within a tail that spans a marker. */
  lemma OccursAcross(m: Data, d: Data, t: Data, p: Data)
    requires d == [] || |t| >= |m|
    ensures Contains(d + t + p, m) <==> Contains(d + t, m) || Contains(t + p, m)
  {
    var all := d + t + p;
    assert all == d + (t + p);
    if i :| 0 <= i <= |all| && At(all, i, m) {
      if i + |m| <= |d + t| {
        AtBefore(m, d + t, p, i);
      } else {
        AtAfter(m, d, t + p, i - |d|);
      }
    }
    if i :| 0 <= i <= |d + t| && At(d + t, i, m) {
      AtBefore(m, d + t, p, i);
    }
    if i :| 0 <= i <= |t + p| && At(t + p, i, m) {
      AtAfter(m, d, t + p, i);
    }
  }

  /** The tail is the end of the stream; the part before it is empty or the tail still spans a marker. */
  ghost predicate TailOf(marker: Data, stream: Data, tail: Data) {
    |tail| <= |stream| && stream[|stream| - |tail|..] == tail && (|tail| == |stream| || |tail| == |marker| + SLACK)
  }

  lemma TailKept(marker: Data, stream: Data, tail: Data, p: Data)
    requires TailOf(marker, stream, tail)
    ensures TailOf(marker, stream + p, Trim(tail + p, |marker| + SLACK))
  {
    var all, t := stream + p, tail + p;
    assert all[|all| - |t|..] == t;
    assert all == all[..|all| - |t|] + t;
    var u := Trim(t, |marker| + SLACK);
    assert all[|all| - |u|..] == u;
  }

  /** However the stream is chunked, the marker is reported exactly when it occurs in what was written. */
  lemma {:induction false} RunFindsMarker(marker: Data, chunks: seq<Data>)
    ensures Run(marker, chunks).found <==> chunks != [] && Contains(Concat(chunks), marker)
    ensures TailOf(marker, Concat(chunks), Run(marker, chunks).tail)
    ensures |Run(marker, chunks).tail| <= |marker| + SLACK
  {
    if chunks == [] {
    } else {
      var before, p := chunks[..|chunks| - 1], chunks[|chunks| - 1];
      var stream, s := Concat(before), Run(marker, before);
      RunFindsMarker(marker, before);
      assert chunks == before + [p];
      ConcatAppend(before, p);
      TailKept(marker, stream, s.tail, p);
      TailSuffices(marker, stream, s.tail, p);
      if marker == [] { assert At(s.tail + p, 0, marker); }
      assert stream == [] && Contains(stream, marker) ==> marker == [];
    }
  }

  lemma TailSuffices(marker: Data, stream: Data, tail: Data, p: Data)
    requires TailOf(marker, stream, tail)
    ensures Contains(stream + p, marker) <==> Contains(stream, marker) || Contains(tail + p, marker)
  {
    var d := stream[..|stream| - |tail|];
    assert stream == d + tail;
    OccursAcross(marker, d, tail, p);
  }

  lemma AppendChunk(marker: Data, chunks: seq<Data>, p: Data)
    ensures Run(marker, chunks + [p]) == Wrote(marker, Run(marker, chunks), p)
    ensures Concat(chunks + [p]) == Concat(chunks) + p
    ensures Run(marker, chunks + [p]).found <==> Contains(Concat(chunks + [p]), marker)
    ensures |Run(marker, chunks + [p]).tail| <= |marker| + SLACK
  {
    assert (chunks + [p])[..|chunks|] == chunks;
    ConcatAppend(chunks, p);
    RunFindsMarker(marker, chunks + [p]);
  }

  /** The stream is the three parts in a row. */
  predicate Reads(stream: Data, before: Data, part: Data, behind: Data) {
    stream == before + part + behind
  }

  ghost predicate Occurs(stream: Data, marker: Data) {
    exists before, behind :: Reads(stream, before, marker, behind)
  }

  /** The tail is the whole stream, or its last cap bytes. */
  ghost predicate EndsIn(stream: Data, tail: Data, cap: nat) {
    exists before :: Reads(stream, before, tail, []) && (before == [] || |tail| == cap)
  }

  lemma ContainsMeans(marker: Data, stream: Data)
    ensures Contains(stream, marker) <==> Occurs(stream, marker)
  {
    if i :| 0 <= i <= |stream| && At(stream, i, marker) {
      assert Reads(stream, stream[..i], marker, stream[i + |marker|..]);
    }
    if before, behind :| Reads(stream, before, marker, behind) {
      assert stream[|before|..|before| + |marker|] == marker;
      assert At(stream, |before|, marker);
    }
  }

  lemma TailMeans(marker: Data, stream: Data, tail: Data)
    requires TailOf(marker, stream, tail)
    ensures EndsIn(stream, tail, |marker| + 256)
  {
    assert Reads(stream, stream[..|stream| - |tail|], tail, []);
  }

  /** After any number of writes: found exactly when the marker stands somewhere in all that was written, and the tail
      is all of that or its last bytes, 256 more than the marker has. */
  lemma RunMeans(marker: Data, chunks: seq<Data>)
    requires chunks != []
    ensures Run(marker, chunks).found <==> Occurs(Concat(chunks), marker)
    ensures EndsIn(Concat(chunks), Run(marker, chunks).tail, |marker| + 256)
  {
    RunFindsMarker(marker, chunks);
    ContainsMeans(marker, Concat(chunks));
    TailMeans(marker, Concat(chunks), Run(marker, chunks).tail);
  }

  class MarkerScanner {
    const marker: Data
    var tail: Data
    var found: bool
    var teed: Data
    ghost var chunks: seq<Data>

    ghost predicate Valid()
      reads this
    {
      Scan(tail, found) == Run(marker, chunks) && teed == Concat(chunks)
    }

    constructor (marker: Data)
      ensures Valid() && this.marker == marker && chunks == []
    {
      this.marker, tail, found, teed, chunks := marker, [], false, [], [];
    }

    /** After any number of writes the channel is closed exactly when the marker has gone by; it is never reopened. */
    method Write(p: Data) returns (n: nat)
      requires Valid()
      modifies this
      ensures Valid() && chunks == old(chunks) + [p] && n == |p|
      ensures found <==> Contains(Concat(chunks), marker)
      ensures old(found) ==> found
      ensures |tail| <= |marker| + 256 && teed == old(teed) + p
    {
      AppendChunk(marker, chunks, p);
      teed := teed + p;
      tail := tail + p;
      if Contains(tail, marker) {
        found := true;
      }
      var cap := |marker| + SLACK;
      if |tail| > cap {
        tail := tail[|tail| - cap..];
      }
      n := |p|;
      assert Scan(tail, found) == Wrote(marker, Run(marker, chunks), p);
      chunks := chunks + [p];
    }
  }
}
