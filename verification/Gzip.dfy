/**
 Splitting concatenated gzip members (internal/gzipframe/gzipframe.go) by the
 framing of sections 2.2, 2.3 and 2.3.1 of RFC 1952. Where a deflate body ends is
 not recorded in the file, so the decompressor is a parameter: it answers how many
 bytes it consumed.
 */
module Gzip {
  import opened Bytes

  datatype Inflated = Consumed(n: nat) | Corrupt

  type Inflater = Data -> Inflated

  /** It consumes bytes that are there, and looks at no others. */
  ghost predicate SelfDelimiting(f: Inflater) {
    forall s, t {:trigger f(s), f(t)} :: f(s).Consumed? ==>
      f(s).n <= |s| && (f(s).n <= |t| && t[..f(s).n] == s[..f(s).n] ==> f(t) == f(s))
  }

  datatype Fault =
    | TruncatedExtra | TruncatedHeader | BadDeflate | TruncatedTrailer
    | TrailingBytes(count: nat) | NoSuchStream(found: nat)

  datatype Result<T> = Ok(value: T) | Err(fault: Fault)

  // ---------------------------------------------------------------------
  // One member
  // ---------------------------------------------------------------------

  predicate Magic(d: Data, pos: nat) {
    pos + 10 <= |d| && d[pos] == 0x1f && d[pos + 1] == 0x8b
  }

  /** Bit k of the flag byte. */
  predicate Flag(d: Data, pos: nat, weight: int)
    requires pos + 10 <= |d| && weight > 0
  {
    (d[pos + 3] as int / weight) % 2 == 1
  }

  const FHCRC := 2
  const FEXTRA := 4
  const FNAME := 8
  const FCOMMENT := 16

  /** Just past the next zero byte, or past the end. */
  function PastZero(d: Data, h: nat): (r: nat)
    ensures r > h
    decreases |d| - h
  {
    if h < |d| && d[h] != 0 then PastZero(d, h + 1) else h + 1
  }

  function ExtraEnd(d: Data, pos: nat): Result<nat>
    requires pos + 10 <= |d|
  {
    var h := pos + 10;
    if !Flag(d, pos, FEXTRA) then Ok(h)
    else if h + 2 > |d| then Err(TruncatedExtra)
    else Ok(h + 2 + d[h] as int + 256 * d[h + 1] as int)
  }

  function NamesEnd(d: Data, pos: nat, h: nat): (r: nat)
    requires pos + 10 <= |d|
    ensures r >= h
  {
    var a := if Flag(d, pos, FNAME) then PastZero(d, h) else h;
    var b := if Flag(d, pos, FCOMMENT) then PastZero(d, a) else a;
    if Flag(d, pos, FHCRC) then b + 2 else b
  }

  function HeaderEnd(d: Data, pos: nat): (r: Result<nat>)
    requires pos + 10 <= |d|
    ensures r.Ok? ==> pos + 10 <= r.value <= |d|
  {
    var x := ExtraEnd(d, pos);
    if x.Err? then x
    else
      var h := NamesEnd(d, pos, x.value);
      if h > |d| then Err(TruncatedHeader) else Ok(h)
  }

  lemma {:induction false} PastZeroAt(d: Data, h: nat, e: nat)
    requires h <= e < |d| && d[e] == 0 && forall k :: h <= k < e ==> d[k] != 0
    ensures PastZero(d, h) == e + 1
    decreases e - h
  {
    if h == e {
    } else {
      PastZeroAt(d, h + 1, e);
    }
  }

  /** Where a header ends that has none of the optional fields, or one: the check sum (flag 2) takes two bytes, the
      extra field (4) its length and that many bytes, the name (8) and the comment (16) the bytes up to a zero. */
  lemma HeaderWithOne(d: Data, e: nat)
    requires |d| >= 10
    ensures d[3] == 0 ==> HeaderEnd(d, 0) == Ok(10)
    ensures d[3] == 2 && |d| >= 12 ==> HeaderEnd(d, 0) == Ok(12)
    ensures d[3] == 4 && |d| >= 12 && |d| >= 12 + d[10] as int + 256 * d[11] as int ==>
              HeaderEnd(d, 0) == Ok(12 + d[10] as int + 256 * d[11] as int)
    ensures (d[3] == 8 || d[3] == 16) && 10 <= e < |d| && d[e] == 0 && (forall k :: 10 <= k < e ==> d[k] != 0) ==>
              HeaderEnd(d, 0) == Ok(e + 1)
  {
    if 10 <= e < |d| && d[e] == 0 && forall k :: 10 <= k < e ==> d[k] != 0 { PastZeroAt(d, 10, e); }
  }

  /** With all of them: the extra field, the name up to m, the comment up to c, the check sum. */
  lemma HeaderWithAll(d: Data, m: nat, c: nat)
    requires |d| >= 12 && d[3] == 0x1e
    requires 12 + d[10] as int + 256 * d[11] as int <= m < c && c + 3 <= |d| && d[m] == 0 && d[c] == 0
    requires forall k :: 12 + d[10] as int + 256 * d[11] as int <= k < m ==> d[k] != 0
    requires forall k :: m < k < c ==> d[k] != 0
    ensures HeaderEnd(d, 0) == Ok(c + 3)
  {
    PastZeroAt(d, 12 + d[10] as int + 256 * d[11] as int, m);
    PastZeroAt(d, m + 1, c);
  }

  function MemberEnd(f: Inflater, d: Data, pos: nat): (r: Result<nat>)
    requires pos + 10 <= |d|
    ensures r.Ok? ==> pos + 18 <= r.value <= |d|
  {
    var h := HeaderEnd(d, pos);
    if h.Err? then h
    else
      match f(d[h.value..])
      case Corrupt => Err(BadDeflate)
      case Consumed(n) => if h.value + n + 8 > |d| then Err(TruncatedTrailer) else Ok(h.value + n + 8)
  }

  // ---------------------------------------------------------------------
  // Scanning
  // ---------------------------------------------------------------------

  datatype Bound = Bound(start: nat, end: nat)

  function Prepend(bs: seq<Bound>, r: Result<seq<Bound>>): Result<seq<Bound>> {
    if r.Err? then r else Ok(bs + r.value)
  }

  lemma PrependNone(bs: seq<Bound>, r: Result<seq<Bound>>)
    ensures Prepend([], r) == r && Prepend(bs, Ok([])) == Ok(bs)
  {
    if r.Ok? { assert [] + r.value == r.value; }
    assert bs + [] == bs;
  }

  lemma PrependMore(bs: seq<Bound>, b: Bound, r: Result<seq<Bound>>)
    ensures Prepend(bs + [b], r) == Prepend(bs, Prepend([b], r))
  {
    if r.Ok? { assert bs + [b] + r.value == bs + ([b] + r.value); }
  }

  function Scan(f: Inflater, d: Data, pos: nat): Result<seq<Bound>>
    decreases |d| - pos
  {
    if !Magic(d, pos) then Ok([])
    else
      var e := MemberEnd(f, d, pos);
      if e.Err? then Err(e.fault)
      else
        Prepend([Bound(pos, e.value)], Scan(f, d, e.value))
  }

  /** The bounds follow one another from pos, each inside the data. */
  predicate Contiguous(bs: seq<Bound>, pos: nat, len: nat) {
    if bs == [] then pos <= len
    else bs[0].start == pos && pos < bs[0].end <= len && Contiguous(bs[1..], bs[0].end, len)
  }

  lemma {:induction false} ScanContiguous(f: Inflater, d: Data, pos: nat)
    requires pos <= |d|
    ensures Scan(f, d, pos).Ok? ==> Contiguous(Scan(f, d, pos).value, pos, |d|)
    decreases |d| - pos
  {
    if Magic(d, pos) {
      var e := MemberEnd(f, d, pos);
      if e.Ok? {
        ScanContiguous(f, d, e.value);
        var rest := Scan(f, d, e.value);
        if rest.Ok? { assert ([Bound(pos, e.value)] + rest.value)[1..] == rest.value; }
      }
    }
  }

  /** Every read is in range; the bounds are contiguous from offset 0. */
  method Boundaries(f: Inflater, d: Data) returns (r: Result<seq<Bound>>)
    ensures r == Scan(f, d, 0)
    ensures r.Ok? ==> Contiguous(r.value, 0, |d|)
  {
    var out: seq<Bound> := [];
    var pos := 0;
    ScanContiguous(f, d, 0);
    PrependNone([], Scan(f, d, 0));
    while pos < |d|
      invariant pos <= |d|
      invariant Scan(f, d, 0) == Prepend(out, Scan(f, d, pos))
    {
      if pos + 10 > |d| || d[pos] != 0x1f || d[pos + 1] != 0x8b {
        break;
      }
      var end := ReadMember(f, d, pos);
      if end.Err? {
        return Err(end.fault);
      }
      PrependMore(out, Bound(pos, end.value), Scan(f, d, end.value));
      out, pos := out + [Bound(pos, end.value)], end.value;
    }
    PrependNone(out, Ok([]));
    r := Ok(out);
  }

  /** Header, deflate body, and the eight bytes of the trailer. */
  method ReadMember(f: Inflater, d: Data, pos: nat) returns (r: Result<nat>)
    requires pos + 10 <= |d|
    ensures r == MemberEnd(f, d, pos)
  {
    var hdr := ReadHeader(d, pos);
    if hdr.Err? {
      return hdr;
    }
    var body := f(d[hdr.value..]);
    if body.Corrupt? {
      return Err(BadDeflate);
    }
    var end := hdr.value + body.n + 8;
    if end > |d| {
      return Err(TruncatedTrailer);
    }
    r := Ok(end);
  }

  /** Step over the optional fields. */
  method ReadHeader(d: Data, pos: nat) returns (r: Result<nat>)
    requires pos + 10 <= |d|
    ensures r == HeaderEnd(d, pos)
  {
    var hdrEnd := pos + 10;
    if Flag(d, pos, FEXTRA) {
      if hdrEnd + 2 > |d| {
        return Err(TruncatedExtra);
      }
      hdrEnd := hdrEnd + 2 + d[hdrEnd] as int + 256 * d[hdrEnd + 1] as int;
    }
    if Flag(d, pos, FNAME) {
      hdrEnd := SkipString(d, hdrEnd);
    }
    if Flag(d, pos, FCOMMENT) {
      hdrEnd := SkipString(d, hdrEnd);
    }
    if Flag(d, pos, FHCRC) {
      hdrEnd := hdrEnd + 2;
    }
    if hdrEnd > |d| {
      return Err(TruncatedHeader);
    }
    r := Ok(hdrEnd);
  }

  method SkipString(d: Data, h0: nat) returns (h: nat)
    ensures h == PastZero(d, h0)
  {
    h := h0;
    while h < |d| && d[h] != 0
      invariant h >= h0 && PastZero(d, h) == PastZero(d, h0)
      decreases |d| - h
    {
      h := h + 1;
    }
    h := h + 1;
  }

  function Cut(d: Data, bs: seq<Bound>): seq<Data>
    requires forall i :: 0 <= i < |bs| ==> bs[i].start <= bs[i].end <= |d|
  {
    seq(|bs|, i requires 0 <= i < |bs| => d[bs[i].start..bs[i].end])
  }

  /** What Streams answers: the members, if they are all there is. */
  ghost function Split(f: Inflater, d: Data): Result<seq<Data>> {
    var r := Scan(f, d, 0);
    if r.Err? then Err(r.fault)
    else
      ScanContiguous(f, d, 0);
      ContiguousBounds(r.value, 0, |d|);
      var consumed := End(r.value, 0);
      if consumed != |d| then Err(TrailingBytes(|d| - consumed)) else Ok(Cut(d, r.value))
  }

  function End(bs: seq<Bound>, pos: nat): nat {
    if bs == [] then pos else bs[|bs| - 1].end
  }

  lemma {:induction false} ContiguousBounds(bs: seq<Bound>, pos: nat, len: nat)
    requires Contiguous(bs, pos, len)
    ensures forall i :: 0 <= i < |bs| ==> bs[i].start <= bs[i].end <= len
    ensures pos <= End(bs, pos) <= len
  {
    if bs == [] {
    } else {
      ContiguousBounds(bs[1..], bs[0].end, len);
      forall i | 0 <= i < |bs| ensures bs[i].start <= bs[i].end <= len {
        if i > 0 { assert bs[i] == bs[1..][i - 1]; }
      }
      if |bs| > 1 { assert bs[1..][|bs| - 2] == bs[|bs| - 1]; }
    }
  }

  method Streams(f: Inflater, d: Data) returns (r: Result<seq<Data>>)
    ensures r == Split(f, d)
  {
    var b := Boundaries(f, d);
    if b.Err? {
      return Err(b.fault);
    }
    ContiguousBounds(b.value, 0, |d|);
    var consumed := if |b.value| > 0 then b.value[|b.value| - 1].end else 0;
    if consumed != |d| {
      return Err(TrailingBytes(|d| - consumed));
    }
    r := Ok(Cut(d, b.value));
  }

  /** What Stream answers: a member counts even where other bytes trail the last one. */
  ghost function Pick(f: Inflater, d: Data, n: nat): Result<Data> {
    var r := Scan(f, d, 0);
    if r.Err? then Err(r.fault)
    else if n >= |r.value| then Err(NoSuchStream(|r.value|))
    else
      ScanContiguous(f, d, 0);
      ContiguousBounds(r.value, 0, |d|);
      Ok(d[r.value[n].start..r.value[n].end])
  }

  /** Where nothing trails, the n-th pick is the n-th of the streams. */
  method Stream(f: Inflater, d: Data, n: nat) returns (r: Result<Data>)
    ensures r == Pick(f, d, n)
    ensures Split(f, d).Ok? ==>
            r == if n < |Split(f, d).value| then Ok(Split(f, d).value[n]) else Err(NoSuchStream(|Split(f, d).value|))
  {
    var b := Boundaries(f, d);
    if b.Err? {
      return Err(b.fault);
    }
    ContiguousBounds(b.value, 0, |d|);
    if n >= |b.value| {
      return Err(NoSuchStream(|b.value|));
    }
    r := Ok(d[b.value[n].start..b.value[n].end]);
  }

  /** The streams are the whole file, in order. */
  lemma {:induction false} CutJoins(d: Data, bs: seq<Bound>, pos: nat)
    requires Contiguous(bs, pos, |d|) && forall i :: 0 <= i < |bs| ==> bs[i].start <= bs[i].end <= |d|
    ensures End(bs, pos) == |d| ==> Concat(Cut(d, bs)) == d[pos..]
  {
    if bs == [] {
    } else {
      var rest := bs[1..];
      assert Cut(d, bs) == [d[bs[0].start..bs[0].end]] + Cut(d, rest);
      assert |bs| > 1 ==> rest[|rest| - 1] == bs[|bs| - 1];
      CutJoins(d, rest, bs[0].end);
      assert (Cut(d, bs))[1..] == Cut(d, rest);
      if End(bs, pos) == |d| { assert d[pos..] == d[pos..bs[0].end] + d[bs[0].end..]; }
    }
  }

  lemma SplitJoins(f: Inflater, d: Data)
    requires Split(f, d).Ok?
    ensures Concat(Split(f, d).value) == d
  {
    ScanContiguous(f, d, 0);
    ContiguousBounds(Scan(f, d, 0).value, 0, |d|);
    CutJoins(d, Scan(f, d, 0).value, 0);
    assert d[0..] == d;
  }
}
