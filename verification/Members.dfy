/**
 Gzip members as section 2.3 of RFC 1952 lays them out, and what the splitter makes
 of any concatenation of them; then RepackAPK of internal/artifact/apk.go, which
 replaces the signature member of a package file.
 */
module Members {
  import opened Bytes
  import opened Gzip

  /** part lies in d at pos. */
  predicate Holds(d: Data, pos: nat, part: Data) {
    pos + |part| <= |d| && d[pos..pos + |part|] == part
  }

  lemma HoldsAt(d: Data, pos: nat, part: Data, i: nat)
    requires Holds(d, pos, part) && i < |part|
    ensures d[pos + i] == part[i]
  {
    assert d[pos..pos + |part|][i] == part[i];
  }

  /** The whole of m is one member. */
  predicate IsMember(f: Inflater, m: Data) {
    Magic(m, 0) && MemberEnd(f, m, 0) == Ok(|m|)
  }

  // ---------------------------------------------------------------------
  // A member is a member wherever it lies
  // ---------------------------------------------------------------------

  lemma {:induction false} PastZeroMoves(m: Data, d: Data, pos: nat, h: nat)
    requires Holds(d, pos, m) && h <= |m|
    ensures PastZero(m, h) <= |m| || PastZero(d, pos + h) <= pos + |m| ==> PastZero(d, pos + h) == pos + PastZero(m, h)
    decreases |m| - h
  {
    if h < |m| {
      HoldsAt(d, pos, m, h);
      if m[h] != 0 { PastZeroMoves(m, d, pos, h + 1); }
    }
  }

  lemma FlagsMove(m: Data, d: Data, pos: nat)
    requires Holds(d, pos, m) && |m| >= 10
    ensures forall w: int {:trigger Flag(m, 0, w)} {:trigger Flag(d, pos, w)} :: w > 0 ==>
            (Flag(m, 0, w) <==> Flag(d, pos, w))
    ensures Magic(m, 0) <==> Magic(d, pos)
  {
    HoldsAt(d, pos, m, 0);
    HoldsAt(d, pos, m, 1);
    HoldsAt(d, pos, m, 3);
  }

  lemma NamesMove(m: Data, d: Data, pos: nat, h: nat)
    requires Holds(d, pos, m) && |m| >= 10 && h <= |m|
    requires NamesEnd(m, 0, h) <= |m| || NamesEnd(d, pos, pos + h) <= pos + |m|
    ensures NamesEnd(d, pos, pos + h) == pos + NamesEnd(m, 0, h)
  {
    FlagsMove(m, d, pos);
    PastZeroMoves(m, d, pos, h);
    var a := if Flag(m, 0, FNAME) then PastZero(m, h) else h;
    if a <= |m| { PastZeroMoves(m, d, pos, a); }
    var a' := if Flag(d, pos, FNAME) then PastZero(d, pos + h) else pos + h;
    if a' <= pos + |m| { PastZeroMoves(m, d, pos, a' - pos); }
  }

  lemma ExtraMoves(m: Data, d: Data, pos: nat)
    requires Holds(d, pos, m) && |m| >= 10
    requires (ExtraEnd(m, 0).Ok? && ExtraEnd(m, 0).value <= |m|)
             || (ExtraEnd(d, pos).Ok? && ExtraEnd(d, pos).value <= pos + |m|)
    ensures ExtraEnd(m, 0).Ok? && ExtraEnd(d, pos) == Ok(pos + ExtraEnd(m, 0).value)
  {
    FlagsMove(m, d, pos);
    if Flag(d, pos, FEXTRA) {
      HoldsAt(d, pos, m, 10);
      HoldsAt(d, pos, m, 11);
    }
  }

  lemma HeaderMoves(m: Data, d: Data, pos: nat)
    requires Holds(d, pos, m) && |m| >= 10
    requires HeaderEnd(m, 0).Ok? || (HeaderEnd(d, pos).Ok? && HeaderEnd(d, pos).value <= pos + |m|)
    ensures HeaderEnd(m, 0).Ok? && HeaderEnd(d, pos) == Ok(pos + HeaderEnd(m, 0).value)
  {
    ExtraMoves(m, d, pos);
    NamesMove(m, d, pos, ExtraEnd(m, 0).value);
  }

  /** A member found on its own is found at the same length inside any data. */
  lemma MemberMoves(f: Inflater, m: Data, d: Data, pos: nat)
    requires SelfDelimiting(f) && IsMember(f, m) && Holds(d, pos, m)
    ensures Magic(d, pos) && MemberEnd(f, d, pos) == Ok(pos + |m|)
  {
    FlagsMove(m, d, pos);
    HeaderMoves(m, d, pos);
    BodyMoves(f, m, d, pos, HeaderEnd(m, 0).value);
  }

  lemma BodyMoves(f: Inflater, m: Data, d: Data, pos: nat, h: nat)
    requires SelfDelimiting(f) && Holds(d, pos, m) && h <= |m|
    requires (f(m[h..]).Consumed? && h + f(m[h..]).n <= |m|)
             || (f(d[pos + h..]).Consumed? && h + f(d[pos + h..]).n <= |m|)
    ensures f(d[pos + h..]) == f(m[h..])
  {
    var s, t := m[h..], d[pos + h..];
    assert forall i :: 0 <= i < |s| ==> t[i] == s[i] by {
      forall i | 0 <= i < |s| ensures t[i] == s[i] { HoldsAt(d, pos, m, h + i); }
    }
    assert t[..|s|] == s;
    if f(s).Consumed? && h + f(s).n <= |m| {
      assert t[..f(s).n] == s[..f(s).n];
    }
    if f(t).Consumed? && h + f(t).n <= |m| {
      assert s[..f(t).n] == t[..f(t).n];
    }
  }

  /** What the scan takes for a member is one on its own. */
  lemma MemberStandsAlone(f: Inflater, d: Data, pos: nat)
    requires SelfDelimiting(f) && Magic(d, pos) && MemberEnd(f, d, pos).Ok?
    ensures IsMember(f, d[pos..MemberEnd(f, d, pos).value])
  {
    var m := d[pos..MemberEnd(f, d, pos).value];
    assert Holds(d, pos, m);
    FlagsMove(m, d, pos);
    HeaderMoves(m, d, pos);
    BodyMoves(f, m, d, pos, HeaderEnd(m, 0).value);
  }

  // ---------------------------------------------------------------------
  // Splitting inverts concatenation
  // ---------------------------------------------------------------------

  predicate AllMembers(f: Inflater, ms: seq<Data>) {
    forall i :: 0 <= i < |ms| ==> IsMember(f, ms[i])
  }

  function BoundsOf(pos: nat, ms: seq<Data>): seq<Bound>
    decreases |ms|
  {
    if ms == [] then [] else [Bound(pos, pos + |ms[0]|)] + BoundsOf(pos + |ms[0]|, ms[1..])
  }

  lemma {:induction false} ScanMembers(f: Inflater, pre: Data, ms: seq<Data>)
    requires SelfDelimiting(f) && AllMembers(f, ms)
    ensures Scan(f, pre + Concat(ms), |pre|) == Ok(BoundsOf(|pre|, ms))
    decreases |ms|
  {
    var d := pre + Concat(ms);
    if ms == [] {
    } else {
      var m, rest := ms[0], Concat(ms[1..]);
      assert d == pre + m + rest;
      assert Holds(d, |pre|, m);
      MemberMoves(f, m, d, |pre|);
      ScanMembers(f, pre + m, ms[1..]);
    }
  }

  lemma {:induction false} BoundsEnd(pos: nat, ms: seq<Data>)
    ensures |BoundsOf(pos, ms)| == |ms| && End(BoundsOf(pos, ms), pos) == pos + |Concat(ms)|
    decreases |ms|
  {
    if ms == [] {
    } else {
      BoundsEnd(pos + |ms[0]|, ms[1..]);
    }
  }

  /** The i-th bound covers the i-th member. */
  lemma {:induction false} BoundsCover(pre: Data, ms: seq<Data>, i: nat)
    requires i < |ms| == |BoundsOf(|pre|, ms)|
    ensures var b, d := BoundsOf(|pre|, ms)[i], pre + Concat(ms); b.start <= b.end <= |d| && d[b.start..b.end] == ms[i]
    decreases |ms|
  {
    var m, rest := ms[0], Concat(ms[1..]);
    assert pre + Concat(ms) == pre + m + rest;
    if i == 0 {
    } else {
      BoundsEnd(|pre + m|, ms[1..]);
      BoundsCover(pre + m, ms[1..], i - 1);
    }
  }

  /** Splitting a concatenation of members gives back exactly those members. */
  lemma SplitOfMembers(f: Inflater, ms: seq<Data>)
    requires SelfDelimiting(f) && AllMembers(f, ms)
    ensures Split(f, Concat(ms)) == Ok(ms)
  {
    var d, bs := Concat(ms), BoundsOf(0, ms);
    assert [] + d == d;
    ScanMembers(f, [], ms);
    BoundsEnd(0, ms);
    assert forall i :: 0 <= i < |ms| ==> bs[i].start <= bs[i].end <= |d| && d[bs[i].start..bs[i].end] == ms[i] by {
      forall i | 0 <= i < |ms| ensures bs[i].start <= bs[i].end <= |d| && d[bs[i].start..bs[i].end] == ms[i] {
        BoundsCover([], ms, i);
      }
    }
    SplitIs(f, d, bs, ms);
  }

  lemma SplitIs(f: Inflater, d: Data, bs: seq<Bound>, ms: seq<Data>)
    requires Scan(f, d, 0) == Ok(bs) && End(bs, 0) == |d| && |bs| == |ms|
    requires forall i :: 0 <= i < |ms| ==> bs[i].start <= bs[i].end <= |d| && d[bs[i].start..bs[i].end] == ms[i]
    ensures Split(f, d) == Ok(ms)
  {
    assert Cut(d, bs) == ms;
  }

  lemma {:induction false} CutMembers(f: Inflater, d: Data, pos: nat)
    requires SelfDelimiting(f) && pos <= |d| && Scan(f, d, pos).Ok?
    ensures forall b :: b in Scan(f, d, pos).value ==> b.start <= b.end <= |d| && IsMember(f, d[b.start..b.end])
    decreases |d| - pos
  {
    if Magic(d, pos) {
      var e := MemberEnd(f, d, pos).value;
      MemberStandsAlone(f, d, pos);
      CutMembers(f, d, e);
    }
  }

  /** The answer of a split is the one way to write the data as members end to end. */
  lemma SplitIff(f: Inflater, d: Data, ms: seq<Data>)
    requires SelfDelimiting(f)
    ensures Split(f, d) == Ok(ms) <==> AllMembers(f, ms) && Concat(ms) == d
  {
    if AllMembers(f, ms) && Concat(ms) == d {
      SplitOfMembers(f, ms);
    }
    if Split(f, d) == Ok(ms) {
      SplitJoins(f, d);
      CutMembers(f, d, 0);
      var bs := Scan(f, d, 0).value;
      ScanContiguous(f, d, 0);
      ContiguousBounds(bs, 0, |d|);
      forall i | 0 <= i < |ms| ensures IsMember(f, ms[i]) {
        assert bs[i] in bs && ms[i] == d[bs[i].start..bs[i].end];
      }
    }
  }

  // ---------------------------------------------------------------------
  // The layout of RFC 1952
  // ---------------------------------------------------------------------

  datatype Optional = Absent | Present(bytes: Data)

  /** The fields of a member: fixed is CM's byte, then MTIME, XFL and OS; reserved are the three high flag bits. */
  datatype Fields = Fields(
    cm: Byte, text: bool, reserved: nat, fixed: Data,
    extra: Optional, name: Optional, comment: Optional, hcrc: Optional,
    body: Data, trailer: Data)

  predicate NoZero(s: Data) {
    forall i :: 0 <= i < |s| ==> s[i] != 0
  }

  predicate WellFormed(f: Inflater, m: Fields) {
    && |m.fixed| == 6 && m.reserved < 8 && |m.trailer| == 8
    && (m.extra.Present? ==> |m.extra.bytes| < 0x10000)
    && (m.name.Present? ==> NoZero(m.name.bytes))
    && (m.comment.Present? ==> NoZero(m.comment.bytes))
    && (m.hcrc.Present? ==> |m.hcrc.bytes| == 2)
    && f(m.body) == Consumed(|m.body|)
  }

  function Bit(b: bool, weight: nat): nat {
    if b then weight else 0
  }

  function FlagByte(m: Fields): (b: nat)
    requires m.reserved < 8
    ensures b < 256
  {
    Bit(m.text, 1) + Bit(m.hcrc.Present?, 2) + Bit(m.extra.Present?, 4) + Bit(m.name.Present?, 8)
      + Bit(m.comment.Present?, 16)
    + 32 * m.reserved
  }

  function ExtraField(x: Optional): Data
    requires x.Present? ==> |x.bytes| < 0x10000
  {
    if x.Absent? then [] else [(|x.bytes| % 256) as Byte, (|x.bytes| / 256) as Byte] + x.bytes
  }

  function StringField(x: Optional): Data {
    if x.Absent? then [] else x.bytes + [0]
  }

  function RawField(x: Optional): Data {
    if x.Absent? then [] else x.bytes
  }

  function Start(f: Inflater, m: Fields): (s: Data)
    requires WellFormed(f, m)
    ensures |s| == 10
  {
    [0x1f, 0x8b, m.cm, FlagByte(m) as Byte] + m.fixed
  }

  function Names(f: Inflater, m: Fields): Data
    requires WellFormed(f, m)
  {
    StringField(m.name) + (StringField(m.comment) + RawField(m.hcrc))
  }

  function Encode(f: Inflater, m: Fields): Data
    requires WellFormed(f, m)
  {
    Start(f, m) + (ExtraField(m.extra) + (Names(f, m) + (m.body + m.trailer)))
  }

  lemma HoldsSplit(d: Data, pos: nat, a: Data, b: Data)
    requires Holds(d, pos, a + b)
    ensures Holds(d, pos, a) && Holds(d, pos + |a|, b)
  {
    var whole := d[pos..pos + |a + b|];
    assert d[pos..pos + |a|] == whole[..|a|] == a;
    assert d[pos + |a|..pos + |a| + |b|] == whole[|a|..] == b;
  }

  lemma BitAt(w: nat, low: nat, b: bool, high: nat)
    requires w in {2, 4, 8, 16} && low < w
    ensures (low + Bit(b, w) + 2 * w * high) / w % 2 == 1 <==> b
  {
    if w == 2 {
    } else if w == 4 {
    } else if w == 8 {
    } else {
    }
  }

  /** Each flag is its own bit. */
  lemma LowBits(m: Fields)
    requires m.reserved < 8
    ensures FlagByte(m) / 2 % 2 == 1 <==> m.hcrc.Present?
    ensures FlagByte(m) / 4 % 2 == 1 <==> m.extra.Present?
  {
    var t, h, x, n, c := m.text, m.hcrc.Present?, m.extra.Present?, m.name.Present?, m.comment.Present?;
    BitAt(2, Bit(t, 1), h, Bit(x, 1) + Bit(n, 2) + Bit(c, 4) + 8 * m.reserved);
    BitAt(4, Bit(t, 1) + Bit(h, 2), x, Bit(n, 1) + Bit(c, 2) + 4 * m.reserved);
  }

  lemma HighBits(m: Fields)
    requires m.reserved < 8
    ensures FlagByte(m) / 8 % 2 == 1 <==> m.name.Present?
    ensures FlagByte(m) / 16 % 2 == 1 <==> m.comment.Present?
  {
    var t, h, x, n, c := m.text, m.hcrc.Present?, m.extra.Present?, m.name.Present?, m.comment.Present?;
    BitAt(8, Bit(t, 1) + Bit(h, 2) + Bit(x, 4), n, Bit(c, 1) + 2 * m.reserved);
    BitAt(16, Bit(t, 1) + Bit(h, 2) + Bit(x, 4) + Bit(n, 8), c, m.reserved);
  }

  lemma FlagsEncoded(f: Inflater, m: Fields, d: Data)
    requires WellFormed(f, m) && Holds(d, 0, Start(f, m))
    ensures Magic(d, 0)
    ensures Flag(d, 0, FEXTRA) <==> m.extra.Present?
    ensures Flag(d, 0, FNAME) <==> m.name.Present?
    ensures Flag(d, 0, FCOMMENT) <==> m.comment.Present?
    ensures Flag(d, 0, FHCRC) <==> m.hcrc.Present?
  {
    HoldsAt(d, 0, Start(f, m), 0);
    HoldsAt(d, 0, Start(f, m), 1);
    HoldsAt(d, 0, Start(f, m), 3);
    assert d[3] as int == FlagByte(m);
    LowBits(m);
    HighBits(m);
  }

  lemma {:induction false} PastString(d: Data, h: nat, s: Data)
    requires Holds(d, h, s + [0]) && NoZero(s)
    ensures PastZero(d, h) == h + |s| + 1
    decreases |s|
  {
    HoldsAt(d, h, s + [0], 0);
    if s != [] {
      assert s + [0] == [s[0]] + (s[1..] + [0]);
      HoldsSplit(d, h, [s[0]], s[1..] + [0]);
      PastString(d, h + 1, s[1..]);
    }
  }

  lemma ExtraEncoded(f: Inflater, m: Fields, d: Data)
    requires WellFormed(f, m) && Holds(d, 0, Start(f, m)) && Holds(d, 10, ExtraField(m.extra))
    ensures ExtraEnd(d, 0) == Ok(10 + |ExtraField(m.extra)|)
  {
    FlagsEncoded(f, m, d);
    if m.extra.Present? {
      HoldsAt(d, 10, ExtraField(m.extra), 0);
      HoldsAt(d, 10, ExtraField(m.extra), 1);
    }
  }

  lemma PastField(d: Data, h: nat, x: Optional)
    requires Holds(d, h, StringField(x)) && (x.Present? ==> NoZero(x.bytes))
    ensures x.Present? ==> PastZero(d, h) == h + |StringField(x)|
  {
    if x.Present? { PastString(d, h, x.bytes); }
  }

  lemma NamesAdd(d: Data, h: nat, name: Optional, comment: Optional, hcrc: Optional)
    requires |d| >= 10 && (hcrc.Present? ==> |hcrc.bytes| == 2)
    requires Flag(d, 0, FNAME) <==> name.Present?
    requires Flag(d, 0, FCOMMENT) <==> comment.Present?
    requires Flag(d, 0, FHCRC) <==> hcrc.Present?
    requires name.Present? ==> PastZero(d, h) == h + |StringField(name)|
    requires comment.Present? ==>
             PastZero(d, h + |StringField(name)|) == h + |StringField(name)| + |StringField(comment)|
    ensures NamesEnd(d, 0, h) == h + |StringField(name)| + |StringField(comment)| + |RawField(hcrc)|
  {
  }

  lemma HeldFields(d: Data, h: nat, a: Data, b: Data, c: Data)
    requires Holds(d, h, a + (b + c))
    ensures Holds(d, h, a) && Holds(d, h + |a|, b)
  {
    HoldsSplit(d, h, a, b + c);
    HoldsSplit(d, h + |a|, b, c);
  }

  lemma NamesHeld(d: Data, h: nat, name: Optional, comment: Optional, hcrc: Optional)
    requires |d| >= 10 && (hcrc.Present? ==> |hcrc.bytes| == 2)
    requires (name.Present? ==> NoZero(name.bytes)) && (comment.Present? ==> NoZero(comment.bytes))
    requires Flag(d, 0, FNAME) <==> name.Present?
    requires Flag(d, 0, FCOMMENT) <==> comment.Present?
    requires Flag(d, 0, FHCRC) <==> hcrc.Present?
    requires Holds(d, h, StringField(name) + (StringField(comment) + RawField(hcrc)))
    ensures NamesEnd(d, 0, h) == h + |StringField(name)| + |StringField(comment)| + |RawField(hcrc)|
  {
    var a := h + |StringField(name)|;
    HeldFields(d, h, StringField(name), StringField(comment), RawField(hcrc));
    PastField(d, h, name);
    PastField(d, a, comment);
    NamesAdd(d, h, name, comment, hcrc);
  }

  lemma NamesEncoded(f: Inflater, m: Fields, d: Data, h: nat)
    requires WellFormed(f, m) && Holds(d, 0, Start(f, m)) && Holds(d, h, Names(f, m))
    ensures NamesEnd(d, 0, h) == h + |Names(f, m)|
  {
    FlagsEncoded(f, m, d);
    NamesHeld(d, h, m.name, m.comment, m.hcrc);
  }

  lemma Layout(f: Inflater, m: Fields)
    requires WellFormed(f, m)
    ensures var d, x, n := Encode(f, m), |ExtraField(m.extra)|, |Names(f, m)|;
            && Holds(d, 0, Start(f, m)) && Holds(d, 10, ExtraField(m.extra)) && Holds(d, 10 + x, Names(f, m))
            && Holds(d, 10 + x + n, m.body + m.trailer) && |d| == 10 + x + n + |m.body| + 8
  {
    var d := Encode(f, m);
    var x, n, tail := ExtraField(m.extra), Names(f, m), m.body + m.trailer;
    assert Holds(d, 0, Start(f, m) + (x + (n + tail)));
    HoldsSplit(d, 0, Start(f, m), x + (n + tail));
    HoldsSplit(d, 10, x, n + tail);
    HoldsSplit(d, 10 + |x|, n, tail);
  }

  lemma MemberEndIs(f: Inflater, d: Data, h: nat, n: nat)
    requires Magic(d, 0) && HeaderEnd(d, 0) == Ok(h) && f(d[h..]) == Consumed(n) && h + n + 8 == |d|
    ensures IsMember(f, d)
  {
  }

  /** Any mix of optional fields makes a member. */
  lemma EncodedIsMember(f: Inflater, m: Fields)
    requires SelfDelimiting(f) && WellFormed(f, m)
    ensures IsMember(f, Encode(f, m))
  {
    var d, h := Encode(f, m), 10 + |ExtraField(m.extra)| + |Names(f, m)|;
    Layout(f, m);
    HeaderEncoded(f, m, d);
    BodyEncoded(f, m, d, h);
    MemberEndIs(f, d, h, |m.body|);
  }

  lemma HeaderEncoded(f: Inflater, m: Fields, d: Data)
    requires WellFormed(f, m) && Holds(d, 0, Start(f, m)) && Holds(d, 10, ExtraField(m.extra))
    requires Holds(d, 10 + |ExtraField(m.extra)|, Names(f, m))
    ensures Magic(d, 0) && HeaderEnd(d, 0) == Ok(10 + |ExtraField(m.extra)| + |Names(f, m)|)
  {
    FlagsEncoded(f, m, d);
    ExtraEncoded(f, m, d);
    NamesEncoded(f, m, d, 10 + |ExtraField(m.extra)|);
  }

  lemma BodyEncoded(f: Inflater, m: Fields, d: Data, h: nat)
    requires SelfDelimiting(f) && WellFormed(f, m) && Holds(d, h, m.body + m.trailer) && |d| == h + |m.body| + 8
    ensures f(d[h..]) == Consumed(|m.body|)
  {
    var s := d[h..];
    assert s == m.body + m.trailer;
    assert s[..|m.body|] == m.body[..|m.body|];
    assert f(s) == f(m.body);
  }

  function EncodeAll(f: Inflater, ms: seq<Fields>): seq<Data>
    requires forall i :: 0 <= i < |ms| ==> WellFormed(f, ms[i])
  {
    seq(|ms|, i requires 0 <= i < |ms| => Encode(f, ms[i]))
  }

  /** Streams of any list of well-formed members is exactly that list. */
  lemma SplitOfEncoded(f: Inflater, ms: seq<Fields>)
    requires SelfDelimiting(f) && forall i :: 0 <= i < |ms| ==> WellFormed(f, ms[i])
    ensures Split(f, Concat(EncodeAll(f, ms))) == Ok(EncodeAll(f, ms))
  {
    forall i | 0 <= i < |ms| ensures IsMember(f, EncodeAll(f, ms)[i]) {
      EncodedIsMember(f, ms[i]);
    }
    SplitOfMembers(f, EncodeAll(f, ms));
  }

  // ---------------------------------------------------------------------
  // Replacing the signature of a package
  // ---------------------------------------------------------------------

  /** Whether a member's payload is a signature, and what a key signs a control member with. */
  datatype Tools = Tools(inflate: Inflater, isSignature: Data -> bool)

  type Signer = Data -> Data

  /** A signer answers with one member that is recognised as a signature. */
  ghost predicate Signs(t: Tools, sign: Signer) {
    forall control {:trigger sign(control)} :: IsMember(t.inflate, sign(control)) && t.isSignature(sign(control))
  }

  datatype Repacked = Written(file: Data) | NotGzip(fault: Fault) | TooFewStreams(found: nat)

  /** The members behind a leading signature, if there is one. */
  function Unsigned(t: Tools, ss: seq<Data>): seq<Data> {
    if ss != [] && t.isSignature(ss[0]) then ss[1..] else ss
  }

  /** Control and data are both there. */
  predicate Complete(t: Tools, ss: seq<Data>) {
    |Unsigned(t, ss)| >= 2
  }

  ghost function Repack(t: Tools, sign: Signer, raw: Data): Repacked {
    var r := Split(t.inflate, raw);
    if r.Err? then NotGzip(r.fault)
    else if !Complete(t, r.value) then TooFewStreams(|r.value|)
    else
      var body := Unsigned(t, r.value);
      Written(sign(body[0]) + Concat(body))
  }

  method RepackAPK(t: Tools, sign: Signer, raw: Data) returns (out: Repacked)
    ensures out == Repack(t, sign, raw)
  {
    var streams := Streams(t.inflate, raw);
    if streams.Err? {
      return NotGzip(streams.fault);
    }
    var ss := streams.value;
    if |ss| < 2 {
      return TooFewStreams(|ss|);
    }
    var idx := if t.isSignature(ss[0]) then 1 else 0;
    if |ss| - idx < 2 {
      return TooFewStreams(|ss|);
    }
    var control := ss[idx];
    var data := Concat(ss[idx + 1..]);
    assert Unsigned(t, ss) == ss[idx..] && ss[idx..] == [control] + ss[idx + 1..];
    ConcatJoin([control], ss[idx + 1..]);
    assert Concat([control]) == control + Concat([]);
    out := Written(sign(control) + (control + data));
  }

  /** A control member and the members behind it, without a signature: all of them stay, behind the new signature. */
  lemma RepackUnsigned(t: Tools, sign: Signer, control: Data, data: seq<Data>)
    requires SelfDelimiting(t.inflate) && AllMembers(t.inflate, [control] + data) && !t.isSignature(control)
    ensures Repack(t, sign, Concat([control] + data)) ==
            if data == [] then TooFewStreams(1) else Written(sign(control) + (control + Concat(data)))
  {
    SplitOfMembers(t.inflate, [control] + data);
    ControlFirst(control, data);
  }

  /** Behind a signature: that one goes, and the others stay. */
  lemma RepackSigned(t: Tools, sign: Signer, signature: Data, control: Data, data: seq<Data>)
    requires SelfDelimiting(t.inflate) && AllMembers(t.inflate, [signature, control] + data)
    requires t.isSignature(signature)
    ensures Repack(t, sign, Concat([signature, control] + data)) ==
            if data == [] then TooFewStreams(2) else Written(sign(control) + (control + Concat(data)))
  {
    SplitOfMembers(t.inflate, [signature, control] + data);
    assert ([signature, control] + data)[1..] == [control] + data;
    ControlFirst(control, data);
  }

  lemma ControlFirst(control: Data, data: seq<Data>)
    ensures Concat([control] + data) == control + Concat(data) && ([control] + data)[0] == control
  {
    ConcatJoin([control], data);
    assert Concat([control]) == control + Concat([]);
  }

  /** The members after a round: a new signature, then control and data as they were. */
  function Resigned(t: Tools, sign: Signer, ss: seq<Data>): seq<Data>
    requires Complete(t, ss)
  {
    [sign(Unsigned(t, ss)[0])] + Unsigned(t, ss)
  }

  /** One round keeps control and data byte for byte, behind a single new signature. */
  lemma RepackRound(t: Tools, sign: Signer, ss: seq<Data>)
    requires SelfDelimiting(t.inflate) && Signs(t, sign) && AllMembers(t.inflate, ss) && Complete(t, ss)
    ensures Repack(t, sign, Concat(ss)) == Written(Concat(Resigned(t, sign, ss)))
    ensures AllMembers(t.inflate, Resigned(t, sign, ss)) && Complete(t, Resigned(t, sign, ss))
    ensures Unsigned(t, Resigned(t, sign, ss)) == Unsigned(t, ss)
  {
    var body := Unsigned(t, ss);
    SplitOfMembers(t.inflate, ss);
    ConcatJoin([sign(body[0])], body);
    assert Concat([sign(body[0])]) == sign(body[0]) + Concat([]);
  }

  /** Repacking again and again, each time with another key. */
  ghost function Rounds(t: Tools, signers: seq<Signer>, raw: Data): Repacked
    decreases |signers|
  {
    if signers == [] then Written(raw)
    else
      var r := Repack(t, signers[0], raw);
      if r.Written? then Rounds(t, signers[1..], r.file) else r
  }

  ghost predicate AllSign(t: Tools, signers: seq<Signer>) {
    signers == [] || (Signs(t, signers[0]) && AllSign(t, signers[1..]))
  }

  /** The members after some rounds. */
  function ResignedAll(t: Tools, signers: seq<Signer>, ss: seq<Data>): seq<Data>
    decreases |signers|
  {
    if signers == [] || !Complete(t, ss) then ss else ResignedAll(t, signers[1..], Resigned(t, signers[0], ss))
  }

  lemma {:induction false} RoundsResign(t: Tools, signers: seq<Signer>, ss: seq<Data>)
    requires SelfDelimiting(t.inflate) && AllSign(t, signers) && AllMembers(t.inflate, ss) && Complete(t, ss)
    ensures Rounds(t, signers, Concat(ss)) == Written(Concat(ResignedAll(t, signers, ss)))
    decreases |signers|
  {
    if signers == [] {
    } else {
      RepackRound(t, signers[0], ss);
      NextRound(t, signers, Concat(ss), Concat(Resigned(t, signers[0], ss)));
      RoundsResign(t, signers[1..], Resigned(t, signers[0], ss));
    }
  }

  lemma {:induction false} LastSignatureStays(t: Tools, signers: seq<Signer>, ss: seq<Data>)
    requires AllSign(t, signers) && signers != [] && Complete(t, ss)
    ensures ResignedAll(t, signers, ss) == Resigned(t, signers[|signers| - 1], ss)
    decreases |signers|
  {
    var next := Resigned(t, signers[0], ss);
    assert Unsigned(t, next) == Unsigned(t, ss);
    if |signers| <= 1 {
    } else {
      LastSignatureStays(t, signers[1..], next);
      assert signers[1..][|signers| - 2] == signers[|signers| - 1];
    }
  }

  /** After any number of rounds the file is the last signature and then the original control and data, unchanged. */
  lemma RepackRounds(t: Tools, signers: seq<Signer>, ss: seq<Data>)
    requires SelfDelimiting(t.inflate) && AllSign(t, signers) && signers != []
    requires AllMembers(t.inflate, ss) && Complete(t, ss)
    ensures Rounds(t, signers, Concat(ss)) == Written(Concat(Resigned(t, signers[|signers| - 1], ss)))
  {
    RoundsResign(t, signers, ss);
    LastSignatureStays(t, signers, ss);
  }

  lemma NextRound(t: Tools, signers: seq<Signer>, raw: Data, file: Data)
    requires signers != [] && Repack(t, signers[0], raw) == Written(file)
    ensures Rounds(t, signers, raw) == Rounds(t, signers[1..], file)
    ensures |signers| == 1 ==> Rounds(t, signers, raw) == Written(file)
  {
  }
}
