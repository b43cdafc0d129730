/**
 The hand-written Alpine version comparison of internal/apkindex/provides.go, and
 the proof that it is a total preorder. Versions are ASCII.
 */
module Versions {
  import opened Names
  import opened Decimals
  import opened Bytes

  function Sign(x: int): int {
    if x < 0 then -1 else if x > 0 then 1 else 0
  }

  /** strings.Compare. */
  function CompareStrings(a: string, b: string): int {
    if a == b then 0 else if Less(a, b) then -1 else 1
  }

  lemma CompareStringsFacts(a: string, b: string)
    ensures CompareStrings(a, b) == -CompareStrings(b, a)
    ensures CompareStrings(a, b) <= 0 <==> Leq(a, b)
  {
    LessTotal(a, b);
    if Less(a, b) && Less(b, a) {
      LessTransitive(a, b, a);
      LessIrreflexive(a);
    }
    if Leq(a, b) && Leq(b, a) { LeqAntisymmetric(a, b); }
  }

  // ---------------------------------------------------------------------
  // Numeric segments compare by value
  // ---------------------------------------------------------------------

  function TrimZeros(s: string): string {
    if s != [] && s[0] == '0' then TrimZeros(s[1..]) else s
  }

  function CompareNumericString(a: string, b: string): int {
    var x, y := TrimZeros(a), TrimZeros(b);
    if |x| < |y| then -1 else if |x| > |y| then 1 else CompareStrings(x, y)
  }

  lemma {:induction false} TrimKeepsValue(s: string)
    requires OnlyDigits(s)
    ensures OnlyDigits(TrimZeros(s)) && Value(TrimZeros(s)) == Value(s)
    ensures TrimZeros(s) != [] ==> TrimZeros(s)[0] != '0'
  {
    if s != [] && s[0] == '0' { TrimKeepsValue(s[1..]); }
  }

  /** Strings of one length compare as their values do. */
  lemma {:induction false} SameLengthByValue(a: string, b: string)
    requires OnlyDigits(a) && OnlyDigits(b) && |a| == |b|
    ensures CompareStrings(a, b) == Sign(Value(a) - Value(b))
  {
    if a == [] {
    } else {
      var p, x, y := Pow10(|a| - 1), a[1..], b[1..];
      ValueBound(x);
      ValueBound(y);
      SameLengthByValue(x, y);
      HeadDecides(a, b);
      if Digit(a[0]) < Digit(b[0]) {
        LeadingDigit(Digit(a[0]), Digit(b[0]), p, Value(x), Value(y));
      } else if Digit(b[0]) < Digit(a[0]) {
        LeadingDigit(Digit(b[0]), Digit(a[0]), p, Value(y), Value(x));
      }
    }
  }

  lemma HeadDecides(a: string, b: string)
    requires a != [] && b != []
    ensures a[0] < b[0] ==> CompareStrings(a, b) == -1
    ensures a[0] > b[0] ==> CompareStrings(a, b) == 1
    ensures a[0] == b[0] ==> CompareStrings(a, b) == CompareStrings(a[1..], b[1..])
  {
    assert a == [a[0]] + a[1..] && b == [b[0]] + b[1..];
  }

  /** A longer trimmed string denotes a larger number. */
  lemma LongerIsLarger(a: string, b: string)
    requires OnlyDigits(a) && OnlyDigits(b) && |a| < |b| && b[0] != '0'
    ensures Value(a) < Value(b)
  {
    ValueBound(a);
    PowMonotone(|a|, |b| - 1);
    DigitTimes(1, Digit(b[0]), Pow10(|b| - 1));
  }

  /** Digit segments of any width, zeros in front or not, compare by value. */
  lemma NumericByValue(a: string, b: string)
    requires OnlyDigits(a) && OnlyDigits(b)
    ensures CompareNumericString(a, b) == Sign(Value(a) - Value(b))
  {
    TrimKeepsValue(a);
    TrimKeepsValue(b);
    var x, y := TrimZeros(a), TrimZeros(b);
    if |x| < |y| {
      LongerIsLarger(x, y);
    } else if |x| > |y| {
      LongerIsLarger(y, x);
    } else {
      SameLengthByValue(x, y);
    }
  }

  // ---------------------------------------------------------------------
  // Segments
  // ---------------------------------------------------------------------

  predicate IsPrerelease(s: string) {
    s == "_" || "alpha" <= s || "beta" <= s || "pre" <= s || "rc" <= s
  }

  function CompareSegment(a: string, b: string): int {
    if IsPrerelease(a) && !IsPrerelease(b) then -1
    else if IsPrerelease(b) && !IsPrerelease(a) then 1
    else if AllDigits(a) && AllDigits(b) then CompareNumericString(a, b)
    else CompareStrings(a, b)
  }

  /** What splitting produces: digits only, or no digit at all. */
  predicate Segment(s: string) {
    s != [] && (OnlyDigits(s) || NoDigits(s))
  }

  /** Prereleases, then punctuation below the digits, numbers, everything else. */
  function Rank(s: string): int
    requires Segment(s)
  {
    if IsPrerelease(s) then 0 else if IsDigit(s[0]) then 2 else if s[0] < '0' then 1 else 3
  }

  lemma RankDecides(a: string, b: string)
    requires Segment(a) && Segment(b)
    ensures Rank(a) < Rank(b) ==> CompareSegment(a, b) == -1
    ensures Rank(a) > Rank(b) ==> CompareSegment(a, b) == 1
    ensures Rank(a) == Rank(b) == 2 ==> CompareSegment(a, b) == Sign(Value(a) - Value(b))
    ensures Rank(a) == Rank(b) != 2 ==> CompareSegment(a, b) == CompareStrings(a, b)
  {
    if Rank(a) == Rank(b) == 2 { NumericByValue(a, b); }
    if IsPrerelease(a) { assert !IsDigit(a[0]); }
    if IsPrerelease(b) { assert !IsDigit(b[0]); }
  }

  lemma SegmentAntisymmetric(a: string, b: string)
    requires Segment(a) && Segment(b)
    ensures CompareSegment(a, b) == -CompareSegment(b, a) && -1 <= CompareSegment(a, b) <= 1
  {
    RankDecides(a, b);
    RankDecides(b, a);
    CompareStringsFacts(a, b);
  }

  lemma SegmentTransitive(a: string, b: string, c: string)
    requires Segment(a) && Segment(b) && Segment(c)
    requires CompareSegment(a, b) <= 0 && CompareSegment(b, c) <= 0
    ensures CompareSegment(a, c) <= 0
    ensures CompareSegment(a, c) == 0 ==> CompareSegment(a, b) == 0 == CompareSegment(b, c)
  {
    RankDecides(a, b);
    RankDecides(b, c);
    RankDecides(a, c);
    if Rank(a) == Rank(b) == Rank(c) != 2 {
      StringsTransitive(a, b, c);
    }
  }

  lemma StringsTransitive(a: string, b: string, c: string)
    requires CompareStrings(a, b) <= 0 && CompareStrings(b, c) <= 0
    ensures CompareStrings(a, c) <= 0
    ensures CompareStrings(a, c) == 0 ==> CompareStrings(a, b) == 0 == CompareStrings(b, c)
  {
    CompareStringsFacts(a, b);
    CompareStringsFacts(b, c);
    CompareStringsFacts(a, c);
    LeqTransitive(a, b, c);
    if a == c { LeqAntisymmetric(a, b); }
  }

  // ---------------------------------------------------------------------
  // Lists of segments: the end ranks between prereleases and the rest
  // ---------------------------------------------------------------------

  function CompareSegments(a: seq<string>, b: seq<string>): int {
    if a == [] && b == [] then 0
    else if a == [] then (if IsPrerelease(b[0]) then 1 else -1)
    else if b == [] then (if IsPrerelease(a[0]) then -1 else 1)
    else
      var c := CompareSegment(a[0], b[0]);
      if c != 0 then c else CompareSegments(a[1..], b[1..])
  }

  predicate Segmented(a: seq<string>) {
    forall i :: 0 <= i < |a| ==> Segment(a[i])
  }

  lemma {:induction false} SegmentsAntisymmetric(a: seq<string>, b: seq<string>)
    requires Segmented(a) && Segmented(b)
    ensures CompareSegments(a, b) == -CompareSegments(b, a) && -1 <= CompareSegments(a, b) <= 1
  {
    if a != [] && b != [] {
      SegmentAntisymmetric(a[0], b[0]);
      SegmentsAntisymmetric(a[1..], b[1..]);
    }
  }

  lemma {:induction false} SegmentsTransitive(a: seq<string>, b: seq<string>, c: seq<string>)
    requires Segmented(a) && Segmented(b) && Segmented(c)
    requires CompareSegments(a, b) <= 0 && CompareSegments(b, c) <= 0
    ensures CompareSegments(a, c) <= 0
    ensures CompareSegments(a, c) == 0 ==> CompareSegments(a, b) == 0 == CompareSegments(b, c)
    decreases |a|
  {
    if a != [] && b != [] && c != [] {
      SegmentTransitive(a[0], b[0], c[0]);
      if CompareSegment(a[0], b[0]) == 0 && CompareSegment(b[0], c[0]) == 0 {
        SegmentsTransitive(a[1..], b[1..], c[1..]);
        SegmentAntisymmetric(b[0], c[0]);
        SegmentAntisymmetric(a[0], b[0]);
        SegmentTransitive(c[0], b[0], a[0]);
        SegmentAntisymmetric(a[0], c[0]);
      }
    }
  }

  /** More segments mean an older version if the first extra one is a prerelease, and a newer one otherwise. */
  lemma {:induction false} EndRanksBetween(a: seq<string>, x: string, rest: seq<string>)
    requires Segmented(a)
    ensures CompareSegments(a + [x] + rest, a) ==
            if x == "_" || "alpha" <= x || "beta" <= x || "pre" <= x || "rc" <= x then -1 else 1
    decreases |a|
  {
    var t := a + [x] + rest;
    if a == [] {
    } else {
      EndRanksBetween(a[1..], x, rest);
      assert t[1..] == a[1..] + [x] + rest;
      SegmentAntisymmetric(a[0], a[0]);
    }
  }

  /** The loop of comparePkgver. */
  method ComparePkgver(a: string, b: string) returns (r: int)
    ensures r == CompareSegments(Segments(a), Segments(b))
  {
    var xs := SplitVerSegments(a);
    var ys := SplitVerSegments(b);
    var i := 0;
    assert xs[0..] == xs && ys[0..] == ys;
    while i < |xs| && i < |ys|
      invariant i <= |xs| && i <= |ys|
      invariant CompareSegments(xs[i..], ys[i..]) == CompareSegments(xs, ys)
    {
      assert xs[i..][0] == xs[i] && ys[i..][0] == ys[i];
      var c := CompareSegment(xs[i], ys[i]);
      if c != 0 {
        return c;
      }
      assert xs[i..][1..] == xs[i + 1..] && ys[i..][1..] == ys[i + 1..];
      i := i + 1;
    }
    assert xs[i..] == [] <==> i == |xs|;
    assert ys[i..] == [] <==> i == |ys|;
    if |xs| < |ys| {
      assert ys[i..][0] == ys[|xs|];
      return if IsPrerelease(ys[|xs|]) then 1 else -1;
    } else if |xs| > |ys| {
      assert xs[i..][0] == xs[|ys|];
      return if IsPrerelease(xs[|ys|]) then -1 else 1;
    }
    return 0;
  }

  // ---------------------------------------------------------------------
  // Splitting
  // ---------------------------------------------------------------------

  predicate IsSeparator(c: char) {
    c == '.' || c == '_' || c == '+' || c == '-'
  }

  function Flush(cur: string): seq<string> {
    if cur == [] then [] else [cur]
  }

  /** Maximal runs of digits and of other characters, cut at separators; an underscore is a segment of its own. */
  function SplitFrom(v: string, cur: string): seq<string> {
    if v == [] then Flush(cur)
    else if IsSeparator(v[0]) then Flush(cur) + (if v[0] == '_' then ["_"] else []) + SplitFrom(v[1..], "")
    else if cur != [] && IsDigit(cur[|cur| - 1]) != IsDigit(v[0]) then [cur] + SplitFrom(v[1..], [v[0]])
    else SplitFrom(v[1..], cur + [v[0]])
  }

  function Segments(v: string): seq<string> {
    SplitFrom(v, "")
  }

  predicate Growing(cur: string) {
    cur == [] || Segment(cur)
  }

  lemma {:induction false} SplitSegmented(v: string, cur: string)
    requires Growing(cur)
    ensures Segmented(SplitFrom(v, cur))
  {
    if v == [] {
    } else {
      if IsSeparator(v[0]) {
        SplitSegmented(v[1..], "");
      } else if cur != [] && IsDigit(cur[|cur| - 1]) != IsDigit(v[0]) {
        SplitSegmented(v[1..], [v[0]]);
      } else {
        SplitSegmented(v[1..], cur + [v[0]]);
      }
    }
  }

  /** The version without its '.', '+' and '-'. */
  function Stripped(v: string): string {
    if v == [] then "" else (if v[0] == '.' || v[0] == '+' || v[0] == '-' then "" else [v[0]]) + Stripped(v[1..])
  }

  /** Splitting loses nothing but those three separators. */
  lemma {:induction false} SplitKeepsText(v: string, cur: string)
    ensures Concat(SplitFrom(v, cur)) == cur + Stripped(v)
  {
    assert Concat([]) == "" && Concat(Flush(cur)) == cur;
    if v == [] {
    } else {
      var c := v[0];
      if IsSeparator(c) {
        SplitKeepsText(v[1..], "");
        var u := if c == '_' then ["_"] else [];
        ConcatJoin(Flush(cur) + u, SplitFrom(v[1..], ""));
        ConcatJoin(Flush(cur), u);
        assert Concat(u) == if c == '_' then "_" else "";
      } else if cur != [] && IsDigit(cur[|cur| - 1]) != IsDigit(c) {
        SplitKeepsText(v[1..], [c]);
      } else {
        SplitKeepsText(v[1..], cur + [c]);
        assert cur + [c] + Stripped(v[1..]) == cur + ([c] + Stripped(v[1..]));
      }
    }
  }

  /** The text after a separator is split on its own. */
  lemma Regroup(a: seq<string>, b: seq<string>, c: seq<string>, d: seq<string>)
    ensures a + (b + c + d) == a + b + c + d
  {
  }

  lemma {:induction false} SplitAt(v: string, c: char, w: string, cur: string)
    requires IsSeparator(c)
    ensures SplitFrom(v + [c] + w, cur) == SplitFrom(v, cur) + (if c == '_' then ["_"] else []) + Segments(w)
    decreases |v|
  {
    var t, mark := v + [c] + w, if c == '_' then ["_"] else [];
    if v == [] {
      assert t[1..] == w;
    } else {
      assert t[0] == v[0] && t[1..] == v[1..] + [c] + w;
      if IsSeparator(v[0]) {
        SplitAt(v[1..], c, w, "");
        Regroup(Flush(cur) + (if v[0] == '_' then ["_"] else []), SplitFrom(v[1..], ""), mark, Segments(w));
      } else if cur != [] && IsDigit(cur[|cur| - 1]) != IsDigit(v[0]) {
        SplitAt(v[1..], c, w, [v[0]]);
        Regroup([cur], SplitFrom(v[1..], [v[0]]), mark, Segments(w));
      } else {
        SplitAt(v[1..], c, w, cur + [v[0]]);
      }
    }
  }

  /** An underscore suffix on the version proper ranks below the version, _p and _hotfix included. */
  lemma UnderscoreRanksBelow(v: string, w: string)
    ensures CompareSegments(Segments(v + "_" + w), Segments(v)) == -1
  {
    SplitAt(v, '_', w, "");
    SplitSegmented(v, "");
    EndRanksBetween(Segments(v), "_", Segments(w));
  }

  lemma CutHere(out: seq<string>, v: string, cur: string)
    requires v != [] && cur != [] && !IsSeparator(v[0]) && IsDigit(cur[|cur| - 1]) != IsDigit(v[0])
    ensures out + SplitFrom(v, cur) == out + Flush(cur) + SplitFrom(v[1..], [v[0]])
  {
  }

  method SplitVerSegments(v: string) returns (out: seq<string>)
    ensures out == Segments(v)
  {
    if v == "" {
      return [];
    }
    out := [];
    var cur, prevKind := "", 0;
    assert v[0..] == v;
    for i := 0 to |v|
      invariant prevKind == if cur == [] then 0 else if IsDigit(cur[|cur| - 1]) then 1 else 2
      invariant out + SplitFrom(v[i..], cur) == Segments(v)
    {
      var c := v[i];
      assert v[i..][0] == c && v[i..][1..] == v[i + 1..] && "" + [c] == [c];
      ghost var was, rest := out, SplitFrom(v[i + 1..], "");
      if IsSeparator(c) {
        out := out + Flush(cur) + (if c == '_' then ["_"] else []);
        assert out + rest == was + (Flush(cur) + (if c == '_' then ["_"] else []) + rest);
        cur, prevKind := "", 0;
      } else if IsDigit(c) {
        if prevKind == 2 { CutHere(was, v[i..], cur); out, cur := out + Flush(cur), ""; }
        cur, prevKind := cur + [c], 1;
      } else {
        if prevKind == 1 { CutHere(was, v[i..], cur); out, cur := out + Flush(cur), ""; }
        cur, prevKind := cur + [c], 2;
      }
    }
    assert v[|v|..] == [];
    out := out + Flush(cur);
  }

  // ---------------------------------------------------------------------
  // The release counter
  // ---------------------------------------------------------------------

  /** Position of the last "-r", or -1. */
  function LastDashR(v: string): (i: int)
    ensures -1 <= i && (i >= 0 ==> i + 2 <= |v| && v[i] == '-' && v[i + 1] == 'r')
  {
    if |v| < 2 then -1
    else if v[|v| - 2..] == "-r" then |v| - 2
    else LastDashR(v[..|v| - 1])
  }

  datatype Stamped = Stamped(pkgver: string, release: int)

  function Release(v: string): Stamped {
    var i := LastDashR(v);
    if i < 0 || !AllDigits(v[i + 2..]) then Stamped(v, 0)
    else Stamped(v[..i], Accumulate(v[i + 2..], 0))
  }

  method SplitRelease(v: string) returns (r: Stamped)
    ensures r == Release(v)
  {
    var i := LastDashR(v);
    if i < 0 {
      return Stamped(v, 0);
    }
    var tail := v[i + 2..];
    if !AllDigits(tail) {
      return Stamped(v, 0);
    }
    var n := 0;
    assert tail[0..] == tail;
    for k := 0 to |tail|
      invariant Accumulate(tail[k..], n) == Accumulate(tail, 0)
    {
      AccumulateNext(tail, k, n);
      n := Wrap(n * 10 + Digit(tail[k]));
    }
    r := Stamped(v[..i], n);
  }

  lemma AccumulateNext(tail: string, k: nat, n: int)
    requires k < |tail| && OnlyDigits(tail)
    ensures Accumulate(tail[k..], n) == Accumulate(tail[k + 1..], Wrap(n * 10 + Digit(tail[k])))
  {
    assert tail[k..][1..] == tail[k + 1..];
  }

  /** splitPkgver: the same split, reading digits until one is not. */
  method SplitPkgver(v: string) returns (r: Stamped)
    ensures r == Release(v)
  {
    var i := LastDashR(v);
    if i < 0 {
      return Stamped(v, 0);
    }
    var tail := v[i + 2..];
    if tail == "" {
      return Stamped(v, 0);
    }
    var n, k := 0, 0;
    assert tail[0..] == tail;
    while k < |tail|
      invariant k <= |tail| && OnlyDigits(tail[..k])
      invariant OnlyDigits(tail) ==> Accumulate(tail[k..], n) == Accumulate(tail, 0)
    {
      if tail[k] < '0' || tail[k] > '9' {
        return Stamped(v, 0);
      }
      assert tail[..k + 1] == tail[..k] + [tail[k]];
      if OnlyDigits(tail) { AccumulateNext(tail, k, n); }
      n, k := Wrap(n * 10 + Digit(tail[k])), k + 1;
    }
    assert tail[..|tail|] == tail && tail[|tail|..] == [];
    r := Stamped(v[..i], n);
  }

  lemma {:induction false} LastDashRFound(p: string, ds: string)
    requires forall i :: 0 <= i < |ds| ==> ds[i] != 'r'
    ensures LastDashR(p + "-r" + ds) == |p|
    decreases |ds|
  {
    var v := p + "-r" + ds;
    if ds == [] {
      assert v[|v| - 2..] == "-r";
    } else {
      assert v[|v| - 2..][1] == ds[|ds| - 1];
      assert v[..|v| - 1] == p + "-r" + ds[..|ds| - 1];
      LastDashRFound(p, ds[..|ds| - 1]);
    }
  }

  /** Splitting a "%s-r%d" stamp gives back both halves, whatever the version, exactly when the release is not
      negative. */
  lemma StampInvertsIff(p: string, n: int)
    requires n < 0x8000_0000_0000_0000
    ensures Release(p + "-r" + ShowInt(n)) == Stamped(p, n) <==> n >= 0
  {
    var ds := ShowInt(n);
    var v := p + "-r" + ds;
    LastDashRFound(p, ds);
    assert v[|p| + 2..] == ds && v[..|p|] == p;
    if n >= 0 {
      ShowValue(n);
      AccumulateExact(ds, 0);
    } else {
      assert !IsDigit(ds[0]);
    }
  }

  /** A release counter starts at position i: "-r", then digits to the end. */
  predicate CounterAt(v: string, i: nat) {
    i + 2 < |v| && v[i] == '-' && v[i + 1] == 'r' && forall k :: i + 2 <= k < |v| ==> '0' <= v[k] <= '9'
  }

  predicate Counted(v: string) {
    exists i: nat :: i < |v| && CounterAt(v, i)
  }

  lemma {:induction false} LastDashRLast(v: string, i: nat)
    requires i + 2 <= |v| && v[i] == '-' && v[i + 1] == 'r'
    ensures LastDashR(v) >= i
    decreases |v|
  {
    if v[|v| - 2..] == "-r" {
    } else {
      assert v[|v| - 2..][0] == v[|v| - 2] && v[|v| - 2..][1] == v[|v| - 1];
      assert i < |v| - 2;
      LastDashRLast(v[..|v| - 1], i);
    }
  }

  /** Something is split off exactly when the version ends in a counter; otherwise it counts as release 0. */
  lemma CountedIff(v: string)
    ensures Release(v).pkgver != v <==> Counted(v)
    ensures !Counted(v) ==> Release(v) == Stamped(v, 0)
  {
    var i := LastDashR(v);
    if Counted(v) {
      var j: nat :| j < |v| && CounterAt(v, j);
      LastDashRLast(v, j);
      assert v[i] == '-' && v[j + 1] == 'r';
      assert i == j;
      assert |v[..i]| < |v|;
    }
    if i >= 0 && AllDigits(v[i + 2..]) {
      assert forall k :: i + 2 <= k < |v| ==> v[k] == v[i + 2..][k - i - 2];
      assert CounterAt(v, i);
    }
  }

  // ---------------------------------------------------------------------
  // Versions
  // ---------------------------------------------------------------------

  function CompareVersions(a: string, b: string): int {
    if a == b then 0
    else
      var x, y := Release(a), Release(b);
      var c := CompareSegments(Segments(x.pkgver), Segments(y.pkgver));
      if c != 0 then c else Sign(x.release - y.release)
  }

  method Compare(a: string, b: string) returns (r: int)
    ensures r == CompareVersions(a, b)
  {
    if a == b {
      return 0;
    }
    var x := SplitRelease(a);
    var y := SplitRelease(b);
    r := ComparePkgver(x.pkgver, y.pkgver);
    if r == 0 {
      r := if x.release < y.release then -1 else if x.release > y.release then 1 else 0;
    }
  }

  /** Swapping the arguments flips the sign; every two versions compare. */
  lemma VersionsAntisymmetric(a: string, b: string)
    ensures CompareVersions(a, b) == -CompareVersions(b, a) && -1 <= CompareVersions(a, b) <= 1
  {
    SplitSegmented(Release(a).pkgver, "");
    SplitSegmented(Release(b).pkgver, "");
    SegmentsAntisymmetric(Segments(Release(a).pkgver), Segments(Release(b).pkgver));
  }

  /** The shortcut for equal strings agrees with the full comparison. */
  lemma EqualVersions(a: string)
    ensures CompareSegments(Segments(Release(a).pkgver), Segments(Release(a).pkgver)) == 0
  {
    SplitSegmented(Release(a).pkgver, "");
    SegmentsAntisymmetric(Segments(Release(a).pkgver), Segments(Release(a).pkgver));
  }

  lemma VersionsTransitive(a: string, b: string, c: string)
    requires CompareVersions(a, b) <= 0 && CompareVersions(b, c) <= 0
    ensures CompareVersions(a, c) <= 0
    ensures CompareVersions(a, c) == 0 ==> CompareVersions(a, b) == 0 == CompareVersions(b, c)
  {
    EqualVersions(a);
    EqualVersions(b);
    EqualVersions(c);
    SplitSegmented(Release(a).pkgver, "");
    SplitSegmented(Release(b).pkgver, "");
    SplitSegmented(Release(c).pkgver, "");
    SegmentsTransitive(Segments(Release(a).pkgver), Segments(Release(b).pkgver), Segments(Release(c).pkgver));
  }

  // ---------------------------------------------------------------------
  // Numbers decide by value
  // ---------------------------------------------------------------------

  lemma SameSegments(v: string)
    ensures CompareSegments(Segments(v), Segments(v)) == 0
  {
    SplitSegmented(v, "");
    SegmentsAntisymmetric(Segments(v), Segments(v));
  }

  lemma ReleaseOfStamp(p: string, n: nat)
    requires n < 0x8000_0000_0000_0000
    ensures Release(p + "-r" + Show(n)) == Stamped(p, n)
  {
    StampInvertsIff(p, n);
  }

  /** Of two builds of one version the one with the greater release is newer. */
  lemma ReleaseDecides(p: string, i: nat, j: nat)
    requires i < 0x8000_0000_0000_0000 && j < 0x8000_0000_0000_0000
    ensures CompareVersions(p + "-r" + Show(i), p + "-r" + Show(j)) == if i < j then -1 else if i > j then 1 else 0
  {
    ReleaseOfStamp(p, i);
    ReleaseOfStamp(p, j);
    SameSegments(p);
  }

  /** Release 10 is newer than release 2. */
  lemma TenBeatsTwo()
    ensures CompareVersions("1.0-r2", "1.0-r10") == -1
  {
    ReleaseDecides("1.0", 2, 10);
    assert Show(2) == "2" && Show(1) == "1" && Show(10) == "10";
    assert "1.0" + "-r" + "2" == "1.0-r2" && "1.0" + "-r" + "10" == "1.0-r10";
  }

  /** A version without a counter ranks as release 0. */
  lemma NoCounterIsZero(p: string, j: nat)
    requires !Counted(p) && j < 0x8000_0000_0000_0000
    ensures CompareVersions(p, p + "-r" + Show(j)) == if j == 0 then 0 else -1
  {
    CountedIff(p);
    ReleaseOfStamp(p, j);
    SameSegments(p);
  }

  /** Of different versions proper the counter has no say. */
  lemma ProperDecides(p: string, q: string, i: nat, j: nat)
    requires i < 0x8000_0000_0000_0000 && j < 0x8000_0000_0000_0000 && !Counted(p) && !Counted(q)
    requires CompareVersions(p, q) != 0
    ensures CompareVersions(p + "-r" + Show(i), q + "-r" + Show(j)) == CompareVersions(p, q)
  {
    CountedIff(p);
    CountedIff(q);
    ReleaseOfStamp(p, i);
    ReleaseOfStamp(q, j);
  }

  lemma {:induction false} CommonPrefix(s: seq<string>, a: seq<string>, b: seq<string>)
    requires Segmented(s)
    ensures CompareSegments(s + a, s + b) == CompareSegments(a, b)
    decreases |s|
  {
    if s == [] {
      assert s + a == a && s + b == b;
    } else {
      SegmentAntisymmetric(s[0], s[0]);
      CommonPrefix(s[1..], a, b);
      assert (s + a)[1..] == s[1..] + a && (s + b)[1..] == s[1..] + b;
    }
  }

  /** Different versions compare as their segments do behind those they share. */
  lemma TailsDecide(v: string, w: string, s: seq<string>, a: seq<string>, b: seq<string>)
    requires v != w && Segmented(s) && CompareSegments(a, b) != 0
    requires Segments(Release(v).pkgver) == s + a && Segments(Release(w).pkgver) == s + b
    ensures CompareVersions(v, w) == CompareSegments(a, b)
  {
    CommonPrefix(s, a, b);
  }

  /** At the start of a version, or behind a dot. */
  predicate AtComponent(q: string) {
    q == "" || q[|q| - 1] == '.'
  }

  predicate NoDigitFirst(x: string) {
    x == "" || !('0' <= x[0] <= '9')
  }

  lemma {:induction false} DigitRun(d: string, x: string, cur: string)
    requires AllDigits(cur + d) && OnlyDigits(cur) && NoDigitFirst(x)
    ensures SplitFrom(d + x, cur) != [] && SplitFrom(d + x, cur)[0] == cur + d
    decreases |d|
  {
    if d == "" {
      assert d + x == x && cur + d == cur;
    } else {
      assert (d + x)[1..] == d[1..] + x && cur + [d[0]] + d[1..] == cur + d;
      assert (cur + d)[|cur|] == d[0];
      DigitRun(d[1..], x, cur + [d[0]]);
    }
  }

  lemma DotSplits(v: string, w: string)
    ensures Segments(v + "." + w) == Segments(v) + Segments(w)
  {
    SplitAt(v, '.', w, "");
    assert v + ['.'] + w == v + "." + w;
  }

  /** The segments in front of a component. */
  function SegmentsBefore(q: string): seq<string> {
    if q == "" then [] else Segments(q[..|q| - 1])
  }

  lemma BehindDot(q: string, t: string)
    requires AtComponent(q)
    ensures Segments(q + t) == SegmentsBefore(q) + Segments(t) && Segmented(SegmentsBefore(q))
  {
    if q == "" {
      assert q + t == t && [] + Segments(t) == Segments(t);
    } else {
      var before := q[..|q| - 1];
      SplitSegmented(before, "");
      DotSplits(before, t);
      assert q + t == before + "." + t;
    }
  }

  /** The digits of a component are one segment, behind those of what precedes it. */
  lemma ComponentSegments(q: string, d: string, x: string) returns (rest: seq<string>)
    requires AtComponent(q) && AllDigits(d) && NoDigitFirst(x)
    ensures Segmented(SegmentsBefore(q)) && Segments(q + d + x) == SegmentsBefore(q) + ([d] + rest)
  {
    DigitRun(d, x, "");
    assert "" + d == d;
    rest := Segments(d + x)[1..];
    BehindDot(q, d + x);
    assert q + d + x == q + (d + x) && Segments(d + x) == [d] + rest;
  }

  /** No release is split off in front of the end of a component. */
  lemma ComponentStays(q: string, d: string, x: string) returns (kept: string)
    requires AtComponent(q) && AllDigits(d) && NoDigitFirst(x)
    ensures Release(q + d + x).pkgver == q + d + kept && NoDigitFirst(kept)
  {
    var t := q + d + x;
    var i := LastDashR(t);
    kept := x;
    if i >= 0 && AllDigits(t[i + 2..]) {
      assert forall k :: |q| <= k < |q + d| ==> IsDigit(t[k]);
      assert q != "" ==> t[|q| - 1] == '.';
      assert forall k :: i + 2 <= k < |t| ==> t[k] == t[i + 2..][k - i - 2];
      assert i >= |q + d|;
      kept := x[..i - |q + d|];
      assert t[..i] == q + d + kept;
    }
  }

  lemma DigitsCompare(d: string, e: string, m: seq<string>, n: seq<string>)
    requires AllDigits(d) && AllDigits(e) && Value(d) != Value(e)
    ensures CompareSegments([d] + m, [e] + n) == if Value(d) < Value(e) then -1 else 1
  {
    RankDecides(d, e);
  }

  /** The first component that differs in value decides, whatever follows. */
  lemma FirstNumberDecides(q: string, d: string, e: string, x: string, y: string)
    requires AtComponent(q) && AllDigits(d) && AllDigits(e) && NoDigitFirst(x) && NoDigitFirst(y)
    requires Value(d) != Value(e)
    ensures CompareVersions(q + d + x, q + e + y) == if Value(d) < Value(e) then -1 else 1
  {
    var x' := ComponentStays(q, d, x);
    var y' := ComponentStays(q, e, y);
    var m := ComponentSegments(q, d, x');
    var n := ComponentSegments(q, e, y');
    DigitsCompare(d, e, m, n);
    if q + d + x == q + e + y {
      SameSegments(q + d + x');
      CommonPrefix(SegmentsBefore(q), [d] + m, [e] + n);
    } else {
      TailsDecide(q + d + x, q + e + y, SegmentsBefore(q), [d] + m, [e] + n);
    }
  }

  // ---------------------------------------------------------------------
  // Underscore suffixes
  // ---------------------------------------------------------------------

  /** A release is only ever split off behind an underscore. */
  lemma UnderscoreStays(v: string, w: string) returns (kept: string)
    ensures Release(v + "_" + w).pkgver == v + "_" + kept
  {
    var t := v + "_" + w;
    var i := LastDashR(t);
    kept := w;
    if i >= 0 && AllDigits(t[i + 2..]) {
      assert t[|v|] == '_';
      var tail := t[i + 2..];
      assert forall k :: 0 <= k < |tail| ==> tail[k] == t[i + 2 + k] && tail[k] != '_';
      assert |v| < i;
      kept := w[..i - |v| - 1];
      assert t[..i] == v + "_" + kept;
    }
  }

  /** What follows a split-off release counts as an extra segment "r", which is no prerelease. */
  lemma StampedRanksAbove(p: string, ds: string, more: string)
    requires AllDigits(ds)
    ensures CompareSegments(Segments(p + "-r" + ds + more), Segments(p)) == 1
  {
    var rest := "r" + (ds + more);
    assert p + "-r" + ds + more == p + "-" + rest;
    SplitAt(p, '-', rest, "");
    assert rest[1..] == ds + more && IsDigit((ds + more)[0]) && "" + ['r'] == "r";
    assert Segments(rest) == SplitFrom(ds + more, "r");
    var tail := SplitFrom((ds + more)[1..], [ds[0]]);
    assert Segments(rest) == ["r"] + tail;
    SplitSegmented(p, "");
    EndRanksBetween(Segments(p), "r", tail);
    assert Segments(p + "-" + rest) == Segments(p) + ["r"] + tail;
  }

  /** An underscore suffix makes a version older exactly when the version carries no release counter; behind one,
      newer. */
  lemma UnderscoreIsOlderIff(v: string, w: string)
    ensures CompareVersions(v + "_" + w, v) == if Counted(v) then 1 else -1
  {
    var kept := UnderscoreStays(v, w);
    CountedIff(v);
    assert |v + "_" + w| > |v|;
    if Release(v).pkgver == v {
      UnderscoreRanksBelow(v, kept);
    } else {
      var i := LastDashR(v);
      var p, ds := v[..i], v[i + 2..];
      assert v == p + "-r" + ds;
      StampedRanksAbove(p, ds, "_" + kept);
      assert p + "-r" + ds + ("_" + kept) == v + "_" + kept;
    }
  }

  /** In front of the release counter an underscore suffix always makes the version older, whatever the releases. */
  lemma UnderscoreOlderStamped(p: string, w: string, i: nat, j: nat)
    ensures CompareVersions(p + "_" + w + "-r" + Show(i), p + "-r" + Show(j)) == -1
  {
    StampSplits(p + "_" + w, Show(i));
    StampSplits(p, Show(j));
    assert |p + "_" + w| > |p|;
    UnderscoreRanksBelow(p, w);
  }

  /** And older than any further component, its own included. */
  lemma UnderscoreBelowComponent(v: string, w: string, d: string, x: string)
    requires AllDigits(d) && NoDigitFirst(x)
    ensures CompareVersions(v + "_" + w, v + "." + d + x) == -1
  {
    var w' := UnderscoreStays(v, w);
    var x' := ComponentStays(v + ".", d, x);
    var rest := ComponentSegments(v + ".", d, x');
    var s := Segments(v);
    assert (v + ".")[..|v|] == v;
    SplitAt(v, '_', w', "");
    assert v + ['_'] + w' == v + "_" + w';
    assert s + ["_"] + Segments(w') == s + (["_"] + Segments(w'));
    UnderscoreFirst(Segments(w'), d, rest);
    assert (v + "_" + w)[|v|] == '_' && (v + "." + d + x)[|v|] == '.';
    TailsDecide(v + "_" + w, v + "." + d + x, s, ["_"] + Segments(w'), [d] + rest);
  }

  lemma UnderscoreFirst(m: seq<string>, d: string, n: seq<string>)
    requires AllDigits(d)
    ensures CompareSegments(["_"] + m, [d] + n) == -1
  {
    RankDecides("_", d);
  }

  lemma {:induction false} DigitsThenLetter(d: string, a: char, cur: string)
    requires AllDigits(cur + d) && OnlyDigits(cur) && 'a' <= a <= 'z'
    ensures SplitFrom(d + [a], cur) == [cur + d, [a]] && SplitFrom(d, cur) == [cur + d]
    decreases |d|
  {
    if d == "" {
      assert d + [a] == [a] && cur + d == cur && [a][1..] == "";
      assert SplitFrom([a][1..], [a]) == [[a]];
    } else {
      assert (d + [a])[1..] == d[1..] + [a] && cur + [d[0]] + d[1..] == cur + d;
      assert (cur + d)[|cur|] == d[0];
      DigitsThenLetter(d[1..], a, cur + [d[0]]);
    }
  }

  lemma LetterSegments(q: string, d: string, a: char)
    requires AtComponent(q) && AllDigits(d) && 'a' <= a <= 'z'
    ensures Segmented(Segments(q + d)) && Segments(q + d + [a]) == Segments(q + d) + [[a]]
  {
    DigitsThenLetter(d, a, "");
    assert "" + d == d;
    BehindDot(q, d);
    BehindDot(q, d + [a]);
    SplitSegmented(q + d, "");
    assert q + (d + [a]) == q + d + [a];
    assert SegmentsBefore(q) + [d, [a]] == SegmentsBefore(q) + [d] + [[a]];
  }

  lemma NoCounterHere(q: string, d: string, x: string)
    requires AtComponent(q) && AllDigits(d) && (x == "" || (|x| == 1 && 'a' <= x[0] <= 'z'))
    ensures Release(q + d + x) == Stamped(q + d + x, 0)
  {
    var v := q + d + x;
    CountedIff(v);
    assert forall k :: |q| <= k < |q + d| ==> IsDigit(v[k]);
    assert q != "" ==> v[|q| - 1] == '.';
    assert x != "" ==> v[|v| - 1] == x[0];
    forall i: nat | i < |v| ensures !CounterAt(v, i) {}
  }

  lemma LettersCompare(a: char, b: char)
    requires 'a' <= a < b <= 'z'
    ensures CompareSegments([[a]], [[b]]) == -1
  {
    HeadDecides([a], [b]);
  }

  lemma LetterCompares(a: char)
    requires 'a' <= a <= 'z'
    ensures CompareSegments([[a]], []) == 1
  {
  }

  /** Of two letters behind the same number the later one is newer. */
  lemma LetterDecides(q: string, d: string, a: char, b: char)
    requires AtComponent(q) && AllDigits(d) && 'a' <= a < b <= 'z'
    ensures CompareVersions(q + d + [a], q + d + [b]) == -1
  {
    LetterSegments(q, d, a);
    LetterSegments(q, d, b);
    NoCounterHere(q, d, [a]);
    NoCounterHere(q, d, [b]);
    LettersCompare(a, b);
    assert (q + d + [a])[|q + d|] == a && (q + d + [b])[|q + d|] == b;
    TailsDecide(q + d + [a], q + d + [b], Segments(q + d), [[a]], [[b]]);
  }

  /** And any letter is newer than none. */
  lemma LetterIsNewer(q: string, d: string, a: char)
    requires AtComponent(q) && AllDigits(d) && 'a' <= a <= 'z'
    ensures CompareVersions(q + d + [a], q + d) == 1
  {
    LetterSegments(q, d, a);
    NoCounterHere(q, d, [a]);
    NoCounterHere(q, d, "");
    assert q + d + "" == q + d && Segments(q + d) + [] == Segments(q + d);
    LetterCompares(a);
    assert |q + d + [a]| > |q + d|;
    TailsDecide(q + d + [a], q + d, Segments(q + d), [[a]], []);
  }

  lemma StampSplits(p: string, ds: string)
    requires AllDigits(ds)
    ensures Release(p + "-r" + ds).pkgver == p
  {
    var v := p + "-r" + ds;
    LastDashRFound(p, ds);
    assert v[|p| + 2..] == ds && v[..|p|] == p;
  }

  /** A suffix behind the release counter: "1-r2_x" is newer than "1-r2". */
  lemma UnderscoreBehindRelease()
    ensures CompareVersions("1-r2_x", "1-r2") == 1
  {
    LastDashRFound("1", "2");
    assert "1" + "-r" + "2" == "1-r2" && "1-r2" + "_" + "x" == "1-r2_x";
    assert CounterAt("1-r2", 1);
    UnderscoreIsOlderIff("1-r2", "x");
  }

  /** A negative release does not come back: the whole stamp is taken for the version. */
  lemma NegativeStamp()
    ensures Release("1" + "-r" + ShowInt(-1)) != Stamped("1", -1)
  {
    StampInvertsIff("1", -1);
  }
}
