/**
 The console log of internal/serial/logwriter.go: a byte stream with terminal
 escape sequences (ECMA-35, ECMA-48) becomes lines of text.
 */
module ConsoleLog {
  import opened Bytes

  const ESC: Byte := 0x1b
  const BEL: Byte := 0x07
  const CR: Byte := 0x0d
  const LF: Byte := 0x0a
  const TAB: Byte := 0x09
  const OPEN: Byte := 0x5b
  const CLOSE: Byte := 0x5d

  datatype Escape = None | Esc | Csi | Osc

  /** A byte worth logging when it is not part of an escape sequence. */
  predicate Printable(b: Byte) {
    b == TAB || (b >= 0x20 && b != 0x7f)
  }

  predicate CsiFinal(b: Byte) {
    0x40 <= b <= 0x7e
  }

  /** Where an escape sequence stands after one more byte. */
  function Next(e: Escape, b: Byte): Escape {
    match e
    case None => if b == ESC then Esc else None
    case Esc => if b == OPEN then Csi else if b == CLOSE then Osc else None
    case Csi => if CsiFinal(b) then None else Csi
    case Osc => if b == BEL then None else if b == ESC then Esc else Osc
  }

  function After(e: Escape, s: Data): Escape
    decreases |s|
  {
    if s == [] then e else After(Next(e, s[0]), s[1..])
  }

  /** The printable bytes of s outside escape sequences, in order. */
  function Text(e: Escape, s: Data): Data
    decreases |s|
  {
    if s == [] then []
    else (if e == None && Printable(s[0]) then [s[0]] else []) + Text(Next(e, s[0]), s[1..])
  }

  lemma TextHead(e: Escape, b: Byte, s: Data)
    ensures Text(e, [b] + s) == Text(e, [b]) + Text(Next(e, b), s)
    ensures After(e, [b] + s) == After(Next(e, b), s)
  {
    assert ([b] + s)[1..] == s;
    assert Text(e, [b]) == (if e == None && Printable(b) then [b] else []) + Text(Next(e, b), [b][1..]);
  }

  lemma {:induction false} TextJoin(e: Escape, s: Data, t: Data)
    ensures Text(e, s + t) == Text(e, s) + Text(After(e, s), t)
    ensures After(e, s + t) == After(After(e, s), t)
    decreases |s|
  {
    if s == [] {
      assert s + t == t;
    } else {
      var f, rest := Next(e, s[0]), s[1..];
      assert s + t == [s[0]] + (rest + t);
      TextJoin(f, rest, t);
      TextHead(e, s[0], rest + t);
      TextHead(e, s[0], rest);
      assert s == [s[0]] + rest;
    }
  }

  // ---------------------------------------------------------------------
  // The machine
  // ---------------------------------------------------------------------

  datatype Logged = Line(body: Data) | Mark(text: string)

  datatype Log = Log(esc: Escape, line: Data, crFlushed: bool, out: seq<Logged>)

  const EMPTY := Log(None, [], false, [])

  function FlushLine(l: Log): Log {
    l.(line := [], out := l.out + [Line(l.line)])
  }

  function FlushPending(l: Log): Log {
    if l.line != [] then FlushLine(l) else l
  }

  function Feed(l: Log, b: Byte): Log {
    if l.esc != None then l.(esc := Next(l.esc, b))
    else if b == ESC then l.(esc := Esc)
    else if b == LF then (if l.crFlushed then l.(crFlushed := false) else FlushLine(l))
    else if b == CR then (if l.line != [] then FlushLine(l).(crFlushed := true) else l)
    else if Printable(b) then l.(crFlushed := false, line := l.line + [b])
    else l
  }

  function FeedAll(l: Log, s: Data): Log
    decreases |s|
  {
    if s == [] then l else FeedAll(Feed(l, s[0]), s[1..])
  }

  /** A chunk boundary is invisible. */
  lemma {:induction false} FeedJoin(l: Log, s: Data, t: Data)
    ensures FeedAll(l, s + t) == FeedAll(FeedAll(l, s), t)
    decreases |s|
  {
    if s == [] {
      assert s + t == t;
    } else {
      assert (s + t)[1..] == s[1..] + t;
      FeedJoin(Feed(l, s[0]), s[1..], t);
    }
  }

  // ---------------------------------------------------------------------
  // Runs of events
  // ---------------------------------------------------------------------

  /** Idle is the timer firing; Flush also stands for Close. */
  datatype Event = Write(p: Data) | Idle | Flush | Marker(text: string)

  function Step(l: Log, e: Event): Log {
    match e
    case Write(p) => FeedAll(l, p)
    case Idle => FlushPending(l)
    case Flush => FlushPending(l)
    case Marker(text) => var f := FlushPending(l); f.(out := f.out + [Mark(text)])
  }

  function Run(l: Log, es: seq<Event>): Log
    decreases |es|
  {
    if es == [] then l else Run(Step(l, es[0]), es[1..])
  }

  function Input(es: seq<Event>): Data {
    if es == [] then [] else (if es[0].Write? then es[0].p else []) + Input(es[1..])
  }

  function Markers(es: seq<Event>): seq<string> {
    if es == [] then [] else (if es[0].Marker? then [es[0].text] else []) + Markers(es[1..])
  }

  /** What the log holds of the console: line bodies end to end. */
  function Bodies(out: seq<Logged>): Data {
    if out == [] then [] else (if out[0].Line? then out[0].body else []) + Bodies(out[1..])
  }

  function Marks(out: seq<Logged>): seq<string> {
    if out == [] then [] else (if out[0].Mark? then [out[0].text] else []) + Marks(out[1..])
  }

  lemma {:induction false} BodiesAppend(out: seq<Logged>, x: Logged)
    ensures Bodies(out + [x]) == Bodies(out) + (if x.Line? then x.body else [])
  {
    if out == [] {
      assert (out + [x])[1..] == [];
    } else {
      assert (out + [x])[1..] == out[1..] + [x];
      BodiesAppend(out[1..], x);
    }
  }

  lemma {:induction false} MarksAppend(out: seq<Logged>, x: Logged)
    ensures Marks(out + [x]) == Marks(out) + (if x.Mark? then [x.text] else [])
  {
    if out == [] {
      assert (out + [x])[1..] == [];
    } else {
      assert (out + [x])[1..] == out[1..] + [x];
      MarksAppend(out[1..], x);
    }
  }

  lemma OutAppend(out: seq<Logged>, x: Logged)
    ensures Bodies(out + [x]) == Bodies(out) + (if x.Line? then x.body else [])
    ensures Marks(out + [x]) == Marks(out) + (if x.Mark? then [x.text] else [])
  {
    BodiesAppend(out, x);
    MarksAppend(out, x);
  }

  /** Everything logged so far: the emitted bodies and the pending line. */
  function Kept(l: Log): Data {
    Bodies(l.out) + l.line
  }

  lemma FlushKeeps(l: Log)
    ensures Kept(FlushLine(l)) == Kept(l) && Kept(FlushPending(l)) == Kept(l)
    ensures Marks(FlushLine(l).out) == Marks(l.out) && Marks(FlushPending(l).out) == Marks(l.out)
  {
    OutAppend(l.out, Line(l.line));
  }

  lemma FeedKeeps(l: Log, b: Byte)
    ensures Kept(Feed(l, b)) == Kept(l) + (if l.esc == None && Printable(b) then [b] else [])
    ensures Feed(l, b).esc == Next(l.esc, b) && Marks(Feed(l, b).out) == Marks(l.out)
  {
    var f := Feed(l, b);
    if l.esc == None && Printable(b) {
      assert f == l.(crFlushed := false, line := l.line + [b]);
      assert Bodies(l.out) + l.line + [b] == Bodies(l.out) + (l.line + [b]);
    } else {
      assert Kept(l) + [] == Kept(l);
      if f.out != l.out { FlushKeeps(l); }
    }
  }

  lemma {:induction false} FeedAllKeeps(l: Log, s: Data)
    ensures Kept(FeedAll(l, s)) == Kept(l) + Text(l.esc, s)
    ensures FeedAll(l, s).esc == After(l.esc, s) && Marks(FeedAll(l, s).out) == Marks(l.out)
    decreases |s|
  {
    if s == [] {
    } else {
      FeedKeeps(l, s[0]);
      FeedAllKeeps(Feed(l, s[0]), s[1..]);
    }
  }

  lemma StepKeeps(l: Log, e: Event)
    ensures Kept(Step(l, e)) == Kept(l) + (if e.Write? then Text(l.esc, e.p) else [])
    ensures Step(l, e).esc == if e.Write? then After(l.esc, e.p) else l.esc
    ensures Marks(Step(l, e).out) == Marks(l.out) + (if e.Marker? then [e.text] else [])
  {
    FlushKeeps(l);
    if e.Write? { FeedAllKeeps(l, e.p); }
    if e.Marker? { OutAppend(FlushPending(l).out, Mark(e.text)); }
  }

  /** The input and the markers of the first event, and of the rest. */
  function InputOf(e: Event): Data {
    if e.Write? then e.p else []
  }

  function MarkersOf(e: Event): seq<string> {
    if e.Marker? then [e.text] else []
  }

  lemma Uncons(l: Log, es: seq<Event>)
    requires es != []
    ensures Run(l, es) == Run(Step(l, es[0]), es[1..])
    ensures Input(es) == InputOf(es[0]) + Input(es[1..]) && Markers(es) == MarkersOf(es[0]) + Markers(es[1..])
  {
  }

  /** What l keeps, then m: the text of both inputs, and both lots of markers. */
  ghost predicate Carries(l: Log, m: Log, s: Data, marks: seq<string>) {
    Kept(m) == Kept(l) + Text(l.esc, s) && m.esc == After(l.esc, s) && Marks(m.out) == Marks(l.out) + marks
  }

  lemma CarriesOn(l: Log, m: Log, n: Log, s: Data, t: Data, a: seq<string>, b: seq<string>)
    requires Carries(l, m, s, a) && Carries(m, n, t, b)
    ensures Carries(l, n, s + t, a + b)
  {
    TextJoin(l.esc, s, t);
  }

  lemma StepCarries(l: Log, e: Event)
    ensures Carries(l, Step(l, e), InputOf(e), MarkersOf(e))
  {
    StepKeeps(l, e);
  }

  lemma {:induction false} RunKeeps(l: Log, es: seq<Event>)
    ensures Carries(l, Run(l, es), Input(es), Markers(es))
    decreases |es|
  {
    if es == [] {
    } else {
      var m, n := Step(l, es[0]), Run(l, es);
      Uncons(l, es);
      StepCarries(l, es[0]);
      RunKeeps(m, es[1..]);
      CarriesOn(l, m, n, InputOf(es[0]), Input(es[1..]), MarkersOf(es[0]), Markers(es[1..]));
    }
  }

  /** Over every interleaving nothing printable is lost, repeated or reordered, and every marker is logged. */
  lemma NothingLost(es: seq<Event>)
    ensures Kept(Run(EMPTY, es)) == Text(None, Input(es))
    ensures Marks(Run(EMPTY, es).out) == Markers(es)
  {
    RunKeeps(EMPTY, es);
  }

  lemma {:induction false} WritesOnly(l: Log, es: seq<Event>)
    requires forall i :: 0 <= i < |es| ==> es[i].Write?
    ensures Run(l, es) == FeedAll(l, Input(es))
    decreases |es|
  {
    if es == [] {
    } else {
      WritesOnly(Step(l, es[0]), es[1..]);
      FeedJoin(l, es[0].p, Input(es[1..]));
    }
  }

  /** Without flushes the log depends only on the bytes, not on how they were chunked. */
  lemma ChunkingInvisible(es: seq<Event>, fs: seq<Event>)
    requires forall i :: 0 <= i < |es| ==> es[i].Write?
    requires forall i :: 0 <= i < |fs| ==> fs[i].Write?
    requires Input(es) == Input(fs)
    ensures Run(EMPTY, es) == Run(EMPTY, fs)
  {
    WritesOnly(EMPTY, es);
    WritesOnly(EMPTY, fs);
  }

  // ---------------------------------------------------------------------
  // Line ends
  // ---------------------------------------------------------------------

  /** A pending byte means the last line end is behind us. */
  predicate Sound(l: Log) {
    l.line != [] ==> !l.crFlushed
  }

  lemma {:induction false} RunSound(l: Log, es: seq<Event>)
    requires Sound(l)
    ensures Sound(Run(l, es))
    decreases |es|
  {
    if es == [] {
    } else {
      if es[0].Write? { FeedAllSound(l, es[0].p); }
      RunSound(Step(l, es[0]), es[1..]);
    }
  }

  lemma {:induction false} FeedAllSound(l: Log, s: Data)
    requires Sound(l)
    ensures Sound(FeedAll(l, s))
    decreases |s|
  {
    if s == [] {
    } else {
      FeedAllSound(Feed(l, s[0]), s[1..]);
    }
  }

  lemma FeedFew(l: Log, a: Byte, b: Byte)
    ensures FeedAll(l, [a]) == Feed(l, a)
    ensures FeedAll(l, [a, b]) == Feed(Feed(l, a), b)
  {
    assert [a][1..] == [] && [a, b][1..] == [b] && [b][1..] == [];
    assert FeedAll(Feed(l, a), [b]) == FeedAll(Feed(Feed(l, a), b), [b][1..]);
  }

  /** CR LF ends exactly one line, the pending one, exactly when a bare CR has not just ended one already. */
  lemma CrlfEndsOneLineIff(es: seq<Event>)
    requires Run(EMPTY, es).esc == None
    ensures var l := Run(EMPTY, es);
            FeedAll(l, [CR, LF]).out == l.out + [Line(l.line)] <==> !l.crFlushed
  {
    RunSound(EMPTY, es);
    var l := Run(EMPTY, es);
    FeedFew(l, CR, LF);
  }

  /** A line ended by CR, and then an empty one ended by CR LF: the second end is swallowed. */
  lemma CrThenCrlf()
    ensures var l := Run(EMPTY, [Write([0x61, CR])]);
            l.out == [Line([0x61])] && l.esc == None && FeedAll(l, [CR, LF]).out == l.out
  {
    FeedFew(EMPTY, 0x61, CR);
    var l := FeedAll(EMPTY, [0x61, CR]);
    assert Run(EMPTY, [Write([0x61, CR])]) == l by {
      assert [Write([0x61, CR])][1..] == [];
      assert Run(EMPTY, [Write([0x61, CR])]) == Run(l, []);
    }
    assert [] + [0x61 as Byte] == [0x61];
    FeedFew(l, CR, LF);
  }

  /** An idle flush between a line and its CR LF costs a blank line. */
  lemma IdleSplitsCrlf(body: Data)
    requires body != [] && Plain(body)
    ensures Run(EMPTY, [Write(body), Write([CR, LF])]).out == [Line(body)]
    ensures Run(EMPTY, [Write(body), Idle, Write([CR, LF])]).out == [Line(body), Line([])]
  {
    PlainText(EMPTY, body);
    assert [] + body == body;
    var l := FeedAll(EMPTY, body);
    var k := FlushPending(l);
    FeedFew(l, CR, LF);
    FeedFew(k, CR, LF);
    var es := [Write(body), Write([CR, LF])];
    assert Run(EMPTY, es) == Run(l, es[1..]) == Run(FeedAll(l, [CR, LF]), es[1..][1..]);
    var fs := [Write(body), Idle, Write([CR, LF])];
    assert Run(EMPTY, fs) == Run(l, fs[1..]) == Run(k, fs[1..][1..]) == Run(FeedAll(k, [CR, LF]), fs[1..][1..][1..]);
  }

  predicate Plain(s: Data) {
    forall i :: 0 <= i < |s| ==> Printable(s[i])
  }

  lemma {:induction false} PlainText(l: Log, s: Data)
    requires l.esc == None && Plain(s)
    ensures FeedAll(l, s) == l.(line := l.line + s, crFlushed := l.crFlushed && s == [])
    decreases |s|
  {
    if s != [] {
      PlainText(Feed(l, s[0]), s[1..]);
      assert l.line + s == l.line + [s[0]] + s[1..];
    } else {
      assert l.line + s == l.line;
    }
  }

  /** Lines ended by LF or by CR LF, in any mix. */
  function Terminated(bodies: seq<Data>, crlf: seq<bool>): Data
    requires |crlf| == |bodies|
  {
    if bodies == [] then []
    else bodies[0] + (if crlf[0] then [CR, LF] else [LF]) + Terminated(bodies[1..], crlf[1..])
  }

  function Lines(bodies: seq<Data>): seq<Logged> {
    seq(|bodies|, i requires 0 <= i < |bodies| => Line(bodies[i]))
  }

  /** The log of such lines is those lines, blank ones included. */
  lemma {:induction false} LinesRoundTrip(l: Log, bodies: seq<Data>, crlf: seq<bool>)
    requires |crlf| == |bodies| && l.esc == None && l.line == [] && !l.crFlushed
    requires forall i :: 0 <= i < |bodies| ==> Plain(bodies[i])
    ensures FeedAll(l, Terminated(bodies, crlf)) == l.(out := l.out + Lines(bodies))
    decreases |bodies|
  {
    if bodies == [] {
      assert l.out + Lines(bodies) == l.out;
    } else {
      var b, end, rest := bodies[0], if crlf[0] then [CR, LF] else [LF], Terminated(bodies[1..], crlf[1..]);
      assert Terminated(bodies, crlf) == b + end + rest;
      FeedJoin(l, b + end, rest);
      FeedJoin(l, b, end);
      PlainText(l, b);
      assert l.line + b == b;
      EndsLine(FeedAll(l, b), end);
      var m := l.(out := l.out + [Line(b)]);
      assert FeedAll(l, b + end) == m;
      LinesRoundTrip(m, bodies[1..], crlf[1..]);
      assert l.out + [Line(b)] + Lines(bodies[1..]) == l.out + Lines(bodies);
    }
  }

  lemma EndsLine(l: Log, end: Data)
    requires l.esc == None && !l.crFlushed && (end == [LF] || end == [CR, LF])
    ensures FeedAll(l, end) == FlushLine(l)
  {
    FeedFew(l, LF, LF);
    FeedFew(l, CR, LF);
  }

  // ---------------------------------------------------------------------
  // Escape sequences
  // ---------------------------------------------------------------------

  /** What a terminal takes for one unit: a byte on its own; an escape sequence of intermediate bytes and a final one
      (ECMA-35); a control sequence (section 5.4 of ECMA-48); an operating system command ended by BEL or by ESC and one
      byte; another control string, DCS, SOS, PM or APC, ended by ESC and a backslash (section 5.6 of ECMA-48). */
  datatype Token =
    | Single(b: Byte)
    | Sequence(intermediates: Data, final: Byte)
    | Control(params: Data, final: Byte)
    | Command(payload: Data, bel: bool, st: Byte)
    | ControlString(intro: Byte, payload: Data)

  const DCS: Byte := 0x50
  const SOS: Byte := 0x58
  const PM: Byte := 0x5e
  const APC: Byte := 0x5f
  const BACKSLASH: Byte := 0x5c

  predicate Opens(b: Byte) {
    b == DCS || b == SOS || b == PM || b == APC
  }

  predicate WellFormed(t: Token) {
    match t
    case Single(b) => b != ESC
    case Sequence(mid, f) =>
      && (forall i :: 0 <= i < |mid| ==> 0x20 <= mid[i] <= 0x2f) && 0x30 <= f <= 0x7e
      && (mid == [] ==> f != OPEN && f != CLOSE && !Opens(f))
    case Control(ps, f) => CsiFinal(f) && forall i :: 0 <= i < |ps| ==> !CsiFinal(ps[i])
    case Command(ps, bel, st) => st != OPEN && st != CLOSE && forall i :: 0 <= i < |ps| ==> ps[i] != BEL && ps[i] != ESC
    case ControlString(intro, ps) => Opens(intro) && forall i :: 0 <= i < |ps| ==> ps[i] != ESC
  }

  function Render(t: Token): Data {
    match t
    case Single(b) => [b]
    case Sequence(mid, f) => [ESC] + (mid + [f])
    case Control(ps, f) => [ESC, OPEN] + (ps + [f])
    case Command(ps, bel, st) => [ESC, CLOSE] + (ps + (if bel then [BEL] else [ESC, st]))
    case ControlString(intro, ps) => [ESC, intro] + (ps + [ESC, BACKSLASH])
  }

  function RenderAll(ts: seq<Token>): Data {
    if ts == [] then [] else Render(ts[0]) + RenderAll(ts[1..])
  }

  /** The printable bytes that stand alone. */
  function Singles(ts: seq<Token>): Data {
    if ts == [] then []
    else (if ts[0].Single? && Printable(ts[0].b) then [ts[0].b] else []) + Singles(ts[1..])
  }

  function Printables(s: Data): Data {
    if s == [] then [] else (if Printable(s[0]) then [s[0]] else []) + Printables(s[1..])
  }

  /** What a token leaves in the log: of an escape sequence all but the first byte after ESC, of a control string its
      text. */
  function Leaves(t: Token): Data {
    match t
    case Single(b) => if Printable(b) then [b] else []
    case Sequence(mid, f) => if mid == [] then [] else mid[1..] + [f]
    case Control(_, _) => []
    case Command(_, _, _) => []
    case ControlString(_, ps) => Printables(ps)
  }

  function LeavesAll(ts: seq<Token>): Data {
    if ts == [] then [] else Leaves(ts[0]) + LeavesAll(ts[1..])
  }

  /** An escape sequence with intermediate bytes, or a control string with text in it. */
  predicate Leaks(t: Token) {
    || (t.Sequence? && t.intermediates != [])
    || (t.ControlString? && exists i :: 0 <= i < |t.payload| && Printable(t.payload[i]))
  }

  /** Bytes that do not end a sequence are swallowed. */
  lemma {:induction false} Swallowed(e: Escape, s: Data)
    requires e == Csi || e == Osc
    requires forall i :: 0 <= i < |s| ==> Next(e, s[i]) == e
    ensures Text(e, s) == [] && After(e, s) == e
  {
    if s == [] {
    } else {
      Swallowed(e, s[1..]);
    }
  }

  lemma TwoBytes(e: Escape, a: Byte, b: Byte)
    ensures Text(e, [a, b]) ==
            (if e == None && Printable(a) then [a] else []) + (if Next(e, a) == None && Printable(b) then [b] else [])
    ensures After(e, [a, b]) == Next(Next(e, a), b)
  {
    assert [a, b][1..] == [b] && [b][1..] == [];
    assert Text(Next(e, a), [b]) == (if Next(e, a) == None && Printable(b) then [b] else [])
      + Text(Next(Next(e, a), b), []);
    assert After(Next(e, a), [b]) == Next(Next(e, a), b);
  }

  /** Outside a sequence, bytes other than ESC are logged if they are printable. */
  lemma {:induction false} OutsideText(s: Data)
    requires forall i :: 0 <= i < |s| ==> s[i] != ESC
    ensures Text(None, s) == Printables(s) && After(None, s) == None
  {
    if s == [] {
    } else {
      OutsideText(s[1..]);
    }
  }

  lemma {:induction false} AllPrintable(s: Data)
    requires forall i :: 0 <= i < |s| ==> Printable(s[i])
    ensures Printables(s) == s
  {
    if s == [] {
    } else {
      AllPrintable(s[1..]);
    }
  }

  lemma SequenceText(mid: Data, f: Byte)
    requires WellFormed(Sequence(mid, f))
    ensures Text(None, Render(Sequence(mid, f))) == Leaves(Sequence(mid, f))
            && After(None, Render(Sequence(mid, f))) == None
  {
    if mid == [] {
      TwoBytes(None, ESC, f);
      assert [ESC] + (mid + [f]) == [ESC, f];
    } else {
      var rest := mid[1..] + [f];
      TwoBytes(None, ESC, mid[0]);
      assert [ESC] + (mid + [f]) == [ESC, mid[0]] + rest;
      TextJoin(None, [ESC, mid[0]], rest);
      OutsideText(rest);
      AllPrintable(rest);
    }
  }

  lemma StringText(intro: Byte, ps: Data)
    requires WellFormed(ControlString(intro, ps))
    ensures Text(None, Render(ControlString(intro, ps))) == Printables(ps)
            && After(None, Render(ControlString(intro, ps))) == None
  {
    TwoBytes(None, ESC, intro);
    TextJoin(None, [ESC, intro], ps + [ESC, BACKSLASH]);
    OutsideText(ps);
    TextJoin(None, ps, [ESC, BACKSLASH]);
    TwoBytes(None, ESC, BACKSLASH);
  }

  lemma TokenText(t: Token)
    requires WellFormed(t)
    ensures Text(None, Render(t)) == Leaves(t) && After(None, Render(t)) == None
  {
    match t
    case Single(b) =>
      assert [b][1..] == [];
    case Sequence(mid, f) =>
      SequenceText(mid, f);
    case Control(ps, f) =>
      TwoBytes(None, ESC, OPEN);
      TextJoin(None, [ESC, OPEN], ps + [f]);
      Swallowed(Csi, ps);
      TextJoin(Csi, ps, [f]);
      assert [f][1..] == [];
    case Command(ps, bel, st) =>
      CommandText(ps, bel, st);
    case ControlString(intro, ps) =>
      StringText(intro, ps);
  }

  lemma CommandText(ps: Data, bel: bool, st: Byte)
    requires WellFormed(Command(ps, bel, st))
    ensures Text(None, Render(Command(ps, bel, st))) == [] && After(None, Render(Command(ps, bel, st))) == None
  {
    var end := if bel then [BEL] else [ESC, st];
    TwoBytes(None, ESC, CLOSE);
    TextJoin(None, [ESC, CLOSE], ps + end);
    Swallowed(Osc, ps);
    TextJoin(Osc, ps, end);
    TwoBytes(Osc, ESC, st);
    assert [BEL][1..] == [];
  }

  /** The text of any run of tokens is what each of them leaves. */
  lemma {:induction false} TextIsLeaves(ts: seq<Token>)
    requires forall i :: 0 <= i < |ts| ==> WellFormed(ts[i])
    ensures Text(None, RenderAll(ts)) == LeavesAll(ts)
    decreases |ts|
  {
    if ts == [] {
    } else {
      TokenText(ts[0]);
      TextJoin(None, Render(ts[0]), RenderAll(ts[1..]));
      TextIsLeaves(ts[1..]);
    }
  }

  lemma {:induction false} PrintablesNone(s: Data)
    ensures Printables(s) == [] <==> forall i :: 0 <= i < |s| ==> !Printable(s[i])
  {
    if s == [] {
    } else {
      PrintablesNone(s[1..]);
      assert forall i :: 0 < i < |s| ==> s[i] == s[1..][i - 1];
    }
  }

  /** Leaking is leaving something behind. */
  lemma LeaksIff(t: Token)
    ensures Leaks(t) <==> !t.Single? && Leaves(t) != []
  {
    if t.ControlString? { PrintablesNone(t.payload); }
  }

  lemma {:induction false} LeavesCount(ts: seq<Token>)
    ensures |LeavesAll(ts)| >= |Singles(ts)|
    ensures (forall i :: 0 <= i < |ts| ==> !Leaks(ts[i])) ==> LeavesAll(ts) == Singles(ts)
    ensures (exists i :: 0 <= i < |ts| && Leaks(ts[i])) ==> |LeavesAll(ts)| > |Singles(ts)|
  {
    if ts == [] {
    } else {
      LeaksIff(ts[0]);
      LeavesCount(ts[1..]);
      if i :| 0 <= i < |ts| && Leaks(ts[i]) {
        assert i == 0 || ts[i] == ts[1..][i - 1];
      }
    }
  }

  /** Exactly the printable bytes outside escape sequences are logged if and only if no sequence is of a leaking
      kind. */
  lemma EscapesRemovedIff(ts: seq<Token>)
    requires forall i :: 0 <= i < |ts| ==> WellFormed(ts[i])
    ensures Text(None, RenderAll(ts)) == Singles(ts) <==> forall i :: 0 <= i < |ts| ==> !Leaks(ts[i])
  {
    TextIsLeaves(ts);
    LeavesCount(ts);
  }

  /** A charset selection, ESC ( B, leaves its final byte in the log. */
  lemma CharsetSelectionLeaks()
    ensures Text(None, [ESC, 0x28, 0x42]) == [0x42]
  {
    SequenceText([0x28], 0x42);
    assert [ESC] + ([0x28] + [0x42]) == [ESC, 0x28, 0x42];
  }

  /** A device control string leaves all of its text there. */
  lemma DeviceStringLeaks(p: Data)
    requires forall i :: 0 <= i < |p| ==> Printable(p[i])
    ensures Text(None, [ESC, DCS] + (p + [ESC, BACKSLASH])) == p
  {
    StringText(DCS, p);
    AllPrintable(p);
  }

  // ---------------------------------------------------------------------
  // The writer
  // ---------------------------------------------------------------------

  class LogWriter {
    var esc: Escape
    var line: Data
    var crFlushed: bool
    var out: seq<Logged>

    function State(): Log
      reads this
    {
      Log(esc, line, crFlushed, out)
    }

    constructor ()
      ensures State() == EMPTY
    {
      esc, line, crFlushed, out := None, [], false, [];
    }

    method Write(p: Data) returns (n: nat)
      modifies this
      ensures State() == Step(old(State()), Event.Write(p)) && n == |p|
    {
      assert p[0..] == p;
      for i := 0 to |p|
        invariant FeedAll(State(), p[i..]) == FeedAll(old(State()), p)
      {
        assert p[i..][1..] == p[i + 1..];
        FeedByte(p[i]);
      }
      n := |p|;
    }

    method FeedByte(b: Byte)
      modifies this
      ensures State() == Feed(old(State()), b)
      ensures esc == match old(esc)
                     case None => (if b == 0x1b then Esc else None)
                     case Esc => (if b == 0x5b then Csi else if b == 0x5d then Osc else None)
                     case Csi => (if 0x40 <= b <= 0x7e then None else Csi)
                     case Osc => (if b == 0x07 then None else if b == 0x1b then Esc else Osc)
      ensures old(esc) != None || b == 0x1b ==> line == old(line) && crFlushed == old(crFlushed) && out == old(out)
      ensures old(esc) == None && (b == 0x09 || (b >= 0x20 && b != 0x7f)) ==>
                line == old(line) + [b] && !crFlushed && out == old(out)
      ensures old(esc) == None && b == 0x0a ==>
                if old(crFlushed) then !crFlushed && line == old(line) && out == old(out)
                else line == [] && !crFlushed && out == old(out) + [Line(old(line))]
      ensures old(esc) == None && b == 0x0d && old(line) != [] ==>
                line == [] && crFlushed && out == old(out) + [Line(old(line))]
      ensures old(esc) == None
              && ((b == 0x0d && old(line) == []) || b == 0x7f || (b < 0x20 && b !in {9, 10, 13, 27})) ==>
                State() == old(State())
    {
      match esc
      case Esc =>
        if b == OPEN { esc := Csi; } else if b == CLOSE { esc := Osc; } else { esc := None; }
        return;
      case Csi =>
        if b >= 0x40 && b <= 0x7e { esc := None; }
        return;
      case Osc =>
        if b == BEL { esc := None; } else if b == ESC { esc := Esc; }
        return;
      case None =>
        if b == ESC {
          esc := Esc;
        } else if b == LF {
          if crFlushed {
            crFlushed := false;
            return;
          }
          WriteLine();
        } else if b == CR {
          if |line| > 0 {
            WriteLine();
            crFlushed := true;
          }
        } else if b == TAB || (b >= 0x20 && b != 0x7f) {
          crFlushed := false;
          line := line + [b];
        }
    }

    method WriteLine()
      modifies this
      ensures State() == FlushLine(old(State()))
    {
      out := out + [Line(line)];
      line := [];
    }

    method IdleFire()
      modifies this
      ensures State() == Step(old(State()), Event.Idle)
      ensures out == old(out) + (if old(line) != [] then [Line(old(line))] else []) && line == [] && esc == old(esc)
      ensures crFlushed == old(crFlushed)
    {
      if |line| > 0 { WriteLine(); }
    }

    method FlushNow()
      modifies this
      ensures State() == Step(old(State()), Event.Flush)
      ensures out == old(out) + (if old(line) != [] then [Line(old(line))] else []) && line == [] && esc == old(esc)
      ensures crFlushed == old(crFlushed)
    {
      if |line| == 0 {
        return;
      }
      WriteLine();
    }

    method WriteMarker(text: string)
      modifies this
      ensures State() == Step(old(State()), Event.Marker(text))
      ensures out == old(out) + (if old(line) != [] then [Line(old(line))] else []) + [Mark(text)]
      ensures line == [] && esc == old(esc) && crFlushed == old(crFlushed)
    {
      if |line| > 0 { WriteLine(); }
      out := out + [Mark(text)];
    }
  }
}
