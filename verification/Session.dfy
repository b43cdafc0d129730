/**
 The serial session of internal/serial/session.go at the granularity of its mutex:
 each critical section is one atomic step, taken by any goroutine in any order.
 */
module Serial {
  import opened Bytes

  datatype Kind = Waiting | Connected | Closed
  datatype Port = Raw | Lines

  /** A subscriber's channel, with what was offered to it, what its reader took, and what was discarded. */
  datatype Chan = Chan(port: Port, id: nat, open: bool, buf: seq<Data>, taken: seq<Data>, offered: seq<Data>, lost: nat,
    since: nat)

  type Conn = nat

  /** How far the goroutine serving a connection has got; sub is its subscription. */
  datatype Stage = Accepted(sub: nat) | Serving(sub: nat) | HungUp | Gone

  /** rawLog and lineLog are everything fanned out so far. */
  datatype State = State(
    kind: Kind, rawSubs: map<nat, nat>, lineSubs: map<nat, nat>, nextSub: nat, chans: seq<Chan>,
    conns: set<Conn>, clients: int, dropped: int, stage: map<Conn, Stage>, rawLog: seq<Data>, lineLog: seq<Data>)

  const FRESH := State(Waiting, map[], map[], 0, [], {}, 0, 0, map[], [], [])

  function Cap(port: Port): nat {
    if port == Raw then 256 else 1024
  }

  function Subs(s: State, port: Port): map<nat, nat> {
    if port == Raw then s.rawSubs else s.lineSubs
  }

  function Log(s: State, port: Port): seq<Data> {
    if port == Raw then s.rawLog else s.lineLog
  }

  function WithSubs(s: State, port: Port, m: map<nat, nat>): State {
    if port == Raw then s.(rawSubs := m) else s.(lineSubs := m)
  }

  // ---------------------------------------------------------------------
  // Steps
  // ---------------------------------------------------------------------

  datatype Event =
    | Subscribe(port: Port)
    | Cancel(port: Port, id: nat)
    | FanOut(port: Port, item: Data)
    | Receive(c: nat)
    | Accept(conn: Conn)
    | Count(conn: Conn)
    | HangUp(conn: Conn)
    | Leave(conn: Conn)
    | Close
    | SetConnected
    | SetWaiting

  /** Who may take the step: a reader with something to read, a connection at that point of its life. */
  predicate Enabled(s: State, e: Event) {
    match e
    case Receive(c) => c < |s.chans| && s.chans[c].buf != []
    case Accept(conn) => conn !in s.stage
    case Count(conn) => conn in s.stage && s.stage[conn].Accepted?
    case HangUp(conn) => conn in s.stage && s.stage[conn].Serving?
    case Leave(conn) => conn in s.stage && s.stage[conn].HungUp?
    case _ => true
  }

  function Subscribed(s: State, port: Port): State {
    var id, c := s.nextSub, |s.chans|;
    var ch := Chan(port, id, s.kind != Closed, [], [], [], 0, |Log(s, port)|);
    var t := s.(nextSub := id + 1, chans := s.chans + [ch]);
    if s.kind == Closed then t else WithSubs(t, port, Subs(s, port)[id := c])
  }

  function Shut(ch: Chan): Chan {
    ch.(open := false)
  }

  function Cancelled(s: State, port: Port, id: nat): State {
    if id !in Subs(s, port) || Subs(s, port)[id] >= |s.chans| then s
    else
      var c := Subs(s, port)[id];
      WithSubs(s.(chans := s.chans[c := Shut(s.chans[c])]), port, Subs(s, port) - {id})
  }

  /** A send that never blocks: a full buffer loses the item. */
  function Offer(ch: Chan, x: Data): Chan {
    if |ch.buf| < Cap(ch.port) then ch.(buf := ch.buf + [x], offered := ch.offered + [x])
    else ch.(lost := ch.lost + 1, offered := ch.offered + [x])
  }

  function Total(chans: seq<Chan>): nat {
    if chans == [] then 0 else Total(chans[..|chans| - 1]) + chans[|chans| - 1].lost
  }

  predicate Mapped(s: State, port: Port, c: nat) {
    c in Subs(s, port).Values
  }

  /** x offered to each of the channels cs. */
  function Offers(chans: seq<Chan>, cs: set<nat>, x: Data): seq<Chan> {
    seq(|chans|, c requires 0 <= c < |chans| => if c in cs then Offer(chans[c], x) else chans[c])
  }

  /** Those of the channels cs that have no room. */
  function Full(chans: seq<Chan>, cs: set<nat>): set<nat> {
    set c | c in cs && c < |chans| && |chans[c].buf| >= Cap(chans[c].port)
  }

  function FannedOut(s: State, port: Port, x: Data): State {
    var cs := Subs(s, port).Values;
    var t := s.(chans := Offers(s.chans, cs, x), dropped := s.dropped + |Full(s.chans, cs)|);
    if port == Raw then t.(rawLog := s.rawLog + [x]) else t.(lineLog := s.lineLog + [x])
  }

  function Shuts(chans: seq<Chan>, cs: set<nat>): seq<Chan> {
    seq(|chans|, c requires 0 <= c < |chans| => if c in cs then Shut(chans[c]) else chans[c])
  }

  function ClosedAll(s: State): State {
    if s.kind == Closed then s
    else s.(kind := Closed, rawSubs := map[], lineSubs := map[],
      chans := Shuts(s.chans, s.rawSubs.Values + s.lineSubs.Values))
  }

  function Step(s: State, e: Event): State
    requires Enabled(s, e)
  {
    match e
    case Subscribe(port) => Subscribed(s, port)
    case Cancel(port, id) => Cancelled(s, port, id)
    case FanOut(port, x) => FannedOut(s, port, x)
    case Receive(c) =>
      var ch := s.chans[c];
      s.(chans := s.chans[c := ch.(buf := ch.buf[1..], taken := ch.taken + [ch.buf[0]])])
    case Accept(conn) => Subscribed(s, Raw).(stage := s.stage[conn := Accepted(s.nextSub)])
    case Count(conn) => s.(conns := s.conns + {conn}, clients := s.clients + 1,
      stage := s.stage[conn := Serving(s.stage[conn].sub)])
    case HangUp(conn) => Cancelled(s, Raw, s.stage[conn].sub).(stage := s.stage[conn := HungUp])
    case Leave(conn) => s.(conns := s.conns - {conn}, clients := s.clients - 1, stage := s.stage[conn := Gone])
    case Close => ClosedAll(s)
    case SetConnected => s.(kind := Connected)
    case SetWaiting => if s.kind == Closed then s else s.(kind := Waiting)
  }

  // ---------------------------------------------------------------------
  // The invariant
  // ---------------------------------------------------------------------

  /** a can be had from b by leaving items out. */
  predicate Subsequence(a: seq<Data>, b: seq<Data>) {
    a == [] || (b != []
      && (Subsequence(a, b[..|b| - 1]) || (a[|a| - 1] == b[|b| - 1] && Subsequence(a[..|a| - 1], b[..|b| - 1]))))
  }

  lemma SubsequenceGrows(a: seq<Data>, b: seq<Data>, x: Data)
    requires Subsequence(a, b)
    ensures Subsequence(a, b + [x]) && Subsequence(a + [x], b + [x])
  {
    assert (b + [x])[..|b|] == b && (a + [x])[..|a|] == a;
  }

  /** In order, from what was fanned out since the subscription; what is missing was counted as lost. */
  predicate Kept(s: State, ch: Chan) {
    && Subsequence(ch.taken + ch.buf, ch.offered)
    && |ch.offered| == |ch.taken| + |ch.buf| + ch.lost
    && |ch.buf| <= Cap(ch.port)
    && ch.since + |ch.offered| <= |Log(s, ch.port)|
    && ch.offered == Log(s, ch.port)[ch.since..ch.since + |ch.offered|]
  }

  /** An open channel is mapped under its own id, and has been offered everything since it was made. */
  predicate Live(s: State, c: nat)
    requires c < |s.chans|
  {
    var ch := s.chans[c];
    ch.open ==>
      && ch.id in Subs(s, ch.port) && Subs(s, ch.port)[ch.id] == c
      && ch.since + |ch.offered| == |Log(s, ch.port)|
  }

  /** A mapped channel is there, open, and knows its id. */
  predicate Points(s: State, port: Port, id: nat)
    requires id in Subs(s, port)
  {
    var c := Subs(s, port)[id];
    id < s.nextSub && c < |s.chans| && s.chans[c].open && s.chans[c].port == port && s.chans[c].id == id
  }

  predicate Tracked(s: State, conn: Conn) {
    conn in s.stage && (s.stage[conn].Serving? || s.stage[conn].HungUp?)
  }

  predicate AllPoint(s: State, port: Port) {
    forall id {:trigger Points(s, port, id)} :: id in Subs(s, port) ==> Points(s, port, id)
  }

  predicate AllKept(s: State) {
    forall c {:trigger s.chans[c]} :: 0 <= c < |s.chans| ==> Kept(s, s.chans[c]) && Live(s, c)
  }

  ghost predicate Counted(s: State) {
    s.clients == |s.conns| && forall conn :: conn in s.conns <==> Tracked(s, conn)
  }

  ghost predicate Inv(s: State) {
    AllPoint(s, Raw) && AllPoint(s, Lines) && AllKept(s) && s.dropped == Total(s.chans) && Counted(s)
  }

  /** The channel operations of a step: none is a send to a closed channel, or closes one twice. */
  ghost predicate Sound(s: State, e: Event) {
    match e
    case Cancel(port, id) => id in Subs(s, port) ==> Opened(s, Subs(s, port)[id])
    case HangUp(conn) => conn in s.stage && s.stage[conn].Serving? && s.stage[conn].sub in s.rawSubs ==>
      Opened(s, s.rawSubs[s.stage[conn].sub])
    case FanOut(port, _) => AllOpen(s, port)
    case Close => AllOpen(s, Raw) && AllOpen(s, Lines) && Apart(s)
    case _ => true
  }

  predicate Opened(s: State, c: nat) {
    c < |s.chans| && s.chans[c].open
  }

  predicate AllOpen(s: State, port: Port) {
    forall id :: id in Subs(s, port) ==> Opened(s, Subs(s, port)[id])
  }

  /** No channel is mapped twice. */
  predicate Apart(s: State) {
    && (forall a, b :: a in s.rawSubs && b in s.rawSubs && a != b ==> s.rawSubs[a] != s.rawSubs[b])
    && (forall a, b :: a in s.lineSubs && b in s.lineSubs && a != b ==> s.lineSubs[a] != s.lineSubs[b])
    && (forall a, b :: a in s.rawSubs && b in s.lineSubs ==> s.rawSubs[a] != s.lineSubs[b])
  }

  lemma InvSound(s: State, e: Event)
    requires Inv(s)
    ensures Sound(s, e)
  {
    PortOpen(s, Raw);
    PortOpen(s, Lines);
    match e
    case Cancel(port, id) => if id in Subs(s, port) { assert Points(s, port, id); }
    case HangUp(conn) => if conn in s.stage && s.stage[conn].Serving?
      && s.stage[conn].sub in s.rawSubs { assert Points(s, Raw, s.stage[conn].sub); }
    case FanOut(port, _) => assert port == Raw || port == Lines;
    case Close => NoneTwice(s);
    case _ =>
  }

  lemma PortOpen(s: State, port: Port)
    requires AllPoint(s, port)
    ensures AllOpen(s, port)
  {
    forall id | id in Subs(s, port) ensures Opened(s, Subs(s, port)[id]) { assert Points(s, port, id); }
  }

  lemma NoneTwice(s: State)
    requires AllPoint(s, Raw) && AllPoint(s, Lines)
    ensures Apart(s)
  {
    forall a, b | a in s.rawSubs && b in s.rawSubs && a != b ensures s.rawSubs[a] != s.rawSubs[b] {
      assert Points(s, Raw, a) && Points(s, Raw, b);
    }
    forall a, b | a in s.lineSubs && b in s.lineSubs && a != b ensures s.lineSubs[a] != s.lineSubs[b] {
      assert Points(s, Lines, a) && Points(s, Lines, b);
    }
    forall a, b | a in s.rawSubs && b in s.lineSubs ensures s.rawSubs[a] != s.lineSubs[b] {
      assert Points(s, Raw, a) && Points(s, Lines, b);
    }
  }

  lemma FreshInv()
    ensures Inv(FRESH)
  {
  }

  // ---------------------------------------------------------------------
  // Each step keeps it
  // ---------------------------------------------------------------------

  lemma TotalAppend(chans: seq<Chan>, ch: Chan)
    ensures Total(chans + [ch]) == Total(chans) + ch.lost
  {
    assert (chans + [ch])[..|chans|] == chans;
  }

  lemma {:induction false} TotalUpdate(chans: seq<Chan>, c: nat, ch: Chan)
    requires c < |chans|
    ensures Total(chans[c := ch]) == Total(chans) - chans[c].lost + ch.lost
    decreases |chans|
  {
    var k := |chans| - 1;
    var t := chans[c := ch];
    if c == k {
      assert t[..k] == chans[..k];
    } else {
      assert t[..k] == chans[..k][c := ch];
      TotalUpdate(chans[..k], c, ch);
    }
  }

  lemma {:induction false} TotalSame(a: seq<Chan>, b: seq<Chan>)
    requires |a| == |b| && forall c :: 0 <= c < |a| ==> a[c].lost == b[c].lost
    ensures Total(a) == Total(b)
  {
    if a == [] {
    } else {
      TotalSame(a[..|a| - 1], b[..|b| - 1]);
    }
  }

  /** Every item that finds no room raises the count of lost items by one. */
  lemma {:induction false} TotalOffers(chans: seq<Chan>, cs: set<nat>, x: Data)
    ensures Total(Offers(chans, cs, x)) == Total(chans) + |Full(chans, cs)|
    decreases |cs|
  {
    if cs == {} {
      assert Offers(chans, cs, x) == chans;
    } else {
      var c :| c in cs;
      TotalOffers(chans, cs - {c}, x);
      OfferMore(chans, cs - {c}, c, x);
      assert cs - {c} + {c} == cs;
      if c < |chans| { TotalUpdate(Offers(chans, cs - {c}, x), c, Offer(chans[c], x)); }
    }
  }

  /** One more channel served. */
  lemma OfferMore(chans: seq<Chan>, cs: set<nat>, c: nat, x: Data)
    requires c !in cs
    ensures c < |chans| ==> Offers(chans, cs + {c}, x) == Offers(chans, cs, x)[c := Offer(chans[c], x)]
    ensures c >= |chans| ==> Offers(chans, cs + {c}, x) == Offers(chans, cs, x)
    ensures |Full(chans, cs + {c})| == |Full(chans, cs)| + if c < |chans|
            && |chans[c].buf| >= Cap(chans[c].port) then 1 else 0
  {
    if c < |chans| && |chans[c].buf| >= Cap(chans[c].port) {
      assert Full(chans, cs + {c}) == Full(chans, cs) + {c};
    } else {
      assert Full(chans, cs + {c}) == Full(chans, cs);
    }
  }

  /** Connections untouched. */
  lemma SameConns(s: State, t: State)
    requires Counted(s) && t.conns == s.conns && t.clients == s.clients && t.stage == s.stage
    ensures Counted(t)
  {
    forall conn ensures conn in t.conns <==> Tracked(t, conn) {
      assert conn in s.conns <==> Tracked(s, conn);
    }
  }

  /** The next id is not taken. */
  lemma NextUnused(s: State, port: Port)
    requires AllPoint(s, port)
    ensures s.nextSub !in Subs(s, port)
  {
    assert s.nextSub in Subs(s, port) ==> Points(s, port, s.nextSub);
  }

  lemma SubscribedPoints(s: State, port: Port, p: Port)
    requires AllPoint(s, p)
    ensures AllPoint(Subscribed(s, port), p)
  {
    var t := Subscribed(s, port);
    forall id | id in Subs(t, p) ensures Points(t, p, id) {
      if id in Subs(s, p) {
        NextUnused(s, p);
        assert Points(s, p, id);
      } else {
        assert t.chans[|s.chans|] == Chan(port, s.nextSub, true, [], [], [], 0, |Log(s, port)|);
      }
    }
  }

  /** A channel that was there before the subscription. */
  lemma EarlierKept(s: State, port: Port, c: nat)
    requires s.nextSub !in Subs(s, port) && c < |s.chans| && Kept(s, s.chans[c]) && Live(s, c)
    ensures Kept(Subscribed(s, port), s.chans[c]) && Live(Subscribed(s, port), c)
  {
    var t := Subscribed(s, port);
    assert t.chans[c] == s.chans[c] && Log(t, Raw) == Log(s, Raw) && Log(t, Lines) == Log(s, Lines);
  }

  lemma NewestKept(s: State, port: Port)
    ensures var t := Subscribed(s, port); Kept(t, t.chans[|s.chans|]) && Live(t, |s.chans|)
  {
    var t := Subscribed(s, port);
    var ch := t.chans[|s.chans|];
    assert ch.taken + ch.buf == [];
  }

  lemma SubscribedKept(s: State, port: Port)
    requires AllPoint(s, port) && AllKept(s)
    ensures AllKept(Subscribed(s, port))
  {
    var t := Subscribed(s, port);
    NextUnused(s, port);
    NewestKept(s, port);
    forall c | 0 <= c < |t.chans| ensures Kept(t, t.chans[c]) && Live(t, c) {
      if c < |s.chans| {
        assert t.chans[c] == s.chans[c];
        EarlierKept(s, port, c);
      }
    }
  }

  lemma SubscribedRest(s: State, port: Port)
    requires s.dropped == Total(s.chans) && Counted(s)
    ensures var t := Subscribed(s, port); t.dropped == Total(t.chans) && Counted(t)
  {
    var t := Subscribed(s, port);
    var ch := Chan(port, s.nextSub, s.kind != Closed, [], [], [], 0, |Log(s, port)|);
    assert t.chans == s.chans + [ch];
    TotalAppend(s.chans, ch);
    SameConns(s, t);
  }

  lemma SubscribedInv(s: State, port: Port)
    requires Inv(s)
    ensures Inv(Subscribed(s, port))
  {
    SubscribedPoints(s, port, Raw);
    SubscribedPoints(s, port, Lines);
    SubscribedKept(s, port);
    SubscribedRest(s, port);
  }

  lemma CancelledPoints(s: State, port: Port, id: nat, p: Port)
    requires Inv(s) && id in Subs(s, port)
    ensures AllPoint(Cancelled(s, port, id), p)
  {
    var t := Cancelled(s, port, id);
    assert Points(s, port, id);
    forall i | i in Subs(t, p) ensures Points(t, p, i) {
      assert Points(s, p, i);
    }
  }

  lemma CancelledKept(s: State, port: Port, id: nat)
    requires Inv(s) && id in Subs(s, port)
    ensures AllKept(Cancelled(s, port, id))
  {
    var t := Cancelled(s, port, id);
    var c0 := Subs(s, port)[id];
    assert Points(s, port, id);
    forall c | 0 <= c < |t.chans| ensures Kept(t, t.chans[c]) && Live(t, c) {
      assert Kept(s, s.chans[c]) && Live(s, c);
      assert c != c0 ==> t.chans[c] == s.chans[c];
    }
  }

  lemma CancelledInv(s: State, port: Port, id: nat)
    requires Inv(s)
    ensures Inv(Cancelled(s, port, id))
  {
    if id in Subs(s, port) {
      var c0 := Subs(s, port)[id];
      assert Points(s, port, id);
      CancelledPoints(s, port, id, Raw);
      CancelledPoints(s, port, id, Lines);
      CancelledKept(s, port, id);
      TotalUpdate(s.chans, c0, Shut(s.chans[c0]));
      SameConns(s, Cancelled(s, port, id));
    }
  }

  /** An open channel of that port is a mapped one, and the other way round. */
  lemma MappedIsOpen(s: State, port: Port, c: nat)
    requires Inv(s) && c < |s.chans|
    ensures Mapped(s, port, c) <==> s.chans[c].open && s.chans[c].port == port
  {
    if Mapped(s, port, c) {
      var id :| id in Subs(s, port) && Subs(s, port)[id] == c;
      assert Points(s, port, id);
    }
    if s.chans[c].open && s.chans[c].port == port {
      assert Live(s, c);
    }
  }

  lemma OfferKept(s: State, t: State, ch: Chan, x: Data)
    requires Kept(s, ch) && Log(t, ch.port) == Log(s, ch.port) + [x] && ch.since + |ch.offered| == |Log(s, ch.port)|
    ensures Kept(t, Offer(ch, x)) && Offer(ch, x).since + |Offer(ch, x).offered| == |Log(t, ch.port)|
  {
    SubsequenceGrows(ch.taken + ch.buf, ch.offered, x);
    assert ch.taken + ch.buf + [x] == ch.taken + (ch.buf + [x]);
  }

  lemma FannedOutPoints(s: State, port: Port, x: Data, p: Port)
    requires Inv(s)
    ensures AllPoint(FannedOut(s, port, x), p)
  {
    forall id | id in Subs(FannedOut(s, port, x), p) ensures Points(FannedOut(s, port, x), p, id) {
      assert Points(s, p, id);
    }
  }

  lemma ServedKept(s: State, port: Port, x: Data, c: nat)
    requires c < |s.chans| && Mapped(s, port, c) && s.chans[c].port == port && s.chans[c].open && Kept(s, s.chans[c])
             && Live(s, c)
    ensures var t := FannedOut(s, port, x); Kept(t, t.chans[c]) && Live(t, c)
  {
    var t := FannedOut(s, port, x);
    assert t.chans[c] == Offer(s.chans[c], x);
    OfferKept(s, t, s.chans[c], x);
  }

  lemma UnservedKept(s: State, port: Port, x: Data, c: nat)
    requires c < |s.chans| && !Mapped(s, port, c) && !(s.chans[c].open && s.chans[c].port == port)
             && Kept(s, s.chans[c]) && Live(s, c)
    ensures var t := FannedOut(s, port, x); Kept(t, t.chans[c]) && Live(t, c)
  {
    var t := FannedOut(s, port, x);
    assert t.chans[c] == s.chans[c];
  }

  lemma FannedOutKept(s: State, port: Port, x: Data)
    requires Inv(s)
    ensures AllKept(FannedOut(s, port, x))
  {
    forall c | 0 <= c < |s.chans| ensures var t := FannedOut(s, port, x); Kept(t, t.chans[c]) && Live(t, c) {
      MappedIsOpen(s, port, c);
      assert Kept(s, s.chans[c]) && Live(s, c);
      if Mapped(s, port, c) { ServedKept(s, port, x, c); } else { UnservedKept(s, port, x, c); }
    }
  }

  lemma FannedOutInv(s: State, port: Port, x: Data)
    requires Inv(s)
    ensures Inv(FannedOut(s, port, x))
  {
    FannedOutPoints(s, port, x, Raw);
    FannedOutPoints(s, port, x, Lines);
    FannedOutKept(s, port, x);
    TotalOffers(s.chans, Subs(s, port).Values, x);
    SameConns(s, FannedOut(s, port, x));
  }

  lemma ReceiveKept(s: State, c0: nat)
    requires Inv(s) && Enabled(s, Receive(c0))
    ensures AllKept(Step(s, Receive(c0)))
  {
    var t := Step(s, Receive(c0));
    var ch := s.chans[c0];
    assert ch.taken + [ch.buf[0]] + ch.buf[1..] == ch.taken + ch.buf;
    forall c | 0 <= c < |t.chans| ensures Kept(t, t.chans[c]) && Live(t, c) {
      assert Kept(s, s.chans[c]) && Live(s, c);
      assert c != c0 ==> t.chans[c] == s.chans[c];
    }
  }

  lemma ReceivePoints(s: State, c0: nat, p: Port)
    requires AllPoint(s, p) && Enabled(s, Receive(c0))
    ensures AllPoint(Step(s, Receive(c0)), p)
  {
    var t := Step(s, Receive(c0));
    forall id | id in Subs(t, p) ensures Points(t, p, id) { assert Points(s, p, id); }
  }

  lemma ReceiveInv(s: State, c0: nat)
    requires Inv(s) && Enabled(s, Receive(c0))
    ensures Inv(Step(s, Receive(c0)))
  {
    var t := Step(s, Receive(c0));
    ReceiveKept(s, c0);
    TotalUpdate(s.chans, c0, t.chans[c0]);
    ReceivePoints(s, c0, Raw);
    ReceivePoints(s, c0, Lines);
    SameConns(s, t);
  }

  lemma ClosedAllKept(s: State)
    requires Inv(s) && s.kind != Closed
    ensures AllKept(ClosedAll(s))
  {
    var t := ClosedAll(s);
    forall c | 0 <= c < |t.chans| ensures Kept(t, t.chans[c]) && Live(t, c) {
      MappedIsOpen(s, Raw, c);
      MappedIsOpen(s, Lines, c);
      assert Kept(s, s.chans[c]);
    }
  }

  lemma ClosedAllInv(s: State)
    requires Inv(s)
    ensures Inv(ClosedAll(s))
  {
    var t := ClosedAll(s);
    if s.kind != Closed {
      TotalSame(t.chans, s.chans);
      ClosedAllKept(s);
      SameConns(s, t);
    }
  }

  /** A change of nothing but the kind and the connections. */
  lemma SameChannels(s: State, t: State)
    requires Inv(s) && t == s.(kind := t.kind, conns := t.conns, clients := t.clients, stage := t.stage)
    requires Counted(t)
    ensures Inv(t)
  {
    forall id | id in Subs(t, Raw) ensures Points(t, Raw, id) { assert Points(s, Raw, id); }
    forall id | id in Subs(t, Lines) ensures Points(t, Lines, id) { assert Points(s, Lines, id); }
    forall c | 0 <= c < |t.chans| ensures Kept(t, t.chans[c]) && Live(t, c) {
      assert Kept(s, s.chans[c]) && Live(s, c);
    }
  }

  lemma ConnInv(s: State, e: Event)
    requires Inv(s) && Enabled(s, e) && (e.Count? || e.Leave?)
    ensures Inv(Step(s, e))
  {
    var t := Step(s, e);
    assert e.conn in s.conns <==> Tracked(s, e.conn);
    forall conn ensures conn in t.conns <==> Tracked(t, conn) {
      assert conn in s.conns <==> Tracked(s, conn);
    }
    SameChannels(s, t);
  }

  /** Moving a connection's goroutine on without counting or uncounting it. */
  lemma Restaged(s: State, conn: Conn, g: Stage)
    requires Inv(s) && (Tracked(s, conn) <==> g.Serving? || g.HungUp?)
    ensures Inv(s.(stage := s.stage[conn := g]))
  {
    var t := s.(stage := s.stage[conn := g]);
    forall c ensures c in t.conns <==> Tracked(t, c) {
      assert c in s.conns <==> Tracked(s, c);
    }
    SameChannels(s, t);
  }

  lemma StepInv(s: State, e: Event)
    requires Inv(s) && Enabled(s, e)
    ensures Inv(Step(s, e))
  {
    match e
    case Subscribe(port) => SubscribedInv(s, port);
    case Cancel(port, id) => CancelledInv(s, port, id);
    case FanOut(port, x) => FannedOutInv(s, port, x);
    case Receive(c) => ReceiveInv(s, c);
    case Accept(conn) =>
      SubscribedInv(s, Raw);
      Restaged(Subscribed(s, Raw), conn, Accepted(s.nextSub));
    case Count(conn) => ConnInv(s, e);
    case HangUp(conn) =>
      CancelledInv(s, Raw, s.stage[conn].sub);
      Restaged(Cancelled(s, Raw, s.stage[conn].sub), conn, HungUp);
    case Leave(conn) => ConnInv(s, e);
    case Close => ClosedAllInv(s);
    case SetConnected => KindInv(s, Connected);
    case SetWaiting => if s.kind != Closed { KindInv(s, Waiting); }
  }

  lemma KindInv(s: State, kind: Kind)
    requires Inv(s)
    ensures Inv(s.(kind := kind))
  {
    SameConns(s, s.(kind := kind));
    SameChannels(s, s.(kind := kind));
  }

  // ---------------------------------------------------------------------
  // Every interleaving
  // ---------------------------------------------------------------------

  ghost predicate Runs(s: State, es: seq<Event>)
    decreases |es|
  {
    es == [] || (Enabled(s, es[0]) && Runs(Step(s, es[0]), es[1..]))
  }

  ghost function After(s: State, es: seq<Event>): State
    requires Runs(s, es)
    decreases |es|
  {
    if es == [] then s else After(Step(s, es[0]), es[1..])
  }

  /** Every step of the run is a sound use of its channels. */
  ghost predicate AllSound(s: State, es: seq<Event>)
    requires Runs(s, es)
    decreases |es|
  {
    es == [] || (Sound(s, es[0]) && AllSound(Step(s, es[0]), es[1..]))
  }

  lemma {:induction false} RunInv(s: State, es: seq<Event>)
    requires Inv(s) && Runs(s, es)
    ensures Inv(After(s, es)) && AllSound(s, es)
    decreases |es|
  {
    if es == [] {
    } else {
      InvSound(s, es[0]);
      StepInv(s, es[0]);
      RunInv(Step(s, es[0]), es[1..]);
    }
  }

  function Offered(chans: seq<Chan>): nat {
    if chans == [] then 0 else Offered(chans[..|chans| - 1]) + |chans[|chans| - 1].offered|
  }

  function Enqueued(chans: seq<Chan>): nat {
    if chans == [] then 0
    else Enqueued(chans[..|chans| - 1]) + |chans[|chans| - 1].taken| + |chans[|chans| - 1].buf|
  }

  lemma {:induction false} OfferedSplits(s: State, chans: seq<Chan>)
    requires forall c :: 0 <= c < |chans| ==> Kept(s, chans[c])
    ensures Offered(chans) == Enqueued(chans) + Total(chans)
  {
    if chans == [] {
    } else {
      assert Kept(s, chans[|chans| - 1]);
      OfferedSplits(s, chans[..|chans| - 1]);
    }
  }

  /** Over every interleaving: no channel misuse; each reader gets, in order, a selection of what it was offered, which
      is all that was fanned out since it subscribed, up to now or until its channel closed; what was offered is what
      was enqueued plus Dropped; Clients counts the tracked connections. */
  lemma EveryInterleaving(es: seq<Event>)
    requires Runs(FRESH, es)
    ensures AllSound(FRESH, es)
    ensures var s := After(FRESH, es);
            && (forall c :: 0 <= c < |s.chans| ==>
                  var ch := s.chans[c];
                  && Subsequence(ch.taken + ch.buf, ch.offered)
                  && ch.since + |ch.offered| <= |Log(s, ch.port)|
                  && ch.offered == Log(s, ch.port)[ch.since..ch.since + |ch.offered|]
                  && (ch.open ==> ch.since + |ch.offered| == |Log(s, ch.port)|))
            && Offered(s.chans) == Enqueued(s.chans) + s.dropped
            && AllOpen(s, Raw) && AllOpen(s, Lines) && Apart(s)
            && s.clients == |s.conns|
            && forall conn :: conn in s.conns <==> Tracked(s, conn)
  {
    FreshInv();
    RunInv(FRESH, es);
    var s := After(FRESH, es);
    forall c | 0 <= c < |s.chans| ensures Kept(s, s.chans[c]) && Live(s, c) {
      assert Kept(s, s.chans[c]) && Live(s, c);
    }
    OfferedSplits(s, s.chans);
    PortOpen(s, Raw);
    PortOpen(s, Lines);
    NoneTwice(s);
  }

  // ---------------------------------------------------------------------
  // Readers that keep up
  // ---------------------------------------------------------------------

  /** The reader of channel c is less than 256 chunks or 1024 lines behind. */
  predicate CaughtUp(s: State, c: nat) {
    c < |s.chans| ==> |s.chans[c].buf| < match s.chans[c].port case Raw => 256 case Lines => 1024
  }

  ghost predicate KeepsUp(s: State, es: seq<Event>, c: nat)
    requires Runs(s, es)
    decreases |es|
  {
    es == [] || (CaughtUp(s, c) && KeepsUp(Step(s, es[0]), es[1..], c))
  }

  predicate Whole(s: State, c: nat) {
    c < |s.chans| ==> s.chans[c].lost == 0 && s.chans[c].taken + s.chans[c].buf == s.chans[c].offered
  }

  lemma ReceiveWhole(s: State, r: nat, c: nat)
    requires Enabled(s, Receive(r)) && Whole(s, c)
    ensures Whole(Step(s, Receive(r)), c)
  {
    if r == c {
      var ch := s.chans[c];
      assert ch.taken + [ch.buf[0]] + ch.buf[1..] == ch.taken + ch.buf;
    }
  }

  lemma OfferWhole(ch: Chan, x: Data)
    requires |ch.buf| < match ch.port case Raw => 256 case Lines => 1024
    requires ch.lost == 0 && ch.taken + ch.buf == ch.offered
    ensures var after := Offer(ch, x); after.lost == 0 && after.taken + after.buf == after.offered
  {
    assert ch.taken + (ch.buf + [x]) == ch.taken + ch.buf + [x];
  }

  lemma FanOutWhole(s: State, port: Port, x: Data, c: nat)
    requires CaughtUp(s, c) && Whole(s, c)
    ensures Whole(FannedOut(s, port, x), c)
  {
    if c < |s.chans| { OfferWhole(s.chans[c], x); }
  }

  lemma StepWhole(s: State, e: Event, c: nat)
    requires Enabled(s, e) && CaughtUp(s, c) && Whole(s, c)
    ensures Whole(Step(s, e), c)
  {
    match e
    case Receive(r) => ReceiveWhole(s, r, c);
    case FanOut(port, x) => FanOutWhole(s, port, x, c);
    case _ =>
  }

  lemma {:induction false} RunWhole(s: State, es: seq<Event>, c: nat)
    requires Runs(s, es) && KeepsUp(s, es, c) && Whole(s, c)
    ensures Whole(After(s, es), c)
    decreases |es|
  {
    if es == [] {
    } else {
      StepWhole(s, es[0], c);
      RunWhole(Step(s, es[0]), es[1..], c);
    }
  }

  /** Over every interleaving a subscriber that is never 256 chunks, or 1024 lines, behind loses nothing: what its
      reader has and what waits for it are all that was fanned out since it subscribed. */
  lemma NothingLostInTime(es: seq<Event>, c: nat)
    requires Runs(FRESH, es) && KeepsUp(FRESH, es, c)
    ensures var s := After(FRESH, es);
            var log := if c < |s.chans| && s.chans[c].port == Raw then s.rawLog else s.lineLog;
            c < |s.chans| && s.chans[c].open ==>
              && s.chans[c].lost == 0 && s.chans[c].since <= |log|
              && s.chans[c].taken + s.chans[c].buf ==
                 log[s.chans[c].since..]
  {
    RunWhole(FRESH, es, c);
    EveryInterleaving(es);
    var s := After(FRESH, es);
    if c < |s.chans| && s.chans[c].open {
      var log := Log(s, s.chans[c].port);
      assert s.chans[c].offered == log[s.chans[c].since..|log|] == log[s.chans[c].since..];
    }
  }

  // ---------------------------------------------------------------------
  // The object
  // ---------------------------------------------------------------------

  /** A send that does not block; on a closed channel it would panic. */
  method TrySend(ch: Chan, x: Data) returns (after: Chan, sent: bool)
    requires ch.open
    ensures after == Offer(ch, x) && after.open && (sent <==> after.lost == ch.lost)
  {
    sent := |ch.buf| < Cap(ch.port);
    if sent {
      after := ch.(buf := ch.buf + [x], offered := ch.offered + [x]);
    } else {
      after := ch.(lost := ch.lost + 1, offered := ch.offered + [x]);
    }
  }

  /** Closing a closed channel would panic. */
  method CloseChannel(ch: Chan) returns (after: Chan)
    requires ch.open
    ensures after == Shut(ch) && !after.open
  {
    after := ch.(open := false);
  }

  /** The subscribers' channels are there, open, and each mapped once. */
  predicate Ready(chans: seq<Chan>, subs: map<nat, nat>) {
    && (forall id :: id in subs ==> subs[id] < |chans| && chans[subs[id]].open)
    && (forall a, b :: a in subs && b in subs && a != b ==> subs[a] != subs[b])
  }

  lemma PortReady(s: State, port: Port)
    requires AllPoint(s, port)
    ensures Ready(s.chans, Subs(s, port))
  {
    forall id | id in Subs(s, port) ensures Points(s, port, id) {}
  }

  /** What keeps the critical sections from panicking. */
  predicate Safe(s: State) {
    Ready(s.chans, s.rawSubs) && Ready(s.chans, s.lineSubs) && s.rawSubs.Values !! s.lineSubs.Values
  }

  /** Every state of every run is safe to work in. */
  lemma RunSafe(es: seq<Event>)
    requires Runs(FRESH, es)
    ensures Safe(After(FRESH, es))
  {
    FreshInv();
    RunInv(FRESH, es);
    var s := After(FRESH, es);
    PortReady(s, Raw);
    PortReady(s, Lines);
    NoneTwice(s);
  }

  /** Shutting one port's channels leaves the other's as they were. */
  lemma LinesStayReady(chans: seq<Chan>, raw: map<nat, nat>, lines: map<nat, nat>)
    requires Ready(chans, lines) && raw.Values !! lines.Values
    ensures Ready(Shuts(chans, raw.Values), lines)
    ensures Shuts(Shuts(chans, raw.Values), lines.Values) == Shuts(chans, raw.Values + lines.Values)
  {
    forall id | id in lines ensures lines[id] !in raw.Values { assert lines[id] in lines.Values; }
  }

  lemma ShutMore(chans: seq<Chan>, cs: set<nat>, c: nat)
    requires c < |chans| && c !in cs
    ensures Shuts(chans, cs + {c}) == Shuts(chans, cs)[c := Shut(chans[c])]
  {
  }

  /** The fan-out loop; it takes the subscribers in any order. */
  method SendAll(before: seq<Chan>, subs: map<nat, nat>, x: Data, count: int) returns (chans: seq<Chan>, dropped: int)
    requires Ready(before, subs)
    ensures chans == Offers(before, subs.Values, x)
    ensures dropped == count + |Full(before, subs.Values)|
  {
    ghost var cs: set<nat> := {};
    var todo := subs.Keys;
    chans, dropped := before, count;
    while todo != {}
      invariant todo <= subs.Keys
      invariant cs == set id | id in subs && id !in todo :: subs[id]
      invariant chans == Offers(before, cs, x)
      invariant dropped == count + |Full(before, cs)|
    {
      var id :| id in todo;
      OfferMore(before, cs, subs[id], x);
      var after, sent := TrySend(chans[subs[id]], x);
      chans := chans[subs[id] := after];
      if !sent { dropped := dropped + 1; }
      cs := cs + {subs[id]};
      todo := todo - {id};
    }
    assert cs == subs.Values;
  }

  /** The loop of Close over one port's subscribers: each is deleted and its channel closed. */
  method ShutAll(before: seq<Chan>, subs: map<nat, nat>) returns (chans: seq<Chan>, left: map<nat, nat>)
    requires Ready(before, subs)
    ensures chans == Shuts(before, subs.Values)
    ensures left == map[]
  {
    ghost var cs: set<nat> := {};
    var todo := subs.Keys;
    chans, left := before, subs;
    while todo != {}
      invariant todo <= subs.Keys && left.Keys == todo
      invariant cs == set id | id in subs && id !in todo :: subs[id]
      invariant chans == Shuts(before, cs)
    {
      var id :| id in todo;
      left := left - {id};
      var after := CloseChannel(chans[subs[id]]);
      ShutMore(before, cs, subs[id]);
      chans := chans[subs[id] := after];
      cs := cs + {subs[id]};
      todo := todo - {id};
    }
    assert cs == subs.Values;
  }

  /** A formatted line without its line feed. */
  function TrimNewline(p: Data): (r: Data)
    ensures p == r || p == r + [10]
  {
    if p != [] && p[|p| - 1] == 10 then p[..|p| - 1] else p
  }

  /** Less than 256 chunks or 1024 lines wait for the reader. */
  predicate HasRoom(ch: Chan) {
    |ch.buf| < match ch.port case Raw => 256 case Lines => 1024
  }

  /** The subscribers' channels have taken x, or have lost it if they had no room, and no other channel is touched. */
  predicate Sent(before: seq<Chan>, after: seq<Chan>, subs: map<nat, nat>, x: Data) {
    |after| == |before|
    && forall c :: 0 <= c < |before| ==>
         var ch := before[c];
         after[c] == if c !in subs.Values then ch
                     else if HasRoom(ch) then ch.(buf := ch.buf + [x], offered := ch.offered + [x])
                     else ch.(lost := ch.lost + 1, offered := ch.offered + [x])
  }

  /** How many of the subscribers have no room. */
  function Slow(chans: seq<Chan>, subs: map<nat, nat>): nat {
    |set c | c in subs.Values && c < |chans| && !HasRoom(chans[c])|
  }

  /** Channel c is closed, and no other channel is touched. */
  predicate ClosedOnly(before: seq<Chan>, after: seq<Chan>, cs: set<nat>) {
    |after| == |before|
    && forall c :: 0 <= c < |before| ==> after[c] == if c in cs then before[c].(open := false) else before[c]
  }

  lemma SentMeans(chans: seq<Chan>, subs: map<nat, nat>, x: Data)
    ensures Sent(chans, Offers(chans, subs.Values, x), subs, x)
    ensures |Full(chans, subs.Values)| == Slow(chans, subs)
  {
    assert Full(chans, subs.Values) == set c | c in subs.Values && c < |chans| && !HasRoom(chans[c]);
  }

  /** A session with its mutex held: each method is one critical section, and does the step of its event.
      By StepInv it keeps Inv, and by RunSafe no run meets it in a state that is not Safe. */
  class Session {
    var kind: Kind
    var rawSubs: map<nat, nat>
    var lineSubs: map<nat, nat>
    var nextSub: nat
    var chans: seq<Chan>
    var conns: set<Conn>
    var clients: int
    var dropped: int
    var stage: map<Conn, Stage>
    var rawLog: seq<Data>
    var lineLog: seq<Data>

    ghost function Now(): State
      reads this
    {
      State(kind, rawSubs, lineSubs, nextSub, chans, conns, clients, dropped, stage, rawLog, lineLog)
    }

    constructor ()
      ensures Now() == FRESH
    {
      kind, rawSubs, lineSubs, nextSub, chans := Waiting, map[], map[], 0, [];
      conns, clients, dropped, stage, rawLog, lineLog := {}, 0, 0, map[], [], [];
    }

    method AddSubscriber(port: Port) returns (id: nat)
      modifies this
      ensures Now() == Step(old(Now()), Subscribe(port))
      ensures id == old(nextSub) && nextSub == id + 1
      ensures |chans| == |old(chans)| + 1 && chans[..|old(chans)|] == old(chans)
      ensures chans[|old(chans)|].buf == [] && (chans[|old(chans)|].open <==> kind != Closed)
      ensures rawSubs == if kind != Closed && port == Raw then old(rawSubs)[id := |old(chans)|] else old(rawSubs)
      ensures lineSubs == if kind != Closed && port == Lines then old(lineSubs)[id := |old(chans)|] else old(lineSubs)
    {
      id := nextSub;
      nextSub := nextSub + 1;
      var made := Chan(port, id, true, [], [], [], 0, if port == Raw then |rawLog| else |lineLog|);
      if kind == Closed {
        made := CloseChannel(made);
      } else if port == Raw {
        rawSubs := rawSubs[id := |chans|];
      } else {
        lineSubs := lineSubs[id := |chans|];
      }
      chans := chans + [made];
    }

    method CancelSubscriber(port: Port, id: nat)
      requires Safe(Now())
      modifies this
      ensures Now() == Step(old(Now()), Cancel(port, id))
      ensures port == Raw && id in old(rawSubs) ==>
                rawSubs == old(rawSubs) - {id} && ClosedOnly(old(chans), chans, {old(rawSubs)[id]})
      ensures port == Lines && id in old(lineSubs) ==>
                lineSubs == old(lineSubs) - {id} && ClosedOnly(old(chans), chans, {old(lineSubs)[id]})
      ensures (if port == Raw then id !in old(rawSubs) else id !in old(lineSubs)) ==> Now() == old(Now())
    {
      if port == Raw && id in rawSubs {
        var c := rawSubs[id];
        rawSubs := rawSubs - {id};
        var after := CloseChannel(chans[c]);
        chans := chans[c := after];
      } else if port == Lines && id in lineSubs {
        var c := lineSubs[id];
        lineSubs := lineSubs - {id};
        var after := CloseChannel(chans[c]);
        chans := chans[c := after];
      }
    }

    method FanoutRaw(chunk: Data)
      requires Safe(Now())
      modifies this
      ensures Now() == Step(old(Now()), FanOut(Raw, chunk))
      ensures rawSubs == old(rawSubs) && lineSubs == old(lineSubs) && Sent(old(chans), chans, rawSubs, chunk)
      ensures dropped == old(dropped) + Slow(old(chans), rawSubs)
      ensures rawLog == old(rawLog) + [chunk] && lineLog == old(lineLog)
    {
      SentMeans(chans, rawSubs, chunk);
      chans, dropped := SendAll(chans, rawSubs, chunk, dropped);
      rawLog := rawLog + [chunk];
    }

    method FanoutLine(p: Data)
      requires Safe(Now())
      modifies this
      ensures Now() == Step(old(Now()), FanOut(Lines, TrimNewline(p)))
      ensures var line := if p != [] && p[|p| - 1] == 10 then p[..|p| - 1] else p;
              && rawSubs == old(rawSubs) && lineSubs == old(lineSubs) && Sent(old(chans), chans, lineSubs, line)
              && dropped == old(dropped) + Slow(old(chans), lineSubs)
              && lineLog == old(lineLog) + [line] && rawLog == old(rawLog)
    {
      var line := TrimNewline(p);
      SentMeans(chans, lineSubs, line);
      chans, dropped := SendAll(chans, lineSubs, line, dropped);
      lineLog := lineLog + [line];
    }

    method CloseSession()
      requires Safe(Now())
      modifies this
      ensures Now() == Step(old(Now()), Close)
      ensures old(kind) == Closed ==> Now() == old(Now())
      ensures old(kind) != Closed ==>
                && kind == Closed && rawSubs == map[] == lineSubs
                && ClosedOnly(old(chans), chans, old(rawSubs).Values + old(lineSubs).Values)
    {
      if kind == Closed { return; }
      LinesStayReady(chans, rawSubs, lineSubs);
      kind := Closed;
      chans, rawSubs := ShutAll(chans, rawSubs);
      chans, lineSubs := ShutAll(chans, lineSubs);
    }

    method AcceptConn(conn: Conn)
      requires Enabled(Now(), Accept(conn))
      modifies this
      ensures Now() == Step(old(Now()), Accept(conn))
      ensures stage == old(stage)[conn := Accepted(old(nextSub))] && conns == old(conns) && clients == old(clients)
      ensures kind != Closed ==> old(nextSub) in rawSubs
    {
      var id := AddSubscriber(Raw);
      stage := stage[conn := Accepted(id)];
    }

    method CountConn(conn: Conn)
      requires Enabled(Now(), Count(conn))
      modifies this
      ensures Now() == Step(old(Now()), Count(conn))
      ensures conns == old(conns) + {conn} && clients == old(clients) + 1
    {
      conns := conns + {conn};
      clients := clients + 1;
      stage := stage[conn := Serving(stage[conn].sub)];
    }

    method HangUpConn(conn: Conn)
      requires Safe(Now()) && Enabled(Now(), HangUp(conn))
      modifies this
      ensures Now() == Step(old(Now()), HangUp(conn))
      ensures old(stage)[conn].sub !in rawSubs && conns == old(conns) && clients == old(clients)
    {
      CancelSubscriber(Raw, stage[conn].sub);
      stage := stage[conn := HungUp];
    }

    method LeaveConn(conn: Conn)
      requires Enabled(Now(), Leave(conn))
      modifies this
      ensures Now() == Step(old(Now()), Leave(conn))
      ensures conns == old(conns) - {conn} && clients == old(clients) - 1
    {
      conns := conns - {conn};
      clients := clients - 1;
      stage := stage[conn := Gone];
    }
  }
}
