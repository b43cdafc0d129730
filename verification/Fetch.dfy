/**
 The shared git cache of internal/source/fetch.go and internal/source/lock.go: any
 number of fetchers of one cache entry, each a sequence of file-system steps under a
 file lock, any of which may crash between two steps.
 */
module Fetch {

  type Fetcher = nat
  type Temp = nat

  /** The cache entry: which temporary clone it was published from, and whether it holds the ref. */
  datatype Entry = Absent | Clone(id: Temp, complete: bool)

  /** Where a fetcher stands. From Checking to Leaving it holds the lock. */
  datatype Stage =
    | Start
    | Waiting
    | Checking
    | Clearing
    | Sweeping
    | Making
    | Cloning(t: Temp)
    | Verifying(t: Temp)
    | Publishing(t: Temp)
    | Dropping(t: Temp, ok: bool)
    | Leaving(ok: bool)
    | Returned
    | Failed
    | Crashed

  datatype Lock = Free | Held(owner: Fetcher)

  /** temps says, for each temporary directory of this entry, whether it holds the ref. */
  datatype State = State(entry: Entry, temps: map<Temp, bool>, lock: Lock, at: map<Fetcher, Stage>)

  predicate Inside(g: Stage) {
    g.Checking? || g.Clearing? || g.Sweeping? || g.Making? || g.Cloning? || g.Verifying? || g.Publishing?
      || g.Dropping? || g.Leaving?
  }

  predicate Over(g: Stage) {
    g.Returned? || g.Failed? || g.Crashed?
  }

  /** The temporary directory a fetcher works in. */
  predicate Owns(g: Stage, t: Temp) {
    (g.Cloning? || g.Verifying? || g.Publishing? || g.Dropping?) && g.t == t
  }

  /** The file system may hold anything at first: no clone, a broken one, a whole one, debris of killed runs. */
  predicate Init(s: State) {
    s.lock == Free && forall p :: p in s.at ==> s.at[p] == Start
  }

  // ---------------------------------------------------------------------
  // Steps
  // ---------------------------------------------------------------------

  datatype Step =
    | OpenLock(ok: bool)
    | Acquire
    | LockError
    | Check
    | Clear(cleared: bool)
    | SweepOne(victim: Temp)
    | SweepDone
    | MakeTemp(made: Temp)
    | MakeError
    | Progress(content: bool)
    | CloneDone(done: bool)
    | Verify
    | Rename(renamed: bool)
    | Drop(dropped: bool)
    | Release
    | Crash

  predicate Moved(s: State, s': State, p: Fetcher, g: Stage)
    requires p in s.at
  {
    s'.at == s.at[p := g]
  }

  predicate OnlyMoved(s: State, s': State, p: Fetcher, g: Stage)
    requires p in s.at
  {
    Moved(s, s', p, g) && s'.entry == s.entry && s'.temps == s.temps && s'.lock == s.lock
  }

  /** Fetcher p takes one step. */
  predicate Takes(s: State, s': State, p: Fetcher, step: Step) {
    p in s.at && var g := s.at[p];
    match step
    case OpenLock(ok) => g.Start? && OnlyMoved(s, s', p, if ok then Waiting else Failed)
    case Acquire => g.Waiting? && s.lock == Free && Moved(s, s', p, Checking)
                    && s'.entry == s.entry && s'.temps == s.temps && s'.lock == Held(p)
    case LockError => g.Waiting? && OnlyMoved(s, s', p, Failed)
    case Check => g.Checking?
      && OnlyMoved(s, s', p, if s.entry.Absent? then Sweeping else if s.entry.complete then Leaving(true) else Clearing)
    case Clear(cleared) => g.Clearing? && Moved(s, s', p, if cleared then Sweeping else Leaving(false))
                           && s'.entry == (if cleared then Absent else s.entry)
                           && s'.temps == s.temps && s'.lock == s.lock
    case SweepOne(t) => g.Sweeping? && Moved(s, s', p, Sweeping)
                        && s'.entry == s.entry && s'.temps == s.temps - {t} && s'.lock == s.lock
    case SweepDone => g.Sweeping? && OnlyMoved(s, s', p, Making)
    case MakeTemp(t) => g.Making? && t !in s.temps && Moved(s, s', p, Cloning(t))
                        && s'.entry == s.entry && s'.temps == s.temps[t := false] && s'.lock == s.lock
    case MakeError => g.Making? && OnlyMoved(s, s', p, Leaving(false))
    case Progress(content) => g.Cloning? && Moved(s, s', p, g)
                              && s'.entry == s.entry && s'.temps == s.temps[g.t := content] && s'.lock == s.lock
    case CloneDone(done) => g.Cloning? && OnlyMoved(s, s', p, if done then Verifying(g.t) else Dropping(g.t, false))
    case Verify => g.Verifying?
      && OnlyMoved(s, s', p, if g.t in s.temps && s.temps[g.t] then Publishing(g.t) else Dropping(g.t, false))
    case Rename(renamed) =>
      g.Publishing? && Moved(s, s', p, Dropping(g.t, renamed)) && s'.lock == s.lock
      && (if renamed
          then s.entry.Absent? && g.t in s.temps && s'.entry == Clone(g.t, s.temps[g.t]) && s'.temps == s.temps - {g.t}
          else s'.entry == s.entry && s'.temps == s.temps)
    case Drop(dropped) => g.Dropping? && Moved(s, s', p, Leaving(g.ok))
                          && s'.temps == (if dropped then s.temps - {g.t} else s.temps)
                          && s'.entry == s.entry && s'.lock == s.lock
    case Release => g.Leaving? && Moved(s, s', p, if g.ok then Returned else Failed)
                    && s'.entry == s.entry && s'.temps == s.temps && s'.lock == Free
    case Crash => !Over(g) && Moved(s, s', p, Crashed) && s'.entry == s.entry && s'.temps == s.temps
                  && s'.lock == (if s.lock == Held(p) then Free else s.lock)
  }

  predicate Owned(s: State, t: Temp) {
    exists p :: p in s.at && Owns(s.at[p], t)
  }

  /** A clone whose fetcher died may write on into its directory. */
  predicate Orphan(s: State, s': State, t: Temp, content: bool) {
    !Owned(s, t) && s' == s.(temps := s.temps[t := content])
  }

  ghost predicate Next(s: State, s': State) {
    (exists p, step :: Takes(s, s', p, step)) || (exists t, content :: Orphan(s, s', t, content))
  }

  // ---------------------------------------------------------------------
  // The invariant
  // ---------------------------------------------------------------------

  /** What each stage knows. */
  predicate Knows(s: State, g: Stage) {
    match g
    case Clearing => s.entry.Clone? && !s.entry.complete
    case Sweeping => s.entry.Absent?
    case Making => s.entry.Absent?
    case Cloning(t) => s.entry.Absent? && t in s.temps
    case Verifying(t) => s.entry.Absent? && t in s.temps
    case Publishing(t) => s.entry.Absent? && t in s.temps && s.temps[t]
    case Dropping(t, ok) => ok ==> s.entry.Clone? && s.entry.complete
    case Leaving(ok) => ok ==> s.entry.Clone? && s.entry.complete
    case Returned => s.entry.Clone? && s.entry.complete
    case _ => true
  }

  predicate Inv(s: State) {
    && (forall p :: p in s.at ==> (Inside(s.at[p]) <==> s.lock == Held(p)))
    && (forall p :: p in s.at ==> Knows(s, s.at[p]))
  }

  lemma InitInv(s: State)
    requires Init(s)
    ensures Inv(s)
  {
  }

  predicate Complete(s: State) {
    s.entry.Clone? && s.entry.complete
  }

  /** Only the lock's holder, before or after the step, touches the file system. */
  lemma OthersStand(s: State, s': State, p: Fetcher, step: Step, q: Fetcher)
    requires Inv(s) && Takes(s, s', p, step) && q in s.at && q != p
    ensures q in s'.at && s'.at[q] == s.at[q]
    ensures Inside(s.at[q]) ==> s'.lock == s.lock && s'.entry == s.entry && s'.temps == s.temps
  {
  }

  lemma StepLock(s: State, s': State, p: Fetcher, step: Step)
    requires Inv(s) && Takes(s, s', p, step)
    ensures forall q :: q in s'.at ==> (Inside(s'.at[q]) <==> s'.lock == Held(q))
  {
    forall q | q in s'.at ensures Inside(s'.at[q]) <==> s'.lock == Held(q) {
      if q != p {
        OthersStand(s, s', p, step, q);
        assert Inside(s.at[q]) <==> s.lock == Held(q);
      }
    }
  }

  /** A whole entry is neither removed nor replaced. */
  lemma StepKeepsEntry(s: State, s': State, p: Fetcher, step: Step)
    requires Inv(s) && Takes(s, s', p, step) && Complete(s)
    ensures s'.entry == s.entry
  {
    assert Knows(s, s.at[p]);
  }

  lemma StepKnows(s: State, s': State, p: Fetcher, step: Step)
    requires Inv(s) && Takes(s, s', p, step)
    ensures forall q :: q in s'.at ==> Knows(s', s'.at[q])
  {
    forall q | q in s'.at ensures Knows(s', s'.at[q]) {
      assert q in s.at && Knows(s, s.at[q]);
      if q == p {
        ActorKnows(s, s', p, step);
      } else {
        OthersStand(s, s', p, step, q);
        if !Inside(s.at[q]) && s.at[q].Returned? { StepKeepsEntry(s, s', p, step); }
      }
    }
  }

  lemma ActorKnows(s: State, s': State, p: Fetcher, step: Step)
    requires Inv(s) && Takes(s, s', p, step)
    ensures p in s'.at && Knows(s', s'.at[p])
  {
    assert Knows(s, s.at[p]);
  }

  lemma NextInv(s: State, s': State)
    requires Inv(s) && Next(s, s')
    ensures Inv(s')
  {
    if p, step :| Takes(s, s', p, step) {
      StepLock(s, s', p, step);
      StepKnows(s, s', p, step);
    } else {
      var t, content :| Orphan(s, s', t, content);
      forall q | q in s'.at ensures Knows(s', s'.at[q]) {
        assert Knows(s, s.at[q]);
        assert !Owns(s.at[q], t);
      }
    }
  }

  lemma NextKeepsEntry(s: State, s': State)
    requires Inv(s) && Next(s, s') && Complete(s)
    ensures s'.entry == s.entry
  {
    if p, step :| Takes(s, s', p, step) { StepKeepsEntry(s, s', p, step); }
  }

  /** Temporary directories disappear only under the lock, at the hands of its holder. */
  lemma CleanupUnderLock(s: State, s': State, t: Temp)
    requires Inv(s) && Next(s, s') && t in s.temps && t !in s'.temps
    ensures exists p :: p in s.at && s.lock == Held(p) && s'.lock == Held(p) && Inside(s.at[p])
  {
    var p, step :| Takes(s, s', p, step);
    assert s.lock == Held(p);
  }

  // ---------------------------------------------------------------------
  // Every run
  // ---------------------------------------------------------------------

  ghost predicate Run(b: seq<State>) {
    |b| > 0 && Init(b[0]) && forall i :: 0 <= i < |b| - 1 ==> Next(b[i], b[i + 1])
  }

  lemma {:induction false} RunInv(b: seq<State>, i: nat)
    requires Run(b) && i < |b|
    ensures Inv(b[i])
    decreases i
  {
    if i == 0 {
      InitInv(b[0]);
    } else {
      RunInv(b, i - 1);
      assert Next(b[i - 1], b[i - 1 + 1]);
      NextInv(b[i - 1], b[i]);
    }
  }

  /** Once the entry holds the ref, it stays that very clone for the rest of the run. */
  lemma {:induction false} WholeEntryStays(b: seq<State>, i: nat, j: nat)
    requires Run(b) && i <= j < |b| && Complete(b[i])
    ensures b[j].entry == b[i].entry
    decreases j
  {
    if i < j {
      WholeEntryStays(b, i, j - 1);
      RunInv(b, j - 1);
      assert Next(b[j - 1], b[j - 1 + 1]);
      NextKeepsEntry(b[j - 1], b[j]);
    }
  }

  /** At no time do two fetchers clone: at most one is past the lock. */
  lemma OneAtATime(b: seq<State>, i: nat, p: Fetcher, q: Fetcher)
    requires Run(b) && i < |b| && p in b[i].at && q in b[i].at
    requires Inside(b[i].at[p]) && Inside(b[i].at[q])
    ensures p == q
  {
    RunInv(b, i);
  }

  /** From the moment a fetcher has returned the path, the entry behind it holds the ref, and is never touched again. */
  lemma ReturnedPathHoldsRef(b: seq<State>, i: nat, j: nat, p: Fetcher)
    requires Run(b) && i <= j < |b| && p in b[i].at && b[i].at[p].Returned?
    ensures Complete(b[j]) && b[j].entry == b[i].entry
  {
    RunInv(b, i);
    assert Knows(b[i], b[i].at[p]);
    WholeEntryStays(b, i, j);
  }

  // ---------------------------------------------------------------------
  // Recovery
  // ---------------------------------------------------------------------

  ghost predicate Path(b: seq<State>) {
    |b| > 0 && forall i :: 0 <= i < |b| - 1 ==> Next(b[i], b[i + 1])
  }

  lemma {:induction false} FreshTemp(used: set<Temp>) returns (t: Temp)
    ensures t !in used
  {
    t := 0;
    var seen: set<Temp> := {};
    while t in used
      invariant seen <= used && forall x: Temp :: x in seen <==> x < t
      decreases |used - seen|
    {
      assert t in used - seen;
      assert used - (seen + {t}) == (used - seen) - {t};
      seen, t := seen + {t}, t + 1;
    }
  }

  /** One more step at the end of a path. */
  lemma Extend(b: seq<State>, s': State, p: Fetcher, step: Step) returns (c: seq<State>)
    requires Path(b) && Takes(b[|b| - 1], s', p, step)
    ensures Path(c) && c[0] == b[0] && c[|c| - 1] == s'
  {
    c := b + [s'];
    assert Next(b[|b| - 1], s');
    forall i | 0 <= i < |c| - 1 ensures Next(c[i], c[i + 1]) {
      if i < |b| - 1 { assert Next(b[i], b[i + 1]); }
    }
  }

  /** From a clean slate under the lock, an undisturbed fetcher publishes a whole entry and returns. */
  lemma Publishes(b: seq<State>, p: Fetcher) returns (c: seq<State>)
    requires Path(b) && p in b[|b| - 1].at && b[|b| - 1].at[p] == Sweeping && b[|b| - 1].entry == Absent
    ensures Path(c) && c[0] == b[0] && p in c[|c| - 1].at && c[|c| - 1].at[p].Returned?
  {
    var s := b[|b| - 1];
    var t := FreshTemp(s.temps.Keys);
    var s1 := s.(at := s.at[p := Making]);
    c := Extend(b, s1, p, SweepDone);
    var s2 := s1.(at := s1.at[p := Cloning(t)], temps := s1.temps[t := false]);
    c := Extend(c, s2, p, MakeTemp(t));
    var s3 := s2.(at := s2.at[p := Cloning(t)], temps := s2.temps[t := true]);
    c := Extend(c, s3, p, Progress(true));
    var s4 := s3.(at := s3.at[p := Verifying(t)]);
    c := Extend(c, s4, p, CloneDone(true));
    var s5 := s4.(at := s4.at[p := Publishing(t)]);
    c := Extend(c, s5, p, Verify);
    c := Renames(c, p, t);
  }

  lemma Renames(b: seq<State>, p: Fetcher, t: Temp) returns (c: seq<State>)
    requires Path(b) && p in b[|b| - 1].at && b[|b| - 1].at[p] == Publishing(t) && b[|b| - 1].entry == Absent
    requires t in b[|b| - 1].temps && b[|b| - 1].temps[t]
    ensures Path(c) && c[0] == b[0] && p in c[|c| - 1].at && c[|c| - 1].at[p].Returned?
  {
    var s5 := b[|b| - 1];
    var s6 := State(Clone(t, true), s5.temps - {t}, s5.lock, s5.at[p := Dropping(t, true)]);
    c := Extend(b, s6, p, Rename(true));
    var s7 := s6.(at := s6.at[p := Leaving(true)]);
    c := Extend(c, s7, p, Drop(false));
    c := Extend(c, State(s7.entry, s7.temps, Free, s7.at[p := Returned]), p, Release);
  }

  /** Whatever crashes have left behind, a fetcher that finds the lock free can still return a whole entry. */
  lemma Recovers(s: State, p: Fetcher) returns (c: seq<State>)
    requires p in s.at && s.at[p] == Waiting && s.lock == Free
    ensures Path(c) && c[0] == s && p in c[|c| - 1].at && c[|c| - 1].at[p].Returned?
  {
    var s1 := s.(at := s.at[p := Checking], lock := Held(p));
    c := Extend([s], s1, p, Acquire);
    if s.entry.Absent? {
      c := Extend(c, s1.(at := s1.at[p := Sweeping]), p, Check);
      c := Publishes(c, p);
    } else if s.entry.complete {
      var s2 := s1.(at := s1.at[p := Leaving(true)]);
      c := Extend(c, s2, p, Check);
      c := Extend(c, State(s2.entry, s2.temps, Free, s2.at[p := Returned]), p, Release);
    } else {
      var s2 := s1.(at := s1.at[p := Clearing]);
      c := Extend(c, s2, p, Check);
      c := Extend(c, s2.(at := s2.at[p := Sweeping], entry := Absent), p, Clear(true));
      c := Publishes(c, p);
    }
  }
}
