/**
 What makes an index unreadable, told from its text alone: ParseIndex
 (internal/apkindex/parse.go) against the blank-line blocks of the lines.
 */
module ApkBlocks {
  import opened ApkIndex

  // ---------------------------------------------------------------------
  // Lines and blocks
  // ---------------------------------------------------------------------

  predicate IsBlank(raw: string) {
    DropCR(raw) == ""
  }

  /** A line "K:..." for some key K. */
  predicate IsField(raw: string) {
    var l := DropCR(raw);
    |l| >= 2 && l[1] == ':'
  }

  predicate HasField(lines: seq<string>) {
    exists i :: 0 <= i < |lines| && IsField(lines[i])
  }

  /** What the last line with that key says, or "" if there is none. */
  function LastValue(lines: seq<string>, key: char): string {
    if lines == [] then ""
    else
      var raw := lines[|lines| - 1];
      if IsField(raw) && DropCR(raw)[0] == key then DropCR(raw)[2..] else LastValue(lines[..|lines| - 1], key)
  }

  /** Where the block that ends before line i begins. */
  function Start(lines: seq<string>, i: nat): (a: nat)
    requires i <= |lines|
    ensures a <= i
  {
    if i == 0 || IsBlank(lines[i - 1]) then i else Start(lines, i - 1)
  }

  function BlockBefore(lines: seq<string>, i: nat): seq<string>
    requires i <= |lines|
  {
    lines[Start(lines, i)..i]
  }

  /** A block is a run of lines that are not blank, and no longer one would be. */
  lemma {:induction false} BlockIsMaximal(lines: seq<string>, i: nat)
    requires i <= |lines|
    ensures forall k :: Start(lines, i) <= k < i ==> !IsBlank(lines[k])
    ensures Start(lines, i) == 0 || IsBlank(lines[Start(lines, i) - 1])
  {
    if i == 0 || IsBlank(lines[i - 1]) {
    } else {
      BlockIsMaximal(lines, i - 1);
    }
  }

  // ---------------------------------------------------------------------
  // Faults
  // ---------------------------------------------------------------------

  /** Too long, or a size or time that is no number. */
  predicate LineFaulty(raw: string) {
    || |raw| >= 1048576
    || (IsField(raw) && DropCR(raw)[0] in {'S', 'I', 't'} && ParseInt(DropCR(raw)[2..]).Err?)
  }

  /** Has a field, and its last P: line is missing or empty. */
  predicate Nameless(block: seq<string>) {
    HasField(block) && LastValue(block, 'P') == ""
  }

  /** Has a name, and a checksum that does not decode. */
  predicate BadSum(block: seq<string>) {
    HasField(block) && LastValue(block, 'P') != "" && LastValue(block, 'C') != ""
      && DecodeChecksum(LastValue(block, 'C')).Err?
  }

  /** No fault before line i: no faulty line, and no faulty block that ends at a blank line there. */
  predicate Clean(lines: seq<string>, i: nat)
    requires i <= |lines|
  {
    forall j :: 0 <= j < i ==>
      !LineFaulty(lines[j])
        && (IsBlank(lines[j]) ==> !Nameless(BlockBefore(lines, j)) && !BadSum(BlockBefore(lines, j)))
  }

  // ---------------------------------------------------------------------
  // The parser's state, told from the block it is in
  // ---------------------------------------------------------------------

  const NOTHING := State(BLANK, false, [])

  ghost predicate Matches(s: State, block: seq<string>) {
    s.has == HasField(block) && s.cur.name == LastValue(block, 'P') && s.cur.checksumText == LastValue(block, 'C')
  }

  lemma {:induction false} NoFieldNoValue(block: seq<string>, key: char)
    requires !HasField(block)
    ensures LastValue(block, key) == ""
  {
    if block == [] {
    } else {
      var rest := block[..|block| - 1];
      assert forall i :: 0 <= i < |rest| ==> rest[i] == block[i];
      NoFieldNoValue(rest, key);
    }
  }

  /** A blank line, or the end of the text. */
  lemma FlushMatches(s: State, block: seq<string>)
    requires Matches(s, block)
    ensures Flush(s) == Err(NoName) <==> Nameless(block)
    ensures Flush(s) == Err(BadChecksum) <==> BadSum(block)
    ensures Flush(s).Ok? <==> !Nameless(block) && !BadSum(block)
    ensures Flush(s).Ok? ==> Matches(Flush(s).value, [])
  {
    if !s.has {
      NoFieldNoValue(block, 'P');
      NoFieldNoValue(block, 'C');
    }
  }

  lemma LastValueAppend(block: seq<string>, raw: string, key: char)
    ensures LastValue(block + [raw], key) ==
            if IsField(raw) && DropCR(raw)[0] == key then DropCR(raw)[2..] else LastValue(block, key)
    ensures HasField(block + [raw]) <==> HasField(block) || IsField(raw)
  {
    var all := block + [raw];
    assert all[..|block|] == block && all[|block|] == raw;
    if HasField(block) {
      var i :| 0 <= i < |block| && IsField(block[i]);
      assert all[i] == block[i];
    }
  }

  /** A line that is not blank. */
  lemma TakeMatches(s: State, block: seq<string>, raw: string)
    requires Matches(s, block) && !IsBlank(raw)
    ensures TakeLine(s, raw).Ok? <==> !LineFaulty(raw)
    ensures TakeLine(s, raw) != Err(NoName)
    ensures TakeLine(s, raw).Ok? ==> Matches(TakeLine(s, raw).value, block + [raw])
  {
    LastValueAppend(block, raw, 'P');
    LastValueAppend(block, raw, 'C');
    if IsField(raw) { SetMatches(s.cur, DropCR(raw)[0], DropCR(raw)[2..]); }
  }

  /** Setting a field fails only for a number, and touches name and checksum only for their keys. */
  lemma SetMatches(e: Entry, key: char, val: string)
    ensures SetField(e, key, val).Err? <==> key in {'S', 'I', 't'} && ParseInt(val).Err?
    ensures SetField(e, key, val) != Err(NoName)
    ensures SetField(e, key, val).Ok? ==>
              var f := SetField(e, key, val).value;
              f.name == (if key == 'P' then val else e.name)
                && f.checksumText == if key == 'C' then val else e.checksumText
  {
  }

  lemma TakeSnoc(lines: seq<string>, i: nat)
    requires i < |lines|
    ensures var t := TakeLines(NOTHING, lines[..i]);
            TakeLines(NOTHING, lines[..i + 1]) == if t.Err? then t else TakeLine(t.value, lines[i])
  {
    assert lines[..i + 1] == lines[..i] + [lines[i]];
    TakeJoin(NOTHING, lines[..i], [lines[i]]);
    var t := TakeLines(NOTHING, lines[..i]);
    if t.Ok? {
      var r := TakeLine(t.value, lines[i]);
      assert [lines[i]][1..] == [];
      assert TakeLines(t.value, [lines[i]]) == if r.Err? then r else TakeLines(r.value, []);
    }
  }

  /** The parser is still going before line i exactly when the lines are clean so far, and then it knows the current
      block. */
  lemma {:induction false} PrefixMatches(lines: seq<string>, i: nat)
    requires i <= |lines|
    ensures TakeLines(NOTHING, lines[..i]).Ok? <==> Clean(lines, i)
    ensures Clean(lines, i) ==> Matches(TakeLines(NOTHING, lines[..i]).value, BlockBefore(lines, i))
  {
    if i == 0 {
      assert lines[..0] == [];
    } else {
      PrefixMatches(lines, i - 1);
      TakeSnoc(lines, i - 1);
      if Clean(lines, i - 1) {
        OneMore(lines, i - 1, TakeLines(NOTHING, lines[..i - 1]).value);
      }
    }
  }

  lemma OneMore(lines: seq<string>, i: nat, s: State)
    requires i < |lines| && Clean(lines, i) && Matches(s, BlockBefore(lines, i))
    ensures TakeLine(s, lines[i]).Ok? <==> Clean(lines, i + 1)
    ensures TakeLine(s, lines[i]) == Err(NoName) <==> IsBlank(lines[i]) && Nameless(BlockBefore(lines, i))
    ensures TakeLine(s, lines[i]).Ok? ==> Matches(TakeLine(s, lines[i]).value, BlockBefore(lines, i + 1))
  {
    CleanMore(lines, i);
    BlockGrows(lines, i);
    if IsBlank(lines[i]) {
      FlushMatches(s, BlockBefore(lines, i));
    } else {
      TakeMatches(s, BlockBefore(lines, i), lines[i]);
    }
  }

  lemma CleanMore(lines: seq<string>, i: nat)
    requires i < |lines|
    ensures Clean(lines, i + 1) <==>
            && Clean(lines, i)
            && if IsBlank(lines[i])
               then !Nameless(BlockBefore(lines, i)) && !BadSum(BlockBefore(lines, i))
               else !LineFaulty(lines[i])
  {
    if IsBlank(lines[i]) {
      assert |lines[i]| <= 1 && !LineFaulty(lines[i]);
    }
  }

  lemma BlockGrows(lines: seq<string>, i: nat)
    requires i < |lines|
    ensures BlockBefore(lines, i + 1) == if IsBlank(lines[i]) then [] else BlockBefore(lines, i) + [lines[i]]
  {
  }

  // ---------------------------------------------------------------------
  // What the whole parse says
  // ---------------------------------------------------------------------

  /** A failed parse stopped at some line, with that line's fault. */
  lemma {:induction false} StoppedAt(lines: seq<string>, n: nat) returns (i: nat)
    requires n <= |lines| && TakeLines(NOTHING, lines[..n]).Err?
    ensures i < n && TakeLines(NOTHING, lines[..i]).Ok?
    ensures TakeLine(TakeLines(NOTHING, lines[..i]).value, lines[i]) == TakeLines(NOTHING, lines[..n])
  {
    assert lines[..0] == [];
    TakeSnoc(lines, n - 1);
    if TakeLines(NOTHING, lines[..n - 1]).Err? {
      i := StoppedAt(lines, n - 1);
    } else {
      i := n - 1;
    }
  }

  lemma StopsFor(lines: seq<string>, i: nat)
    requires i < |lines| && TakeLines(NOTHING, lines[..i + 1]).Err?
    ensures TakeLines(NOTHING, lines) == TakeLines(NOTHING, lines[..i + 1])
  {
    assert lines == lines[..i + 1] + lines[i + 1..];
    TakeJoin(NOTHING, lines[..i + 1], lines[i + 1..]);
  }

  /** The block that ends before line b, at a blank line or the end of the text, is the first fault, and it has no
      name. */
  ghost predicate FirstFaultIsNameless(lines: seq<string>, b: nat)
    requires b <= |lines|
  {
    && (b == |lines| || IsBlank(lines[b]))
    && Clean(lines, b) && Nameless(BlockBefore(lines, b))
  }

  /** Of all faults a nameless block comes first. */
  ghost predicate NamelessFirst(lines: seq<string>) {
    exists b: nat :: b <= |lines| && FirstFaultIsNameless(lines, b)
  }

  lemma NamelessStops(lines: seq<string>, b: nat)
    requires b <= |lines| && FirstFaultIsNameless(lines, b)
    ensures Finish(TakeLines(NOTHING, lines)) == Err(NoName)
  {
    assert lines[..|lines|] == lines;
    PrefixMatches(lines, b);
    var s := TakeLines(NOTHING, lines[..b]).value;
    FlushMatches(s, BlockBefore(lines, b));
    if b < |lines| {
      OneMore(lines, b, s);
      TakeSnoc(lines, b);
      StopsFor(lines, b);
    }
  }

  /** An index is refused for a missing name exactly when, before any other fault, some block has a field and no
      name. */
  lemma NamelessBlockFailsIff(text: string)
    ensures Parse(text) == Err(NoName) <==> NamelessFirst(RawLines(text))
  {
    var lines := RawLines(text);
    if NamelessFirst(lines) {
      var b: nat :| b <= |lines| && FirstFaultIsNameless(lines, b);
      NamelessStops(lines, b);
    }
    if Parse(text) == Err(NoName) {
      var b := StoppedNameless(lines);
    }
  }

  lemma StoppedNameless(lines: seq<string>) returns (b: nat)
    requires Finish(TakeLines(NOTHING, lines)) == Err(NoName)
    ensures b <= |lines| && FirstFaultIsNameless(lines, b)
  {
    assert lines[..|lines|] == lines;
    var all := TakeLines(NOTHING, lines);
    if all.Ok? {
      b := |lines|;
      PrefixMatches(lines, b);
      FlushMatches(all.value, BlockBefore(lines, b));
    } else {
      b := StoppedAt(lines, |lines|);
      PrefixMatches(lines, b);
      OneMore(lines, b, TakeLines(NOTHING, lines[..b]).value);
    }
  }

  /** An index is read exactly when no line is faulty and every block with a field has a name and a checksum that
      decodes. */
  lemma ParsesIff(text: string)
    ensures var lines := RawLines(text);
            Parse(text).Ok? <==>
              Clean(lines, |lines|) && !Nameless(BlockBefore(lines, |lines|)) && !BadSum(BlockBefore(lines, |lines|))
  {
    var lines := RawLines(text);
    assert lines[..|lines|] == lines;
    PrefixMatches(lines, |lines|);
    var all := TakeLines(NOTHING, lines);
    if all.Ok? { FlushMatches(all.value, BlockBefore(lines, |lines|)); }
  }

  // ---------------------------------------------------------------------
  // What is read
  // ---------------------------------------------------------------------

  /** The number a field holds; 0 without one. */
  function Number(s: string): int {
    var n := ParseInt(s);
    if n.Ok? then n.value else 0
  }

  /** What a block says: for each key the last line that has it. */
  function Draft(block: seq<string>): Entry {
    Entry(LastValue(block, 'P'), LastValue(block, 'V'), LastValue(block, 'T'), LastValue(block, 'U'),
          LastValue(block, 'L'), LastValue(block, 'A'), Number(LastValue(block, 'S')), Number(LastValue(block, 'I')),
          LastValue(block, 'o'), LastValue(block, 'm'), Number(LastValue(block, 't')), LastValue(block, 'c'),
          [], LastValue(block, 'C'),
          Fields(LastValue(block, 'D'), ""), Fields(LastValue(block, 'p'), ""), Fields(LastValue(block, 'r'), ""),
          Fields(LastValue(block, 'i'), ""))
  }

  /** With the checksum decoded. */
  function EntryFor(block: seq<string>): Entry {
    var text := LastValue(block, 'C');
    var e := Draft(block);
    if text == "" || DecodeChecksum(text).Err? then e else e.(checksum := DecodeChecksum(text).value)
  }

  /** One entry per block with a field that ends at a blank line before line i, in order. */
  function EntriesBefore(lines: seq<string>, i: nat): seq<Entry>
    requires i <= |lines|
  {
    if i == 0 then []
    else
      EntriesBefore(lines, i - 1)
      + if IsBlank(lines[i - 1]) && HasField(BlockBefore(lines, i - 1))
        then [EntryFor(BlockBefore(lines, i - 1))] else []
  }

  lemma DraftNext(block: seq<string>, raw: string)
    requires IsField(raw) && !LineFaulty(raw)
    ensures SetField(Draft(block), DropCR(raw)[0], DropCR(raw)[2..]) == Ok(Draft(block + [raw]))
  {
    var key, val := DropCR(raw)[0], DropCR(raw)[2..];
    forall k ensures LastValue(block + [raw], k) == if k == key then val else LastValue(block, k) {
      LastValueAppend(block, raw, k);
    }
  }

  lemma DraftStays(block: seq<string>, raw: string)
    requires !IsField(raw)
    ensures Draft(block + [raw]) == Draft(block)
  {
    forall k ensures LastValue(block + [raw], k) == LastValue(block, k) { LastValueAppend(block, raw, k); }
  }

  /** The parser's state before line i. */
  function StateFor(lines: seq<string>, i: nat): State
    requires i <= |lines|
  {
    State(Draft(BlockBefore(lines, i)), HasField(BlockBefore(lines, i)), EntriesBefore(lines, i))
  }

  lemma EntriesNext(lines: seq<string>, i: nat)
    requires i < |lines|
    ensures EntriesBefore(lines, i + 1) ==
            EntriesBefore(lines, i)
            + if IsBlank(lines[i]) && HasField(BlockBefore(lines, i)) then [EntryFor(BlockBefore(lines, i))] else []
  {
  }

  lemma BlankReads(lines: seq<string>, i: nat)
    requires i < |lines| && IsBlank(lines[i]) && TakeLine(StateFor(lines, i), lines[i]).Ok?
    ensures TakeLine(StateFor(lines, i), lines[i]) == Ok(StateFor(lines, i + 1))
  {
    BlockGrows(lines, i);
    BlankDraft();
    EntriesNext(lines, i);
    FlushReads(StateFor(lines, i), BlockBefore(lines, i));
  }

  lemma ReadNotFaulty(s: State, raw: string)
    requires !IsBlank(raw) && TakeLine(s, raw).Ok?
    ensures !LineFaulty(raw)
  {
    if IsField(raw) { SetMatches(s.cur, DropCR(raw)[0], DropCR(raw)[2..]); }
  }

  lemma OneMoreReads(lines: seq<string>, i: nat)
    requires i < |lines| && TakeLine(StateFor(lines, i), lines[i]).Ok?
    ensures TakeLine(StateFor(lines, i), lines[i]) == Ok(StateFor(lines, i + 1))
  {
    if IsBlank(lines[i]) {
      BlankReads(lines, i);
    } else {
      var done := EntriesBefore(lines, i);
      ReadNotFaulty(StateFor(lines, i), lines[i]);
      BlockGrows(lines, i);
      EntriesNext(lines, i);
      assert done + [] == done;
      LineReads(BlockBefore(lines, i), lines[i], done);
    }
  }

  lemma FirstReads(lines: seq<string>)
    ensures TakeLines(NOTHING, lines[..0]) == Ok(StateFor(lines, 0))
  {
    assert lines[..0] == [];
    BlankDraft();
  }

  lemma NextReads(lines: seq<string>, i: nat, s: State)
    requires i < |lines| && TakeLine(s, lines[i]).Ok? && s == StateFor(lines, i)
    ensures TakeLine(s, lines[i]) == Ok(StateFor(lines, i + 1))
  {
    OneMoreReads(lines, i);
  }

  lemma {:induction false} PrefixReads(lines: seq<string>, i: nat)
    requires i <= |lines| && TakeLines(NOTHING, lines[..i]).Ok?
    ensures TakeLines(NOTHING, lines[..i]) == Ok(StateFor(lines, i))
  {
    if i == 0 {
      FirstReads(lines);
    } else {
      TakeSnoc(lines, i - 1);
      PrefixReads(lines, i - 1);
      NextReads(lines, i - 1, TakeLines(NOTHING, lines[..i - 1]).value);
    }
  }

  lemma BlankDraft()
    ensures Draft([]) == BLANK && !HasField([])
  {
    assert ParseInt("").Err? && Fields("", "") == [];
  }

  lemma FlushReads(s: State, block: seq<string>)
    requires s == State(Draft(block), HasField(block), s.done) && Flush(s).Ok?
    ensures Flush(s).value.done == s.done + if HasField(block) then [EntryFor(block)] else []
    ensures Flush(s).value.cur == BLANK && !Flush(s).value.has
  {
    if !HasField(block) { NoDraft(block); }
  }

  lemma NoDraft(block: seq<string>)
    requires !HasField(block)
    ensures Draft(block) == BLANK
  {
    forall k ensures LastValue(block, k) == "" { NoFieldNoValue(block, k); }
    BlankDraft();
  }

  lemma LineReads(block: seq<string>, raw: string, done: seq<Entry>)
    requires !IsBlank(raw) && !LineFaulty(raw)
    ensures TakeLine(State(Draft(block), HasField(block), done), raw) ==
            Ok(State(Draft(block + [raw]), HasField(block + [raw]), done))
  {
    LastValueAppend(block, raw, 'P');
    if IsField(raw) { DraftNext(block, raw); } else { DraftStays(block, raw); }
  }

  /** A readable index gives one entry per block with a field, in order, each with what the last line of every key
      says. */
  lemma ParsedEntries(text: string)
    requires Parse(text).Ok?
    ensures var lines := RawLines(text);
            var last := BlockBefore(lines, |lines|);
            Parse(text).value == EntriesBefore(lines, |lines|) + if HasField(last) then [EntryFor(last)] else []
  {
    var lines := RawLines(text);
    assert lines[..|lines|] == lines;
    PrefixReads(lines, |lines|);
    var s := TakeLines(NOTHING, lines).value;
    FlushReads(s, BlockBefore(lines, |lines|));
  }

  /** One line with a version and no name. */
  lemma NamelessWitness()
    ensures Parse("V:1\n") == Err(NoName)
  {
    RawLinesCons("V:1", "");
    assert "V:1" + "\n" + "" == "V:1\n";
    var lines := RawLines("V:1\n");
    assert lines == ["V:1"];
    assert BlockBefore(lines, 1) == ["V:1"] by {
      assert Start(lines, 0) == 0 && Start(lines, 1) == 0;
    }
    assert IsField(["V:1"][0]) && ["V:1"][..0] == [];
    assert LastValue(["V:1"], 'P') == LastValue([], 'P');
    assert FirstFaultIsNameless(lines, 1);
    NamelessBlockFailsIff("V:1\n");
  }
}
