/** The hash-chained audit log: an append-only file whose head pins its history. */
module TransparencyLog {
  import opened Outcomes

  /** The part of a record the chain is made of; `payload` is its canonical JSON text. */
  datatype Entry = Entry(prevHash: string, entryHash: string, payload: string)

  /** A line of the file, stripped: blank, not JSON, JSON that is no object, an object without a
      hash, or a record. */
  datatype Line = Blank | Malformed | NotAnObject | WithoutHash | Record(entry: Entry)

  /** The lines of a file, and whether the last one ends in a newline. */
  datatype File = File(lines: seq<Line>, terminated: bool)

  function Zeros(n: nat): (s: string)
    ensures |s| == n && forall c :: c in s ==> c == '0'
  {
    if n == 0 then "" else Zeros(n - 1) + "0"
  }

  /** The hash the first entry is chained to: sixty-four zeros. */
  function Genesis(): string {
    Zeros(64)
  }

  type Hash = string -> string

  function ChainInput(prevHash: string, payload: string): string {
    prevHash + "|" + payload
  }

  function MakeEntry(h: Hash, prevHash: string, payload: string): Entry {
    Entry(prevHash, h(ChainInput(prevHash, payload)), payload)
  }

  /** The last line that is not blank. */
  function LastLine(lines: seq<Line>): Line {
    if lines == [] then Blank
    else if lines[|lines| - 1].Blank? then LastLine(lines[..|lines| - 1])
    else lines[|lines| - 1]
  }

  /** The hash the next entry is chained to; None where reading it raises. */
  function HeadOfFile(lines: seq<Line>): Option<string> {
    match LastLine(lines)
    case Record(e) => Some(e.entryHash)
    case NotAnObject => None
    case _ => Some(Genesis())
  }

  /** The record is written after the last character of the file: on a new line if the last one
      is terminated, else onto it. White space before a record does no harm; any other text makes
      the line one that is not JSON. */
  function Write(f: File, line: Line): File {
    if f.terminated || f.lines == [] then File(f.lines + [line], true)
    else
      var n := |f.lines| - 1;
      File(f.lines[..n] + [if f.lines[n].Blank? then line else Malformed], true)
  }

  /** The file after one append; None where the append raises, and leaves the file alone. */
  function AfterAppend(h: Hash, f: File, payload: string): Option<File> {
    match HeadOfFile(f.lines)
    case None => None
    case Some(prevHash) => Some(Write(f, Record(MakeEntry(h, prevHash, payload))))
  }

  const EMPTY: File := File([], true)

  /** The log file of one path; None while there is no file. */
  class LogFile {
    const h: Hash
    var file: Option<File>

    constructor (h: Hash, file: Option<File>)
      ensures this.h == h && this.file == file
    {
      this.h, this.file := h, file;
    }

    ghost function Contents(): File
      reads this
    {
      if file.None? then EMPTY else file.value
    }

    /** `_last_chain_hash`: scans the file, remembering the last line that is not blank. */
    method LastChainHash() returns (hash: Option<string>)
      ensures hash == HeadOfFile(Contents().lines)
    {
      if file.None? { return Some(Genesis()); }
      var lines := file.value.lines;
      var last := Blank;
      var i := 0;
      while i < |lines|
        invariant 0 <= i <= |lines| && last == LastLine(lines[..i])
      {
        assert lines[..i + 1][..i] == lines[..i];
        if !lines[i].Blank? { last := lines[i]; }
        i := i + 1;
      }
      assert lines[..i] == lines;
      match last
      case Record(e) => return Some(e.entryHash);
      case NotAnObject => return None;
      case _ => return Some(Genesis());
    }

    /** `append_signed_audit_entry`: raises where the head cannot be read, and then leaves the
        file alone. */
    method Append(payload: string) returns (entry: Option<Entry>)
      modifies this
      ensures var after := AfterAppend(h, old(Contents()), payload);
        if after.None? then entry.None? && file == old(file)
        else
          && file == after && HeadOfFile(old(Contents()).lines).Some?
          && entry == Some(MakeEntry(h, HeadOfFile(old(Contents()).lines).value, payload))
      ensures entry.Some? ==>
        && HeadOfFile(old(Contents()).lines) == Some(entry.value.prevHash) && entry.value.payload == payload
        && entry.value.entryHash == h(entry.value.prevHash + "|" + payload)
    {
      var prevHash := LastChainHash();
      if prevHash.None? { return None; }
      var e := MakeEntry(h, prevHash.value, payload);
      file := Some(Write(if file.None? then EMPTY else file.value, Record(e)));
      return Some(e);
    }
  }

  // ---------- Chains ----------

  function Head(entries: seq<Entry>): string {
    if entries == [] then Genesis() else entries[|entries| - 1].entryHash
  }

  /** Each entry carries the hash of the one before, the first that of genesis, and its own is right. */
  ghost predicate Linked(h: Hash, entries: seq<Entry>) {
    forall i :: 0 <= i < |entries| ==> entries[i] == MakeEntry(h, Head(entries[..i]), entries[i].payload)
  }

  function Entries(lines: seq<Line>): seq<Entry> {
    if lines == [] then []
    else
      var last := lines[|lines| - 1];
      Entries(lines[..|lines| - 1]) + (if last.Record? then [last.entry] else [])
  }

  function Payloads(entries: seq<Entry>): seq<string> {
    seq(|entries|, i requires 0 <= i < |entries| => entries[i].payload)
  }

  /** The file after appending `payloads` one after another. */
  function AppendAll(h: Hash, f: File, payloads: seq<string>): Option<File> {
    if payloads == [] then Some(f)
    else
      match AppendAll(h, f, payloads[..|payloads| - 1])
      case None => None
      case Some(g) => AfterAppend(h, g, payloads[|payloads| - 1])
  }

  lemma LinkedSnoc(h: Hash, entries: seq<Entry>, e: Entry)
    requires Linked(h, entries)
    ensures Linked(h, entries + [e]) <==> e == MakeEntry(h, Head(entries), e.payload)
  {
    var after := entries + [e];
    assert after[..|entries|] == entries && after[|entries|] == e;
    if e == MakeEntry(h, Head(entries), e.payload) {
      forall i | 0 <= i < |after|
        ensures after[i] == MakeEntry(h, Head(after[..i]), after[i].payload)
      {
        if i < |entries| { assert after[..i] == entries[..i]; }
      }
    }
  }

  lemma PayloadsSnoc(entries: seq<Entry>, e: Entry)
    ensures Payloads(entries + [e]) == Payloads(entries) + [e.payload]
  {
  }

  lemma EntriesSnoc(lines: seq<Line>, line: Line)
    ensures Entries(lines + [line]) == Entries(lines) + (if line.Record? then [line.entry] else [])
  {
    assert (lines + [line])[..|lines|] == lines;
  }

  /** The record `i` carries the hash of the record before it, the first one sixty-four zeros, and the
      hash of that, a bar and its own payload. */
  predicate Follows(h: Hash, entries: seq<Entry>, i: nat)
    requires i < |entries|
  {
    && entries[i].prevHash == (if i == 0 then Zeros(64) else entries[i - 1].entryHash)
    && entries[i].entryHash == h(entries[i].prevHash + "|" + entries[i].payload)
  }

  lemma LinkAt(h: Hash, entries: seq<Entry>, i: nat)
    requires i < |entries|
    ensures Follows(h, entries, i) <==> entries[i] == MakeEntry(h, Head(entries[..i]), entries[i].payload)
  {
    hide Zeros;
  }

  /** A chain, record by record. */
  lemma LinkedRecordByRecord(h: Hash, entries: seq<Entry>)
    ensures Linked(h, entries) <==> forall i: nat :: i < |entries| ==> Follows(h, entries, i)
  {
    hide Follows, MakeEntry, Head;
    forall i: nat | i < |entries|
      ensures Follows(h, entries, i) <==> entries[i] == MakeEntry(h, Head(entries[..i]), entries[i].payload)
    {
      LinkAt(h, entries, i);
    }
  }

  /** The head is that of the last line with text, whatever blank lines follow it. */
  lemma {:induction false} HeadSkipsBlankLines(lines: seq<Line>, k: nat)
    requires k < |lines| && !lines[k].Blank? && forall i :: k < i < |lines| ==> lines[i].Blank?
    ensures lines[k].Record? ==> HeadOfFile(lines) == Some(lines[k].entry.entryHash)
    ensures lines[k].NotAnObject? ==> HeadOfFile(lines) == None
    ensures lines[k].Malformed? || lines[k].WithoutHash? ==> HeadOfFile(lines) == Some(Zeros(64))
  {
    hide Zeros;
    if k < |lines| - 1 { HeadSkipsBlankLines(lines[..|lines| - 1], k); }
  }

  /** Without a line of text it is genesis. */
  lemma {:induction false} HeadOfBlankLines(lines: seq<Line>)
    requires forall i :: 0 <= i < |lines| ==> lines[i].Blank?
    ensures HeadOfFile(lines) == Some(Zeros(64))
  {
    hide Zeros;
    if lines != [] { HeadOfBlankLines(lines[..|lines| - 1]); }
  }

  /** The file is a chain of exactly these payloads, ready for the next one. */
  ghost predicate IsChainOf(h: Hash, f: File, payloads: seq<string>) {
    && f.terminated && Linked(h, Entries(f.lines)) && Payloads(Entries(f.lines)) == payloads
    && HeadOfFile(f.lines) == Some(Head(Entries(f.lines)))
  }

  lemma CleanAppend(h: Hash, f: File, payload: string)
    requires f.terminated && HeadOfFile(f.lines).Some?
    ensures var e := MakeEntry(h, HeadOfFile(f.lines).value, payload);
      AfterAppend(h, f, payload) == Some(File(f.lines + [Record(e)], true)) &&
          HeadOfFile(f.lines + [Record(e)]) == Some(e.entryHash)
  {
    hide Zeros, MakeEntry;
  }

  lemma AppendExtendsChain(h: Hash, f: File, payloads: seq<string>, payload: string)
    requires IsChainOf(h, f, payloads)
    ensures AfterAppend(h, f, payload).Some? && IsChainOf(h, AfterAppend(h, f, payload).value, payloads + [payload])
    ensures f.lines <= AfterAppend(h, f, payload).value.lines
  {
    CleanAppend(h, f, payload);
    hide Linked, Entries, Payloads, Zeros, AfterAppend, HeadOfFile, LastLine, Genesis;
    var entries := Entries(f.lines);
    var e := MakeEntry(h, Head(entries), payload);
    EntriesSnoc(f.lines, Record(e));
    LinkedSnoc(h, entries, e);
    PayloadsSnoc(entries, e);
    assert (entries + [e])[|entries|] == e;
  }

  /** Every sequence of appends to an empty log gives a chain of exactly those payloads, linked
      from genesis. */
  lemma {:induction false} AppendsMakeAChain(h: Hash, payloads: seq<string>)
    ensures AppendAll(h, EMPTY, payloads).Some? && IsChainOf(h, AppendAll(h, EMPTY, payloads).value, payloads)
  {
    hide IsChainOf, Zeros, AfterAppend;
    if payloads != [] {
      var init, last := payloads[..|payloads| - 1], payloads[|payloads| - 1];
      AppendsMakeAChain(h, init);
      AppendExtendsChain(h, AppendAll(h, EMPTY, init).value, init, last);
      assert payloads == init + [last] by { SameInitAndLast(payloads, init + [last]); }
    } else {
      EmptyIsChain(h);
    }
  }

  lemma EmptyIsChain(h: Hash)
    ensures IsChainOf(h, EMPTY, [])
  {
  }

  lemma OneMoreAppend(h: Hash, payloads: seq<string>)
    requires payloads != []
    ensures var init := payloads[..|payloads| - 1];
      && AppendAll(h, EMPTY, init).Some? && AppendAll(h, EMPTY, payloads).Some?
      && AppendAll(h, EMPTY, init).value.lines <= AppendAll(h, EMPTY, payloads).value.lines
  {
    var init, last := payloads[..|payloads| - 1], payloads[|payloads| - 1];
    AppendsMakeAChain(h, init);
    AppendExtendsChain(h, AppendAll(h, EMPTY, init).value, init, last);
    assert AppendAll(h, EMPTY, payloads) == AfterAppend(h, AppendAll(h, EMPTY, init).value, last);
    hide AfterAppend, IsChainOf, AppendAll;
  }

  /** From an empty log on, appending never changes an earlier line: every earlier log is a prefix. */
  lemma {:induction false} EarlierLinesStay(h: Hash, payloads: seq<string>, n: nat)
    requires n <= |payloads|
    ensures AppendAll(h, EMPTY, payloads).Some? && AppendAll(h, EMPTY, payloads[..n]).Some?
    ensures AppendAll(h, EMPTY, payloads[..n]).value.lines <= AppendAll(h, EMPTY, payloads).value.lines
    decreases |payloads|
  {
    hide AppendAll, IsChainOf;
    if n < |payloads| {
      var init := payloads[..|payloads| - 1];
      assert init[..n] == payloads[..n];
      OneMoreAppend(h, payloads);
      EarlierLinesStay(h, init, n);
    } else {
      AppendsMakeAChain(h, payloads);
      assert payloads[..n] == payloads;
    }
  }

  // ---------- Appending to any file ----------

  /** Nothing but white space stands after the last newline. */
  predicate EndsClean(f: File) {
    f.terminated || f.lines == [] || f.lines[|f.lines| - 1].Blank?
  }

  /** The append adds one readable record, chained to the last readable one, and keeps all the
      others readable. */
  ghost predicate AddsLinkedRecord(h: Hash, f: File, payload: string) {
    var after := AfterAppend(h, f, payload);
    after.Some? && Entries(after.value.lines) == Entries(f.lines) + [MakeEntry(h, Head(Entries(f.lines)), payload)]
  }

  /** For every file whatsoever: an append does that if and only if the file ends in a newline (or
      has nothing after the last one) and the head that is read is that of the last readable
      record. */
  lemma AppendAddsIff(h: Hash, f: File, payload: string)
    ensures AddsLinkedRecord(h, f, payload) <==> EndsClean(f) && HeadOfFile(f.lines) == Some(Head(Entries(f.lines)))
  {
    if HeadOfFile(f.lines).Some? {
      var e := MakeEntry(h, HeadOfFile(f.lines).value, payload);
      EntriesAfterWrite(f, Record(e));
      LastEntryDiffers(Entries(f.lines), e, MakeEntry(h, Head(Entries(f.lines)), payload));
      hide Entries, Zeros, LastLine, MakeEntry;
      if !EndsClean(f) { FewerEntries(f); }
    }
  }

  lemma LastEntryDiffers(entries: seq<Entry>, a: Entry, b: Entry)
    ensures entries + [a] == entries + [b] <==> a == b
  {
    assert (entries + [a])[|entries|] == a && (entries + [b])[|entries|] == b;
  }

  lemma EntriesAfterWrite(f: File, line: Line)
    requires line.Record?
    ensures EndsClean(f) ==> Entries(Write(f, line).lines) == Entries(f.lines) + [line.entry]
    ensures !EndsClean(f) ==> Entries(Write(f, line).lines) == Entries(f.lines[..|f.lines| - 1])
  {
    if f.terminated || f.lines == [] {
      EntriesSnoc(f.lines, line);
    } else {
      var init, last := f.lines[..|f.lines| - 1], f.lines[|f.lines| - 1];
      assert f.lines == init + [last];
      EntriesSnoc(init, last);
      EntriesSnoc(init, line);
      EntriesSnoc(init, Malformed);
    }
  }

  lemma FewerEntries(f: File)
    requires f.lines != []
    ensures |Entries(f.lines[..|f.lines| - 1])| <= |Entries(f.lines)|
  {
  }

  /** Then, and if the records were a chain, they are one again. */
  lemma AddedRecordKeepsChain(h: Hash, f: File, payload: string)
    requires AddsLinkedRecord(h, f, payload) && Linked(h, Entries(f.lines))
    ensures Linked(h, Entries(AfterAppend(h, f, payload).value.lines))
  {
    LinkedSnoc(h, Entries(f.lines), MakeEntry(h, Head(Entries(f.lines)), payload));
  }

  /** A torn write leaves a line without its newline. The next record is written onto that line
      and cannot be read back; the one after it restarts the chain at genesis, so that the chain
      is kept only if nothing came before. */
  lemma TornLineLosesNextRecord(h: Hash, lines: seq<Line>, payload: string, payload': string)
    requires Linked(h, Entries(lines))
    ensures var torn := File(lines + [Malformed], false);
      var once := AfterAppend(h, torn, payload);
      && once == Some(File(lines + [Malformed], true)) && Entries(once.value.lines) == Entries(lines)
      && var twice := AfterAppend(h, once.value, payload');
         && twice.Some? && Entries(twice.value.lines) == Entries(lines) + [MakeEntry(h, Genesis(), payload')]
         && (Linked(h, Entries(twice.value.lines)) <==> Head(Entries(lines)) == Genesis())
  {
    var torn := File(lines + [Malformed], false);
    var once := File(lines + [Malformed], true);
    assert torn.lines[..|lines|] == lines;
    EntriesSnoc(lines, Malformed);
    var e := MakeEntry(h, Genesis(), payload');
    EntriesSnoc(once.lines, Record(e));
    LinkedSnoc(h, Entries(lines), e);
    hide Linked, Entries, Zeros;
  }

  /** When only the newline is missing, the head is read correctly, and yet the write makes both
      the last record and the new one unreadable. */
  lemma MissingNewlineLosesTwoRecords(h: Hash, lines: seq<Line>, last: Entry, payload: string)
    ensures var f := File(lines + [Record(last)], false);
      && HeadOfFile(f.lines) == Some(Head(Entries(f.lines))) == Some(last.entryHash)
      && AfterAppend(h, f, payload) == Some(File(lines + [Malformed], true))
      && Entries(AfterAppend(h, f, payload).value.lines) == Entries(lines)
  {
    var f := File(lines + [Record(last)], false);
    assert f.lines[..|lines|] == lines;
    EntriesSnoc(lines, Record(last));
    EntriesSnoc(lines, Malformed);
    hide Entries;
  }

  // ---------- The head determines the history ----------

  function InputOf(e: Entry): string {
    ChainInput(e.prevHash, e.payload)
  }

  predicate Collide(h: Hash, x: string, y: string) {
    x != y && h(x) == h(y)
  }

  /** Two entries whose different chain inputs hash alike. */
  ghost predicate Collision(h: Hash, a: seq<Entry>, b: seq<Entry>) {
    exists i, j :: 0 <= i < |a| && 0 <= j < |b| && Collide(h, InputOf(a[i]), InputOf(b[j]))
  }

  ghost predicate YieldsGenesis(entries: seq<Entry>) {
    exists i :: 0 <= i < |entries| && entries[i].entryHash == Genesis()
  }

  /** Hex digests hold no bar. */
  ghost predicate NoBarInDigests(h: Hash) {
    forall x :: '|' !in h(x)
  }

  ghost predicate IsFirstBar(s: string, i: nat) {
    i < |s| && s[i] == '|' && forall j :: 0 <= j < i ==> s[j] != '|'
  }

  lemma FirstBarOfInput(prevHash: string, payload: string)
    requires '|' !in prevHash
    ensures IsFirstBar(ChainInput(prevHash, payload), |prevHash|)
  {
  }

  lemma SplitAtFirstBar(a: string, x: string, b: string, y: string)
    requires '|' !in a && '|' !in b && ChainInput(a, x) == ChainInput(b, y)
    ensures a == b && x == y
  {
    var s := ChainInput(a, x);
    FirstBarOfInput(a, x);
    FirstBarOfInput(b, y);
    assert |a| == |b|;
    assert a == s[..|a|] && b == s[..|b|];
    assert x == s[|a| + 1..] && y == s[|b| + 1..];
  }

  lemma HeadHasNoBar(h: Hash, entries: seq<Entry>)
    requires NoBarInDigests(h) && Linked(h, entries)
    ensures '|' !in Head(entries)
  {
    hide Zeros;
  }

  lemma LastLink(h: Hash, entries: seq<Entry>)
    requires Linked(h, entries) && entries != []
    ensures var init, last := entries[..|entries| - 1], entries[|entries| - 1];
      Linked(h, init) && last == MakeEntry(h, Head(init), last.payload)
  {
    var init := entries[..|entries| - 1];
    forall i | 0 <= i < |init|
      ensures init[i] == MakeEntry(h, Head(init[..i]), init[i].payload)
    {
      assert init[..i] == entries[..i] && init[i] == entries[i];
    }
  }

  /** Two chains with the same head are the same chain, unless the hash of one of the entries
      involved collides with another or yields genesis. Nothing is assumed of other inputs. */
  lemma {:induction false} HeadDeterminesHistory(h: Hash, a: seq<Entry>, b: seq<Entry>)
    requires NoBarInDigests(h) && Linked(h, a) && Linked(h, b) && Head(a) == Head(b)
    ensures a == b || Collision(h, a, b) || YieldsGenesis(a) || YieldsGenesis(b)
    decreases |a|
  {
    if a == [] || b == [] {
      HeadIsGenesis(a);
      HeadIsGenesis(b);
    } else {
      LastEntriesAgree(h, a, b);
      hide *;
      var a', b' := a[..|a| - 1], b[..|b| - 1];
      if a[|a| - 1] == b[|b| - 1] && Head(a') == Head(b') && Linked(h, a') && Linked(h, b') {
        HeadDeterminesHistory(h, a', b');
        EarlierTroubleStays(h, a, b);
        if a' == b' { SameInitAndLast(a, b); }
      }
    }
  }

  /** Equal heads come from equal last entries on chains with equal heads, or from a collision. */
  lemma LastEntriesAgree(h: Hash, a: seq<Entry>, b: seq<Entry>)
    requires NoBarInDigests(h) && Linked(h, a) && Linked(h, b) && Head(a) == Head(b) && a != [] && b != []
    ensures var a', b' := a[..|a| - 1], b[..|b| - 1];
      || Collision(h, a, b)
      || (a[|a| - 1] == b[|b| - 1] && Head(a') == Head(b') && Linked(h, a') && Linked(h, b'))
  {
    LastLink(h, a);
    LastLink(h, b);
    var x, y := a[|a| - 1], b[|b| - 1];
    assert h(InputOf(x)) == h(InputOf(y));
    if InputOf(x) == InputOf(y) {
      HeadHasNoBar(h, a[..|a| - 1]);
      HeadHasNoBar(h, b[..|b| - 1]);
      SplitAtFirstBar(x.prevHash, x.payload, y.prevHash, y.payload);
      hide Linked, Collision, Zeros, NoBarInDigests;
    } else {
      hide Linked, Zeros, NoBarInDigests, InputOf;
    }
  }

  lemma SameInitAndLast<T>(a: seq<T>, b: seq<T>)
    requires a != [] && b != [] && a[..|a| - 1] == b[..|b| - 1] && a[|a| - 1] == b[|b| - 1]
    ensures a == b
  {
    assert a == a[..|a| - 1] + [a[|a| - 1]];
    assert b == b[..|b| - 1] + [b[|b| - 1]];
  }

  lemma HeadIsGenesis(entries: seq<Entry>)
    ensures Head(entries) == Genesis() ==> entries == [] || YieldsGenesis(entries)
  {
    if entries != [] { assert entries[|entries| - 1].entryHash == Head(entries); }
  }

  lemma EarlierTroubleStays(h: Hash, a: seq<Entry>, b: seq<Entry>)
    requires a != [] && b != []
    ensures var a', b' := a[..|a| - 1], b[..|b| - 1];
      && (Collision(h, a', b') ==> Collision(h, a, b))
      && (YieldsGenesis(a') ==> YieldsGenesis(a)) && (YieldsGenesis(b') ==> YieldsGenesis(b))
  {
    var a', b' := a[..|a| - 1], b[..|b| - 1];
    if i, j :| 0 <= i < |a'| && 0 <= j < |b'| && Collide(h, InputOf(a'[i]), InputOf(b'[j])) {
      assert a'[i] == a[i] && b'[j] == b[j];
    }
    if i :| 0 <= i < |a'| && a'[i].entryHash == Genesis() { assert a[i] == a'[i]; }
    if i :| 0 <= i < |b'| && b'[i].entryHash == Genesis() { assert b[i] == b'[i]; }
  }

  /** In particular, two logs grown from empty files whose last hashes agree had the
      same payloads appended, as many of them and in the same order. */
  lemma LogsWithOneHeadAgree(h: Hash, p: seq<string>, q: seq<string>)
    requires NoBarInDigests(h)
    ensures AppendAll(h, EMPTY, p).Some? && AppendAll(h, EMPTY, q).Some?
    ensures var f, g := AppendAll(h, EMPTY, p).value, AppendAll(h, EMPTY, q).value;
      var a, b := Entries(f.lines), Entries(g.lines);
      HeadOfFile(f.lines) == HeadOfFile(g.lines) ==>
        p == q || Collision(h, a, b) || YieldsGenesis(a) || YieldsGenesis(b)
  {
    AppendsMakeAChain(h, p);
    AppendsMakeAChain(h, q);
    var f, g := AppendAll(h, EMPTY, p).value, AppendAll(h, EMPTY, q).value;
    hide AppendAll, Entries, Zeros, LastLine;
    if HeadOfFile(f.lines) == HeadOfFile(g.lines) {
      HeadDeterminesHistory(h, Entries(f.lines), Entries(g.lines));
    }
  }
}
