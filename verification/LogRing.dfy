/** The in-memory ring of a file logger: the most recent entries, readable from a signal handler. */
module LogRing {
  import opened SeqOps

  datatype Level = Trace | Debug | Info | Warn | Error

  function Rank(l: Level): nat {
    match l
    case Trace => 0
    case Debug => 1
    case Info => 2
    case Warn => 3
    case Error => 4
  }

  /** At each minimum level, the severities that get through: errors always, traces only at the lowest. */
  lemma LevelsLetThrough(severity: Level, minimum: Level)
    ensures Rank(severity) >= Rank(minimum) <==>
              match minimum
              case Trace => true
              case Debug => severity != Trace
              case Info => severity != Trace && severity != Debug
              case Warn => severity == Warn || severity == Error
              case Error => severity == Error
  {
  }

  /** A C string argument, which may be a null pointer. */
  datatype CText = Null | Text(text: string)

  datatype Entry = Entry(level: Level, file: string, line: int, message: string)

  const RING_CAP := 256
  const FILE_FIELD := 256
  const MESSAGE_FIELD := 512
  const INT_MAX := 0x7fff_ffff

  function Length(t: CText): nat {
    if t.Null? then 0 else |t.text|
  }

  /** The end of the path, as much as the field holds: the file name matters more than its directories. */
  function StoredFile(t: CText): (r: string)
    ensures t.Null? ==> r == ""
    ensures t.Text? ==> |r| == (if |t.text| <= 255 then |t.text| else 255) && t.text[|t.text| - |r|..] == r
  {
    if t.Null? then ""
    else if |t.text| >= FILE_FIELD then t.text[|t.text| - (FILE_FIELD - 1)..][..FILE_FIELD - 1]
    else t.text
  }

  /** The start of the message, as much as the field holds. */
  function StoredMessage(t: CText): (r: string)
    ensures t.Null? ==> r == ""
    ensures t.Text? ==> |r| == (if |t.text| <= 511 then |t.text| else 511) && r <= t.text
  {
    if t.Null? then "" else if |t.text| < MESSAGE_FIELD - 1 then t.text else t.text[..MESSAGE_FIELD - 1]
  }

  datatype Call = SetLevel(level: Level) | LogCall(severity: Level, file: CText, line: int, message: CText)

  /** The minimum level after a sequence of calls. */
  function LevelAfter(calls: seq<Call>): Level {
    if calls == [] then Info
    else if calls[|calls| - 1].SetLevel? then calls[|calls| - 1].level
    else LevelAfter(calls[..|calls| - 1])
  }

  function Stored(c: Call): Entry
    requires c.LogCall?
  {
    Entry(c.severity, StoredFile(c.file), c.line, StoredMessage(c.message))
  }

  /** The entries accepted by a sequence of calls: those not below the level in force when they were made. */
  function Accepted(calls: seq<Call>): seq<Entry> {
    if calls == [] then []
    else
      var c, before := calls[|calls| - 1], calls[..|calls| - 1];
      Accepted(before) + (if c.LogCall? && Rank(c.severity) >= Rank(LevelAfter(before)) then [Stored(c)] else [])
  }

  lemma AcceptedSnoc(calls: seq<Call>, c: Call)
    ensures Accepted(calls + [c])
         == Accepted(calls) + (if c.LogCall? && Rank(c.severity) >= Rank(LevelAfter(calls)) then [Stored(c)] else [])
    ensures LevelAfter(calls + [c]) == if c.SetLevel? then c.level else LevelAfter(calls)
  {
    assert (calls + [c])[..|calls|] == calls;
  }

  /** The same calls, with every level set at least as high. */
  ghost predicate Stricter(strict: seq<Call>, calls: seq<Call>) {
    && |strict| == |calls|
    && forall k :: 0 <= k < |calls| ==>
         strict[k] == calls[k]
         || (strict[k].SetLevel? && calls[k].SetLevel? && Rank(strict[k].level) >= Rank(calls[k].level))
  }

  /** Raising levels only ever leaves entries out: what is still accepted keeps its order, and nothing new gets in. */
  lemma {:induction false} RaisingLevelsDropsEntries(strict: seq<Call>, calls: seq<Call>)
    requires Stricter(strict, calls)
    ensures Rank(LevelAfter(strict)) >= Rank(LevelAfter(calls))
    ensures Subsequence(Accepted(strict), Accepted(calls))
  {
    hide Rank, Stored;
    if calls != [] {
      var n := |calls| - 1;
      RaisingLevelsDropsEntries(strict[..n], calls[..n]);
      var a, b := Accepted(strict[..n]), Accepted(calls[..n]);
      assert strict[n] == calls[n] || (strict[n].SetLevel? && calls[n].SetLevel?);
      if calls[n].LogCall? {
        SubsequenceSnoc(a, b, Stored(calls[n]));
        LongerStill(a, b, Stored(calls[n]));
      }
      assert a + [] == a && b + [] == b;
    }
  }

  lemma LongerStill<T>(a: seq<T>, b: seq<T>, x: T)
    requires Subsequence(a, b)
    ensures Subsequence(a, b + [x])
  {
    assert (b + [x])[..|b|] == b;
  }

  function Min(a: int, b: int): int {
    if a <= b then a else b
  }

  function Slot(i: nat): (s: nat)
    ensures s < RING_CAP
  {
    i % RING_CAP
  }

  lemma ModShift(x: int, q: int)
    ensures (x + q * RING_CAP) % RING_CAP == x % RING_CAP
  {
    var d := x / RING_CAP;
    assert x + q * RING_CAP == (d + q) * RING_CAP + x % RING_CAP;
  }

  /** Stepping on from an entry's slot and stepping on from the entry lead to the same slot. */
  lemma SameSlot(a: nat, i: nat)
    ensures Onward(Slot(a), i) == Slot(a + i)
  {
    var q := a / RING_CAP;
    assert a == q * RING_CAP + a % RING_CAP;
    ModShift(a % RING_CAP + i, q);
  }

  /** Entries less than a ring apart use different slots. */
  lemma SlotsDiffer(a: nat, b: nat)
    requires a < b < a + RING_CAP
    ensures Slot(a) != Slot(b)
  {
    var p, q := a / RING_CAP, b / RING_CAP;
    assert a == p * RING_CAP + a % RING_CAP && b == q * RING_CAP + b % RING_CAP;
  }

  /** The slot a copy of the last `want` of the `available` entries starts reading at. */
  function ReadStart(head: int, available: int, want: int): (r: int)
    ensures 0 <= r < RING_CAP
  {
    var start := ((head - available) % RING_CAP + RING_CAP) % RING_CAP;
    var skip := available - want;
    (start + skip) % RING_CAP
  }

  /** It is that of the oldest entry wanted. */
  lemma ReadStartIsOldestWanted(head: int, available: int, want: int)
    requires 0 <= want <= available <= head
    ensures ReadStart(head, available, want) == Slot(head - want)
  {
    ModShift((head - available) % RING_CAP, 1);
    SameSlot(head - available, available - want);
  }

  /** The slot i places on, around the ring. */
  function Onward(start: int, i: int): (r: int)
    ensures 0 <= r < RING_CAP
  {
    (start + i) % RING_CAP
  }

  /** The ring holds the last `count` entries of the log, each in its slot. */
  ghost predicate Holds(ring: seq<Entry>, log: seq<Entry>, count: nat) {
    && |ring| == RING_CAP && count <= |log|
    && forall i :: |log| - count <= i < |log| ==> ring[Slot(i)] == log[i]
  }

  /** Writing the next entry over the oldest one keeps the rest in place. */
  lemma WriteNext(ring: seq<Entry>, log: seq<Entry>, count: nat, e: Entry)
    requires Holds(ring, log, count) && count <= RING_CAP
    ensures Holds(ring[Slot(|log|) := e], log + [e], Min(count + 1, RING_CAP))
  {
    hide Slot;
    var n := |log|;
    forall i: nat | n - count <= i < n && n + 1 - RING_CAP <= i ensures Slot(i) != Slot(n) {
      SlotsDiffer(i, n);
    }
  }

  lemma ReadBack(ring: seq<Entry>, log: seq<Entry>, count: nat, i: nat)
    requires Holds(ring, log, count) && |log| - count <= i < |log|
    ensures ring[Slot(i)] == log[i]
  {
  }

  class FileLogger {
    var minLevel: Level
    var ring: array<Entry>
    /** Entries ever written; the next one goes to slot head % RING_CAP. */
    var head: int
    /** Entries held. */
    var count: int
    /** Every call made so far. */
    ghost var calls: seq<Call>

    ghost predicate Valid()
      reads this, ring
    {
      && minLevel == LevelAfter(calls)
      && head == |Accepted(calls)| <= INT_MAX && count == Min(head, RING_CAP)
      && Holds(ring[..], Accepted(calls), count)
    }

    constructor ()
      ensures Valid() && calls == [] && fresh(ring)
    {
      minLevel, head, count, calls := Info, 0, 0, [];
      ring := new Entry[RING_CAP](i => Entry(Trace, "", 0, ""));
    }

    method SetMinLevel(level: Level)
      requires Valid()
      modifies this
      ensures Valid() && ring == old(ring) && calls == old(calls) + [SetLevel(level)]
    {
      AcceptedSnoc(calls, SetLevel(level));
      minLevel := level;
      calls := calls + [SetLevel(level)];
    }

    /** Record an entry unless it is below the level. The head is a 32-bit count of entries. */
    method Log(level: Level, file: CText, line: int, message: CText)
      requires Valid() && head < INT_MAX
      modifies this, ring
      ensures Valid() && ring == old(ring) && calls == old(calls) + [LogCall(level, file, line, message)]
    {
      hide Holds, Slot, Accepted, StoredFile, StoredMessage;
      ghost var c := LogCall(level, file, line, message);
      AcceptedSnoc(calls, c);
      if Rank(level) < Rank(minLevel) {
        assert Accepted(calls) + [] == Accepted(calls);
        calls := calls + [c];
        return;
      }
      var e := Entry(level, StoredFile(file), line, StoredMessage(message));
      WriteNext(ring[..], Accepted(calls), count, e);
      RingSize(ring[..], Accepted(calls), count);
      var slot := Slot(head);
      ghost var before := ring[..];
      ring[slot] := e;
      assert ring[..] == before[slot := e];
      head := head + 1;
      if count < RING_CAP {
        count := count + 1;
      }
      calls := calls + [c];
    }

    /** Copy out the most recent accepted entries, oldest first, across every wrap of the ring. */
    method CopyLastLines(out: array?<Entry>, maxLines: int) returns (n: int)
      requires Valid() && (out != null ==> out != ring && maxLines <= out.Length)
      modifies out
      ensures n == if out == null || maxLines <= 0 then 0 else Min(maxLines, Min(256, |Accepted(calls)|))
      ensures out != null ==> out[..n] == Accepted(calls)[|Accepted(calls)| - n..] && out[n..] == old(out[n..])
    {
      hide Holds, Slot, Accepted, ReadStart;
      if out == null || maxLines <= 0 {
        return 0;
      }
      var available := Min(count, RING_CAP);
      var want := Min(available, maxLines);
      if want <= 0 {
        return 0;
      }
      ReadStartIsOldestWanted(head, available, want);
      CopyFrom(out, ReadStart(head, available, want), want);
      n := want;
    }

    /** The copy loop: `want` entries from the slot of the oldest one wanted. */
    method CopyFrom(out: array<Entry>, readStart: int, want: int)
      requires Valid() && out != ring && 0 <= want <= Min(count, out.Length) && readStart == Slot(head - want)
      modifies out
      ensures out[..want] == Accepted(calls)[head - want..] && out[want..] == old(out[want..])
    {
      hide Holds, Slot, Accepted, Onward;
      ghost var log := Accepted(calls);
      RingSize(ring[..], log, count);
      var i := 0;
      while i < want
        invariant 0 <= i <= want
        invariant forall k :: 0 <= k < i ==> out[k] == log[head - want + k]
        invariant forall k :: want <= k < out.Length ==> out[k] == old(out[k])
      {
        SameSlot(head - want, i);
        ReadBack(ring[..], log, count, head - want + i);
        out[i] := ring[Onward(readStart, i)];
        i := i + 1;
      }
    }
  }

  lemma RingSize(ring: seq<Entry>, log: seq<Entry>, count: nat)
    requires Holds(ring, log, count)
    ensures |ring| == RING_CAP
  {
  }
}
