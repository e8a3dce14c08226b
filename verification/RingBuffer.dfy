/**
 * The in-memory log ring of src/services/log-ring-buffer.ts: a fixed array with
 * a head index and a count, and the redaction of metadata on the way in.
 */
module RingBuffer {
  import opened JsText
  import opened Json
  import opened Numbers

  datatype LogEntry = LogEntry(ts: string, level: string, message: string, meta: seq<Entry<Js>>)

  // ---- redaction -----------------------------------------------------------

  const REDACT_KEY_SUBSTRINGS := ["image", "template", "pixel", "depth", "frame", "embedding"]
  const REDACTED := Str("[redacted]")

  predicate Includes(s: string, sub: string) {
    exists i :: 0 <= i <= |s| && sub <= s[i..]
  }

  /** Some banned word occurs in the key, whatever its case. */
  predicate Banned(lower: string -> string, key: string) {
    exists i :: 0 <= i < |REDACT_KEY_SUBSTRINGS| && Includes(lower(key), REDACT_KEY_SUBSTRINGS[i])
  }

  predicate StandsAt(s: string, word: string, i: nat) { i + |word| <= |s| && s[i..i + |word|] == word }

  predicate Contains(s: string, word: string) { exists i :: 0 <= i <= |s| && StandsAt(s, word, i) }

  lemma IncludesIs(s: string, word: string)
    ensures Includes(s, word) <==> Contains(s, word)
  {
    if Includes(s, word) {
      var i :| 0 <= i <= |s| && word <= s[i..];
      assert StandsAt(s, word, i);
    }
    if Contains(s, word) {
      var i :| 0 <= i <= |s| && StandsAt(s, word, i);
      assert word <= s[i..];
    }
  }

  /** Which keys those are. */
  lemma BannedAre(lower: string -> string, key: string)
    ensures var s := lower(key);
            Banned(lower, key) <==>
              || Contains(s, "image") || Contains(s, "template") || Contains(s, "pixel")
              || Contains(s, "depth") || Contains(s, "frame") || Contains(s, "embedding")
    ensures REDACTED == Str("[redacted]")
  {
    var s, words := lower(key), REDACT_KEY_SUBSTRINGS;
    assert |words| == 6;
    forall k | 0 <= k < 6 ensures Includes(s, words[k]) <==> Contains(s, words[k]) {
      IncludesIs(s, words[k]);
    }
    assert words[0] == "image" && words[1] == "template" && words[2] == "pixel";
    assert words[3] == "depth" && words[4] == "frame" && words[5] == "embedding";
  }

  /** Same keys in the same order; banned values replaced, every other value untouched. */
  ghost predicate IsRedactionOf(lower: string -> string, out: seq<Entry<Js>>, meta: seq<Entry<Js>>) {
    && |out| == |meta|
    && forall i :: 0 <= i < |meta| ==>
         out[i].key == meta[i].key && out[i].value == if Banned(lower, meta[i].key) then REDACTED else meta[i].value
  }

  method RedactMeta(lower: string -> string, meta: seq<Entry<Js>>) returns (out: seq<Entry<Js>>)
    ensures IsRedactionOf(lower, out, meta)
  {
    out := [];
    for i := 0 to |meta|
      invariant IsRedactionOf(lower, out, meta[..i])
    {
      var banned := Banned(lower, meta[i].key);
      out := out + [Entry(meta[i].key, if banned then REDACTED else meta[i].value)];
    }
    assert meta[..|meta|] == meta;
  }

  /** Redacting what is already redacted changes nothing. */
  lemma RedactionIdempotent(lower: string -> string, meta: seq<Entry<Js>>, once: seq<Entry<Js>>, twice: seq<Entry<Js>>)
    requires IsRedactionOf(lower, once, meta) && IsRedactionOf(lower, twice, once)
    ensures twice == once
  {
    forall i | 0 <= i < |once| ensures twice[i] == once[i] {
      assert once[i].key == meta[i].key;
    }
  }

  // ---- index arithmetic ----------------------------------------------------

  lemma AddMod(a: nat, b: nat, c: nat)
    requires c > 0
    ensures (a % c + b) % c == (a + b) % c
  {
    var q, r := (a % c + b) / c, (a % c + b) % c;
    assert a == a / c * c + a % c;
    assert a + b == (a / c + q) * c + r by {
      assert (a / c + q) * c == a / c * c + q * c;
    }
    DivModUnique(a / c + q, r, (a + b) / c, (a + b) % c, c);
  }

  /** Fewer than c consecutive positions fall on different slots. */
  lemma SlotsDiffer(i: nat, j: nat, c: nat)
    requires c > 0 && i < j < i + c
    ensures i % c != j % c
  {
    if i % c == j % c {
      assert i == i / c * c + i % c && j == j / c * c + j % c;
      Distribute(j / c, i / c, c);
      var k := j / c - i / c;
      assert k * c == j - i;
      if k >= 1 {
        MulAtLeast(k, 1, c, c);
      } else {
        MulAtLeast(-k, 0, c, c);
        Distribute(0, k, c);
      }
      assert false;
    }
  }

  lemma WrapOnce(a: nat, c: nat)
    requires c > 0
    ensures (a + c) % c == a % c
  {
    AddMod(c, a, c);
    assert c % c == 0 by {
      DivModUnique(1, 0, c / c, c % c, c);
    }
  }

  /** The slot of the oldest entry held, as the source computes it from head and count. */
  lemma OldestSlot(pushes: nat, count: nat, c: nat)
    requires c > 0 && count <= pushes && count <= c
    ensures (pushes % c - count + c) % c == (pushes - count) % c
  {
    AddMod(pushes, c - count, c);
    assert pushes % c - count + c == pushes % c + (c - count) && pushes + (c - count) == pushes - count + c;
    WrapOnce(pushes - count, c);
  }

  /** `(head + 1) % capacity`. */
  method NextHead(ghost pushes: nat, head: nat, capacity: nat) returns (next: nat)
    requires capacity > 0 && head == pushes % capacity
    ensures next == (pushes + 1) % capacity
  {
    AddMod(pushes, 1, capacity);
    next := (head + 1) % capacity;
  }

  /** `(start + skip + i) % capacity`. */
  method IndexAfter(start: nat, skip: nat, i: nat, ghost oldest: nat, capacity: nat) returns (idx: nat)
    requires capacity > 0 && start == oldest % capacity
    ensures idx == (oldest + skip + i) % capacity && idx < capacity
  {
    AddMod(oldest, skip + i, capacity);
    assert start + (skip + i) == start + skip + i && oldest + (skip + i) == oldest + skip + i;
    idx := (start + skip + i) % capacity;
  }

  // ---- the buffer ----------------------------------------------------------

  /** The last n elements, or all of them. */
  function LastOf<T>(s: seq<T>, n: nat): (r: seq<T>) { if n >= |s| then s else s[|s| - n..] }

  class LogRingBuffer {
    /** `toLowerCase`. */
    const lower: string -> string
    const capacity: nat
    const slots: array<Option<LogEntry>>
    var head: nat
    var count: nat
    /** Everything pushed since the last clear, redacted. */
    ghost var history: seq<LogEntry>

    /** Entry i of the history is in its slot. */
    ghost predicate Holds(i: nat)
      requires capacity > 0 && slots.Length == capacity && i < |history|
      reads this`history, slots
    {
      slots[i % capacity] == Some(history[i])
    }

    ghost predicate Valid()
      reads this, slots
    {
      && capacity > 0 && slots.Length == capacity
      && head == |history| % capacity
      && count == Min(|history|, capacity)
      && forall i :: |history| - count <= i < |history| ==> Holds(i)
    }

    constructor (capacity: nat, lower: string -> string)
      requires capacity >= 1
      ensures Valid() && fresh(slots) && history == [] && this.capacity == capacity && this.lower == lower
    {
      this.lower := lower;
      this.capacity := capacity;
      slots := new Option<LogEntry>[capacity](_ => None);
      head, count, history := 0, 0, [];
    }

    method Size() returns (n: nat)
      requires Valid()
      ensures n == Min(|history|, capacity)
    {
      n := count;
    }

    /** Appends the redacted entry; the oldest one gives way once the buffer is full. */
    method Push(entry: LogEntry) returns (buffered: LogEntry)
      requires Valid()
      modifies this`head, this`count, this`history, slots
      ensures Valid() && history == old(history) + [buffered]
      ensures buffered == entry.(meta := buffered.meta) && IsRedactionOf(lower, buffered.meta, entry.meta)
    {
      var meta := RedactMeta(lower, entry.meta);
      buffered := LogEntry(entry.ts, entry.level, entry.message, meta);
      ghost var n := |history|;
      slots[head] := Some(buffered);
      head := NextHead(n, head, capacity);
      if count < capacity {
        count := count + 1;
      }
      history := history + [buffered];
      forall i | |history| - count <= i < |history| ensures Holds(i) {
        if i < n {
          assert old(Holds(i));
          SlotsDiffer(i, n, capacity);
        }
      }
    }

    /** The entry at a slot. */
    method EntryIn(idx: nat, ghost at: nat) returns (entry: LogEntry)
      requires Valid() && |history| - count <= at < |history| && idx == at % capacity && idx < capacity
      ensures entry == history[at]
    {
      assert Holds(at);
      entry := slots[idx].value;
    }

    /** The entry `skip + i` places after the oldest one held. */
    method SlotAfter(start: nat, skip: nat, i: nat) returns (entry: LogEntry)
      requires Valid() && skip + i < count
      requires start == (|history| - count) % capacity
      ensures entry == history[|history| - count + skip + i]
    {
      var idx := IndexAfter(start, skip, i, |history| - count, capacity);
      entry := EntryIn(idx, |history| - count + skip + i);
    }

    /** Where the oldest entry held is. */
    method Oldest() returns (start: nat)
      requires Valid()
      ensures start == (|history| - count) % capacity
    {
      OldestSlot(|history|, count, capacity);
      start := (head - count + capacity) % capacity;
    }

    /** `tail(n)`: the last n entries since the last clear, oldest first, as far as they are held. */
    method Tail(n: int) returns (out: seq<LogEntry>)
      requires Valid()
      ensures out == if n <= 0 then [] else LastOf(history, Min(n, capacity))
    {
      if n <= 0 || count == 0 {
        return [];
      }
      var take := Min(n, count);
      var start := Oldest();
      var skip := count - take;
      ghost var from := |history| - take;
      out := [];
      for i := 0 to take
        invariant out == history[from..from + i]
      {
        var entry := SlotAfter(start, skip, i);
        out := out + [entry];
      }
      assert history[from..from + take] == history[from..];
    }

    /** `clear()`. */
    method Clear()
      requires Valid()
      modifies this`head, this`count, this`history, slots
      ensures Valid() && history == []
      ensures forall i :: 0 <= i < capacity ==> slots[i] == None
    {
      for i := 0 to capacity
        invariant forall j :: 0 <= j < i ==> slots[j] == None
      {
        slots[i] := None;
      }
      head, count, history := 0, 0, [];
    }
  }
}
