/**
 * The event masks of `poll` and their Lua form: a table of booleans keyed
 * "IN", "PRI", "OUT", "ERR", "HUP" and "NVAL". A mask is read out of such a
 * table (`tk_system_poll_events_from_table`) and written into one
 * (`tk_system_poll_events_to_table`).
 */
module PollEvents {
  import opened Lua

  /** A C `short` holding poll event bits. */
  type Mask = bv16

  /** The Linux values of the event bits. */
  const POLLIN: Mask := 0x001
  const POLLPRI: Mask := 0x002
  const POLLOUT: Mask := 0x004
  const POLLERR: Mask := 0x008
  const POLLHUP: Mask := 0x010
  const POLLNVAL: Mask := 0x020

  /** `tk_system_poll_event_map`: each bit with its field name, in table order. */
  const EventMap: seq<(Mask, string)> :=
    [(POLLIN, "IN"), (POLLPRI, "PRI"), (POLLOUT, "OUT"), (POLLERR, "ERR"), (POLLHUP, "HUP"), (POLLNVAL, "NVAL")]

  /** The number of map entries, `TK_SYSTEM_PPOLL_EVENT_NUM`. */
  const EventCount: nat := 6

  /** Every bit the map names. */
  const AllEvents: Mask := 0x03f

  function Bit(i: nat): Mask
    requires i < EventCount
  {
    assert |EventMap| == EventCount;
    EventMap[i].0
  }

  function Name(i: nat): string
    requires i < EventCount
  {
    assert |EventMap| == EventCount;
    EventMap[i].1
  }

  /** Whether `events` has the bit of map entry `i`. */
  predicate HasBit(events: Mask, i: nat)
    requires i < EventCount
  {
    events & Bit(i) != 0
  }

  /** No two map entries share a name, and none is named "events" or "revents". */
  lemma NamesDistinct(i: nat, j: nat)
    requires i < EventCount && j < EventCount
    ensures i != j ==> Name(i) != Name(j)
    ensures Name(i) != "revents" && Name(i) != "events"
  {
    if i == 0 {} else if i == 1 {} else if i == 2 {} else if i == 3 {} else if i == 4 {} else {}
    if j == 0 {} else if j == 1 {} else if j == 2 {} else if j == 3 {} else if j == 4 {} else {}
  }

  /** The bits of the first `k` map entries whose field in `t` is true. */
  function EventsUpTo(t: Fields, k: nat): Mask
    requires k <= EventCount
  {
    if k == 0 then 0
    else EventsUpTo(t, k - 1) | (if Truthy(GetField(t, Name(k - 1))) then Bit(k - 1) else 0)
  }

  lemma EventsUpToStep(t: Fields, i: nat, events: Mask)
    requires i < EventCount && EventsUpTo(t, i) == events
    ensures Truthy(GetField(t, Name(i))) ==> EventsUpTo(t, i + 1) == events | Bit(i)
    ensures !Truthy(GetField(t, Name(i))) ==> EventsUpTo(t, i + 1) == events
  {
  }

  /** The mask `tk_system_poll_events_from_table` returns for a table with fields `t`. */
  function EventsOf(t: Fields): Mask
  {
    EventsUpTo(t, EventCount)
  }

  /** `m` when `b` holds, no bits otherwise. */
  function Pick(b: bool, m: Mask): Mask
  {
    if b then m else 0
  }

  /** The mask with the bit of each map entry whose flag is set, or-ed in map order. */
  function MaskOfFlags(f0: bool, f1: bool, f2: bool, f3: bool, f4: bool, f5: bool): Mask
  {
    0 | Pick(f0, POLLIN) | Pick(f1, POLLPRI) | Pick(f2, POLLOUT) | Pick(f3, POLLERR) | Pick(f4, POLLHUP) | Pick(f5, POLLNVAL)
  }

  lemma MaskOfFlagsBits(f0: bool, f1: bool, f2: bool, f3: bool, f4: bool, f5: bool)
    ensures var x := MaskOfFlags(f0, f1, f2, f3, f4, f5);
      && (x & POLLIN != 0 <==> f0) && (x & POLLPRI != 0 <==> f1) && (x & POLLOUT != 0 <==> f2)
      && (x & POLLERR != 0 <==> f3) && (x & POLLHUP != 0 <==> f4) && (x & POLLNVAL != 0 <==> f5)
      && x & !AllEvents == 0
  {
  }

  /** Whether the field of map entry `i` in `t` is true. */
  predicate Flag(t: Fields, i: nat)
    requires i < EventCount
  {
    Truthy(GetField(t, Name(i)))
  }

  lemma EventsOfFlags(t: Fields)
    ensures EventsOf(t) == MaskOfFlags(Flag(t, 0), Flag(t, 1), Flag(t, 2), Flag(t, 3), Flag(t, 4), Flag(t, 5))
  {
    assert Bit(0) == POLLIN && Bit(1) == POLLPRI && Bit(2) == POLLOUT;
    assert Bit(3) == POLLERR && Bit(4) == POLLHUP && Bit(5) == POLLNVAL;
    assert EventsUpTo(t, 1) == 0 | Pick(Flag(t, 0), POLLIN);
    assert EventsUpTo(t, 2) == EventsUpTo(t, 1) | Pick(Flag(t, 1), POLLPRI);
    assert EventsUpTo(t, 3) == EventsUpTo(t, 2) | Pick(Flag(t, 2), POLLOUT);
    assert EventsUpTo(t, 4) == EventsUpTo(t, 3) | Pick(Flag(t, 3), POLLERR);
    assert EventsUpTo(t, 5) == EventsUpTo(t, 4) | Pick(Flag(t, 4), POLLHUP);
    assert EventsUpTo(t, 6) == EventsUpTo(t, 5) | Pick(Flag(t, 5), POLLNVAL);
  }

  /** A bit is in the mask exactly when the table's field of that name is true (neither nil nor false). */
  lemma EventsOfBit(t: Fields, i: nat)
    requires i < EventCount
    ensures EventsOf(t) & Bit(i) != 0 <==> Truthy(GetField(t, Name(i)))
  {
    EventsOfFlags(t);
    MaskOfFlagsBits(Flag(t, 0), Flag(t, 1), Flag(t, 2), Flag(t, 3), Flag(t, 4), Flag(t, 5));
    if i == 0 {
      assert Bit(i) == POLLIN;
    } else if i == 1 {
      assert Bit(i) == POLLPRI;
    } else if i == 2 {
      assert Bit(i) == POLLOUT;
    } else if i == 3 {
      assert Bit(i) == POLLERR;
    } else if i == 4 {
      assert Bit(i) == POLLHUP;
    } else {
      assert Bit(i) == POLLNVAL;
    }
  }

  /** The mask has no bit the map does not name. */
  lemma EventsOfWithin(t: Fields)
    ensures EventsOf(t) & !AllEvents == 0
  {
    EventsOfFlags(t);
    MaskOfFlagsBits(Flag(t, 0), Flag(t, 1), Flag(t, 2), Flag(t, 3), Flag(t, 4), Flag(t, 5));
  }

  /**
   * `tk_system_poll_events_from_table(L, r)`: one `lua_getfield` per map entry,
   * setting that entry's bit when the field is true.
   */
  method EventsFromTable(L: LuaState, r: Ref) returns (events: Mask)
    requires r in L.heap.tables
    ensures events == EventsOf(L.heap.tables[r])
  {
    var t := L.heap.tables[r];
    events := 0;
    var i := 0;
    while i < EventCount
      invariant 0 <= i <= EventCount
      invariant EventsUpTo(t, i) == events
    {
      var isSet := Truthy(GetField(t, Name(i)));
      EventsUpToStep(t, i, events);
      if isSet {
        events := events | Bit(i);
      }
      i := i + 1;
    }
  }

  /** The fields `t` after the first `k` entries of the map were set to the booleans of `events`. */
  function WriteFlags(t: Fields, events: Mask, k: nat): Fields
    requires k <= EventCount
  {
    if k == 0 then t
    else SetField(WriteFlags(t, events, k - 1), Name(k - 1), Boolean(HasBit(events, k - 1)))
  }

  lemma {:induction false} WriteFlagsNamed(t: Fields, events: Mask, k: nat, i: nat)
    requires i < k <= EventCount
    ensures GetField(WriteFlags(t, events, k), Name(i)) == Boolean(HasBit(events, i))
  {
    if i < k - 1 {
      WriteFlagsNamed(t, events, k - 1, i);
      NamesDistinct(i, k - 1);
      assert Str(Name(i)) != Str(Name(k - 1));
    }
  }

  lemma {:induction false} WriteFlagsUnnamed(t: Fields, events: Mask, k: nat, key: Value)
    requires k <= EventCount
    requires forall i :: 0 <= i < k ==> key != Str(Name(i))
    ensures key in WriteFlags(t, events, k) <==> key in t
    ensures key in t ==> WriteFlags(t, events, k)[key] == t[key]
  {
    if k > 0 {
      WriteFlagsUnnamed(t, events, k - 1, key);
    }
  }

  /** After the write, each named field holds whether its bit is set in `events`. */
  lemma WriteFlagsField(t: Fields, events: Mask, i: nat)
    requires i < EventCount
    ensures GetField(WriteFlags(t, events, EventCount), Name(i)) == Boolean(HasBit(events, i))
  {
    WriteFlagsNamed(t, events, EventCount, i);
  }

  /** Fields other than the six named ones are left as they were. */
  lemma WriteFlagsOther(t: Fields, events: Mask, key: Value)
    requires forall i :: 0 <= i < EventCount ==> key != Str(Name(i))
    ensures key in WriteFlags(t, events, EventCount) <==> key in t
    ensures key in t ==> WriteFlags(t, events, EventCount)[key] == t[key]
  {
    WriteFlagsUnnamed(t, events, EventCount, key);
  }

  /** The "events" and "revents" fields in particular are not touched. */
  lemma WriteFlagsKeepsFields(t: Fields, events: Mask)
    ensures GetField(WriteFlags(t, events, EventCount), "events") == GetField(t, "events")
    ensures GetField(WriteFlags(t, events, EventCount), "revents") == GetField(t, "revents")
  {
    forall i | 0 <= i < EventCount
      ensures Str("events") != Str(Name(i)) && Str("revents") != Str(Name(i))
    {
      NamesDistinct(i, i);
    }
    WriteFlagsOther(t, events, Str("events"));
    WriteFlagsOther(t, events, Str("revents"));
  }

  /** A mask within `AllEvents` is determined by its six bits. */
  lemma MaskFromBits(x: Mask, e: Mask)
    requires x & !AllEvents == 0
    requires x & POLLIN != 0 <==> e & POLLIN != 0
    requires x & POLLPRI != 0 <==> e & POLLPRI != 0
    requires x & POLLOUT != 0 <==> e & POLLOUT != 0
    requires x & POLLERR != 0 <==> e & POLLERR != 0
    requires x & POLLHUP != 0 <==> e & POLLHUP != 0
    requires x & POLLNVAL != 0 <==> e & POLLNVAL != 0
    ensures x == e & AllEvents
  {
  }

  lemma RoundTripBit(t: Fields, events: Mask, i: nat)
    requires i < EventCount
    ensures EventsOf(WriteFlags(t, events, EventCount)) & Bit(i) != 0 <==> events & Bit(i) != 0
  {
    EventsOfBit(WriteFlags(t, events, EventCount), i);
    WriteFlagsField(t, events, i);
  }

  /** Writing a mask into a table and reading it back gives the mask, less any bits the map does not name. */
  lemma EventsRoundTrip(t: Fields, events: Mask)
    ensures EventsOf(WriteFlags(t, events, EventCount)) == events & AllEvents
  {
    var x := EventsOf(WriteFlags(t, events, EventCount));
    EventsOfWithin(WriteFlags(t, events, EventCount));
    RoundTripBit(t, events, 0);
    RoundTripBit(t, events, 1);
    RoundTripBit(t, events, 2);
    RoundTripBit(t, events, 3);
    RoundTripBit(t, events, 4);
    RoundTripBit(t, events, 5);
    assert Bit(0) == POLLIN && Bit(1) == POLLPRI && Bit(2) == POLLOUT;
    assert Bit(3) == POLLERR && Bit(4) == POLLHUP && Bit(5) == POLLNVAL;
    MaskFromBits(x, events);
  }

  /** The heap after `tk_system_poll_events_to_table(L, q, events)`. */
  function FlagsIn(h: Heap, q: Ref, events: Mask): (h': Heap)
    ensures h'.tables.Keys == h.tables.Keys && h'.next == h.next
  {
    if q in h.tables then h.(tables := h.tables[q := WriteFlags(h.tables[q], events, EventCount)]) else h
  }

  /** The heap after the first `k` `lua_setfield` calls of `tk_system_poll_events_to_table(L, q, events)`. */
  function FlagsUpTo(h: Heap, q: Ref, events: Mask, k: nat): Heap
    requires q in h.tables && k <= EventCount
  {
    h.(tables := h.tables[q := WriteFlags(h.tables[q], events, k)])
  }

  lemma FlagsUpToStep(h: Heap, q: Ref, events: Mask, i: nat)
    requires q in h.tables && i < EventCount
    ensures q in FlagsUpTo(h, q, events, i).tables
    ensures SetFieldIn(FlagsUpTo(h, q, events, i), q, Name(i), Boolean(HasBit(events, i))) == FlagsUpTo(h, q, events, i + 1)
  {
  }

  /**
   * `tk_system_poll_events_to_table(L, q, events)`: one `lua_setfield` per map
   * entry, storing whether that entry's bit is set.
   */
  method EventsToTable(L: LuaState, q: Ref, events: Mask)
    requires L.Valid() && q in L.heap.tables
    modifies L
    ensures L.Valid()
    ensures L.heap == FlagsIn(old(L.heap), q, events)
  {
    var i := 0;
    while i < EventCount
      invariant 0 <= i <= EventCount
      invariant L.Valid()
      invariant L.heap == FlagsUpTo(old(L.heap), q, events, i)
    {
      FlagsUpToStep(old(L.heap), q, events, i);
      L.SetFieldOf(q, Name(i), Boolean(HasBit(events, i)));
      i := i + 1;
    }
  }
}
