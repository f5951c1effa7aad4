/**
 * `tk_system_poll`, the Lua binding of `poll(2)`, with the argument helpers
 * it uses. Its first argument maps descriptors to tables
 * `{ events = { IN = true, ... }, revents = ... }`. The call checks every
 * entry, builds the `struct pollfd` array, calls `poll`, and when some
 * descriptor is ready writes each entry's `revents` back into its table.
 *
 * The order `lua_next` visits the entries in is an input (`order`). It is
 * taken to be the same in the three traversals; `PollKeepsFdTable` states
 * when that is exact. The kernel's answer is an input too: the return value, the
 * `revents` it stores, and `errno` with its description.
 */
module Poll {
  import opened Lua
  import opened Decimal
  import opened PollEvents

  /** `struct pollfd`. */
  datatype PollFd = PollFd(fd: int, events: Mask, revents: Mask)

  /**
   * `tk_system_expectoptinteger(L, narg, def, expected)`. An absent or nil
   * argument gives `def` and a number gives its value. Anything else raises
   * "<expected> expected, got <type>" against that argument.
   */
  function ExpectOptInteger(args: seq<Value>, narg: nat, def: int, expected: string): (r: Result<int>)
    ensures r.Ok? <==> NoneOrNil(args, narg) || args[narg - 1].Number?
    ensures r.Ok? ==> r.value == (if NoneOrNil(args, narg) then def else args[narg - 1].n)
    ensures r.Err? ==> r.error == ArgError(narg, expected + " expected, got " + TypeName(args[narg - 1]))
  {
    if NoneOrNil(args, narg) then Ok(def)
    else if args[narg - 1].Number? then Ok(args[narg - 1].n)
    else Err(ArgError(narg, expected + " expected, got " + TypeName(args[narg - 1])))
  }

  /** `tk_system_optint(L, narg, def)`: the integer narrowed to a C `int`. */
  function OptInt(args: seq<Value>, narg: nat, def: int): (r: Result<int>)
    ensures r.Ok? ==> -0x8000_0000 <= r.value < 0x8000_0000
    ensures r.Ok? <==> ExpectOptInteger(args, narg, def, "integer or nil").Ok?
    ensures r.Ok? ==> r.value == ToCInt(ExpectOptInteger(args, narg, def, "integer or nil").value)
    ensures r.Err? ==> r.error == ExpectOptInteger(args, narg, def, "integer or nil").error
  {
    match ExpectOptInteger(args, narg, def, "integer or nil")
    case Ok(n) => Ok(ToCInt(n))
    case Err(e) => Err(e)
  }

  /** A timeout that is left out or nil is -1, and one that fits a C `int` is passed as given. */
  lemma TimeoutArgument(args: seq<Value>)
    ensures NoneOrNil(args, 2) ==> OptInt(args, 2, -1) == Ok(-1)
    ensures 2 <= |args| && args[1].Number? && -0x8000_0000 <= args[1].n < 0x8000_0000 ==>
              OptInt(args, 2, -1) == Ok(args[1].n)
  {
    if 2 <= |args| && args[1].Number? && -0x8000_0000 <= args[1].n < 0x8000_0000 {
      ToCIntInRange(args[1].n);
    }
    ToCIntInRange(-1);
  }

  /** The message of `tk_system_checknargs`. */
  function NargsMessage(maxargs: int, nargs: int): string
  {
    "no more than " + IntToString(maxargs) + " argument" + (if maxargs == 1 then "" else "s")
      + " expected, got " + IntToString(nargs)
  }

  /** `tk_system_checknargs(L, maxargs)`: more than `maxargs` arguments is an error against argument `maxargs + 1`. */
  function CheckNargs(nargs: nat, maxargs: int): (e: Option<Error>)
    ensures e.None? <==> nargs <= maxargs
    ensures e.Some? ==> e.value == ArgError(maxargs + 1, NargsMessage(maxargs, nargs))
  {
    if nargs <= maxargs then None else Some(ArgError(maxargs + 1, NargsMessage(maxargs, nargs)))
  }

  /** What `poll` with three arguments is told. */
  lemma PollNargsMessage()
    ensures CheckNargs(3, 2) == Some(ArgError(3, "no more than 2 arguments expected, got 3"))
  {
    assert NatToString(2) == [DigitChar(2)] && DigitChar(2) == '2';
    assert NatToString(3) == [DigitChar(3)] && DigitChar(3) == '3';
    assert IntToString(2) == "2" && IntToString(3) == "3";
    // the concatenation, one piece at a time
    var m := "no more than " + "2";
    assert m == "no more than 2";
    m := m + " argument" + "s";
    assert m == "no more than 2 arguments";
    m := m + " expected, got ";
    assert m == "no more than 2 arguments expected, got ";
    assert NargsMessage(2, 3) == m + "3" == "no more than 2 arguments expected, got 3";
  }

  /** With a limit of one argument the noun is singular. */
  lemma SingularNargsMessage()
    ensures CheckNargs(2, 1) == Some(ArgError(2, "no more than 1 argument expected, got 2"))
  {
    assert NatToString(1) == [DigitChar(1)] && DigitChar(1) == '1';
    assert NatToString(2) == [DigitChar(2)] && DigitChar(2) == '2';
    assert IntToString(1) == "1" && IntToString(2) == "2";
    var m := "no more than " + "1";
    assert m == "no more than 1";
    m := m + " argument" + "";
    assert m == "no more than 1 argument";
    m := m + " expected, got ";
    assert m == "no more than 1 argument expected, got ";
    assert NargsMessage(1, 2) == m + "2" == "no more than 1 argument expected, got 2";
  }

  /**
   * `tk_system_pusherror(L, info)`: nil, the description of `errno` (after
   * "<info>: " when `info` is given), and `errno`.
   */
  function PushError(info: Option<string>, errno: int, description: string): (r: seq<Value>)
    ensures |r| == 3 && r[0] == Nil && r[2] == Number(errno)
    ensures r[1] == Str(if info.None? then description else info.value + ": " + description)
  {
    [Nil, Str(if info.None? then description else info.value + ": " + description), Number(errno)]
  }

  /** `tk_system_pushresult(L, i, info)`: -1 is reported as an error, anything else as the integer. */
  function PushResult(i: int, info: Option<string>, errno: int, description: string): (r: seq<Value>)
    ensures i == -1 ==> r == PushError(info, errno, description)
    ensures i != -1 ==> r == [Number(i)]
  {
    if i == -1 then PushError(info, errno, description) else [Number(i)]
  }

  /** The results are a failure triple exactly when the call returned -1. */
  lemma PushResultShape(i: int, info: Option<string>, errno: int, description: string)
    ensures PushResult(i, info, errno, description)[0].Nil? <==> i == -1
    ensures |PushResult(i, info, errno, description)| == (if i == -1 then 3 else 1)
  {
  }

  /** `lua_istable` of a live value. */
  predicate IsTableIn(h: Heap, v: Value)
  {
    v.Table? && v.ref in h.tables
  }

  /** The fields of a table value (no fields for anything else). */
  function TableOf(h: Heap, v: Value): Fields
  {
    if IsTableIn(h, v) then h.tables[v.ref] else map[]
  }

  /** The value stored under a key (nil when absent). */
  function ValueAt(t: Fields, k: Value): Value
  {
    if k in t then t[k] else Nil
  }

  /** `lua_next` visits every key of `t` exactly once, in the order `order`. */
  ghost predicate IsTraversal(t: Fields, order: seq<Value>)
  {
    && (forall i, j :: 0 <= i < j < |order| ==> order[i] != order[j])
    && (forall k :: k in t <==> k in order)
  }

  lemma {:induction false} DistinctCard(s: seq<Value>)
    requires forall i, j :: 0 <= i < j < |s| ==> s[i] != s[j]
    ensures |set k | k in s| == |s|
  {
    if |s| > 0 {
      var s' := s[..|s| - 1];
      DistinctCard(s');
      var last := s[|s| - 1];
      assert (set k | k in s) == (set k | k in s') + {last} by {
        forall k | k in s ensures k in s' || k == last {
          var i :| 0 <= i < |s| && s[i] == k;
          if i < |s| - 1 { assert s'[i] == k; }
        }
      }
      assert forall i :: 0 <= i < |s'| ==> s'[i] == s[i] && s[i] != last;
    }
  }

  /** The number of `lua_next` steps is the number of entries in the table. */
  lemma TraversalCount(t: Fields, order: seq<Value>)
    requires IsTraversal(t, order)
    ensures |order| == |t|
  {
    DistinctCard(order);
    assert t.Keys == set k | k in order;
  }

  /** What `tk_system_poll_fd_list_check_table` demands of one entry's value, and the message it gives. */
  function EntryProblem(h: Heap, v: Value): Option<string>
  {
    if !IsTableIn(h, v) then Some("contains non-table value(s)")
    else if !IsTableIn(h, GetField(TableOf(h, v), "events")) then Some("contains invalid value table(s)")
    else
      var rev := GetField(TableOf(h, v), "revents");
      if !(rev.Nil? || IsTableIn(h, rev)) then Some("contains invalid value table(s)") else None
  }

  /** The problem of the first entry, from position `i` of the traversal on, that has one. */
  function FirstProblem(h: Heap, t: Fields, order: seq<Value>, i: nat): Option<string>
    decreases |order| - i
  {
    if i >= |order| then None
    else
      match EntryProblem(h, ValueAt(t, order[i]))
      case Some(m) => Some(m)
      case None => FirstProblem(h, t, order, i + 1)
  }

  /** No problem is found exactly when no entry has one; a problem found is that of the first entry that has one. */
  lemma {:induction false} FirstProblemSpec(h: Heap, t: Fields, order: seq<Value>, i: nat)
    ensures FirstProblem(h, t, order, i).None? <==>
              forall j :: i <= j < |order| ==> EntryProblem(h, ValueAt(t, order[j])).None?
    ensures FirstProblem(h, t, order, i).Some? ==>
              exists j :: i <= j < |order|
                && EntryProblem(h, ValueAt(t, order[j])) == FirstProblem(h, t, order, i)
                && forall l :: i <= l < j ==> EntryProblem(h, ValueAt(t, order[l])).None?
    decreases |order| - i
  {
    if i < |order| {
      FirstProblemSpec(h, t, order, i + 1);
      if EntryProblem(h, ValueAt(t, order[i])).None? && FirstProblem(h, t, order, i).Some? {
        var j :| i + 1 <= j < |order|
          && EntryProblem(h, ValueAt(t, order[j])) == FirstProblem(h, t, order, i + 1)
          && forall l :: i + 1 <= l < j ==> EntryProblem(h, ValueAt(t, order[l])).None?;
        assert forall l :: i <= l < j ==> EntryProblem(h, ValueAt(t, order[l])).None?;
      }
    }
  }

  /** The outcome of `tk_system_poll_fd_list_check_table(L, 1)`: the number of entries, or the error raised. */
  function FdTableCheck(h: Heap, args: seq<Value>, order: seq<Value>): Result<nat>
  {
    if !(1 <= |args| && IsTableIn(h, args[0])) then
      Err(ArgError(1, "table expected, got " + ArgTypeName(args, 1)))
    else
      match FirstProblem(h, TableOf(h, args[0]), order, 0)
      case Some(m) => Err(ArgError(1, m))
      case None => Ok(|order|)
  }

  /** The check passes exactly when argument 1 is a table all of whose entries are well formed, and it counts them. */
  lemma FdTableCheckOk(h: Heap, args: seq<Value>, order: seq<Value>)
    requires 1 <= |args| && IsTableIn(h, args[0]) ==> IsTraversal(TableOf(h, args[0]), order)
    ensures FdTableCheck(h, args, order).Ok? <==>
              1 <= |args| && IsTableIn(h, args[0]) &&
              forall k :: k in TableOf(h, args[0]) ==> EntryProblem(h, TableOf(h, args[0])[k]).None?
    ensures FdTableCheck(h, args, order).Ok? ==> FdTableCheck(h, args, order).value == |TableOf(h, args[0])|
  {
    if 1 <= |args| && IsTableIn(h, args[0]) {
      var t := TableOf(h, args[0]);
      FirstProblemSpec(h, t, order, 0);
      TraversalCount(t, order);
      if FdTableCheck(h, args, order).Ok? {
        forall k | k in t ensures EntryProblem(h, t[k]).None? {
          var j :| 0 <= j < |order| && order[j] == k;
          assert ValueAt(t, order[j]) == t[k];
        }
      } else {
        var j :| 0 <= j < |order| && EntryProblem(h, ValueAt(t, order[j])).Some?;
        assert order[j] in t;
      }
    }
  }

  /** `tk_system_poll_fd_list_check_table(L, 1)`: the `lua_next` loop over argument 1. */
  method CheckFdTable(L: LuaState, args: seq<Value>, order: seq<Value>) returns (r: Result<nat>)
    ensures r == FdTableCheck(L.heap, args, order)
  {
    if !(1 <= |args| && IsTableIn(L.heap, args[0])) {
      return Err(ArgError(1, "table expected, got " + ArgTypeName(args, 1)));
    }
    var t := TableOf(L.heap, args[0]);
    var fdNum := 0;
    while fdNum < |order|
      invariant 0 <= fdNum <= |order|
      invariant FirstProblem(L.heap, t, order, 0) == FirstProblem(L.heap, t, order, fdNum)
    {
      var problem := EntryProblem(L.heap, ValueAt(t, order[fdNum]));
      if problem.Some? {
        return Err(ArgError(1, problem.value));
      }
      fdNum := fdNum + 1;
    }
    r := Ok(fdNum);
  }

  /**
   * `lua_tointeger` of a key, stored in the `int` field `fd`. A key that is
   * not a number gives 0 here; a numeric string such as "3" would be
   * converted by `lua_tointeger`, which is not modelled.
   */
  function FdOfKey(k: Value): (fd: int)
    ensures -0x8000_0000 <= fd < 0x8000_0000
  {
    if k.Number? then ToCInt(k.n) else 0
  }

  /** The mask an entry's "events" table asks for. */
  function EntryEvents(h: Heap, v: Value): Mask
  {
    EventsOf(TableOf(h, GetField(TableOf(h, v), "events")))
  }

  /**
   * `tk_system_poll_fd_list_from_table(L, 1, fd_list)`: slot `j` gets the
   * descriptor of the `j`-th entry and the mask of its "events" table. The
   * `revents` fields are not written.
   */
  method FdListFromTable(L: LuaState, t: Fields, order: seq<Value>, fdList: array<PollFd>)
    requires forall j :: 0 <= j < |order| ==> EntryProblem(L.heap, ValueAt(t, order[j])).None?
    requires |order| <= fdList.Length
    modifies fdList
    ensures forall j :: 0 <= j < |order| ==>
              fdList[j] == old(fdList[j]).(fd := FdOfKey(order[j]), events := EntryEvents(L.heap, ValueAt(t, order[j])))
    ensures forall j :: |order| <= j < fdList.Length ==> fdList[j] == old(fdList[j])
  {
    var i := 0;
    while i < |order|
      invariant 0 <= i <= |order|
      invariant forall j :: 0 <= j < i ==>
                  fdList[j] == old(fdList[j]).(fd := FdOfKey(order[j]), events := EntryEvents(L.heap, ValueAt(t, order[j])))
      invariant forall j :: i <= j < fdList.Length ==> fdList[j] == old(fdList[j])
    {
      var v := ValueAt(t, order[i]);
      var eventsTable := GetField(TableOf(L.heap, v), "events");
      var events := EventsFromTable(L, eventsTable.ref);
      fdList[i] := fdList[i].(fd := FdOfKey(order[i]), events := events);
      i := i + 1;
    }
  }

  /**
   * `poll(fd_list, nfds, timeout)` as far as the array is concerned: the
   * kernel stores `revents` in the first `nfds` slots.
   */
  method SysPoll(fdList: array<PollFd>, nfds: nat, revents: seq<Mask>)
    requires nfds <= fdList.Length && |revents| == nfds
    modifies fdList
    ensures forall j :: 0 <= j < nfds ==> fdList[j] == old(fdList[j]).(revents := revents[j])
    ensures forall j :: nfds <= j < fdList.Length ==> fdList[j] == old(fdList[j])
  {
    var i := 0;
    while i < nfds
      invariant 0 <= i <= nfds
      invariant forall j :: 0 <= j < i ==> fdList[j] == old(fdList[j]).(revents := revents[j])
      invariant forall j :: i <= j < fdList.Length ==> fdList[j] == old(fdList[j])
    {
      fdList[i] := fdList[i].(revents := revents[i]);
      i := i + 1;
    }
  }

  /** The "revents" field of table `vr` (nil when there is no such table). */
  function RevField(h: Heap, vr: Ref): Value
  {
    if vr in h.tables then GetField(h.tables[vr], "revents") else Nil
  }

  /** Table `vr` exists and its "revents" field is nil or a table. */
  predicate ReventsSlotOk(h: Heap, vr: Ref)
  {
    vr in h.tables && (RevField(h, vr).Nil? || IsTableIn(h, RevField(h, vr)))
  }

  /** The table the flags of entry `vr` are written into: its "revents" table, or the one created for it. */
  function Target(h: Heap, vr: Ref): Ref
  {
    if RevField(h, vr).Table? then RevField(h, vr).ref else h.next
  }

  /**
   * One iteration of `tk_system_poll_fd_list_to_table` for the entry whose
   * value is table `vr`: a nil "revents" field is replaced by a new table,
   * then the flags of `revents` are written into that table.
   */
  function WriteReventsStep(h: Heap, vr: Ref, revents: Mask): Heap
  {
    if vr !in h.tables then h
    else
      var f := RevField(h, vr);
      if f.Nil? then
        var h1 := NewTable(h);
        FlagsIn(SetFieldIn(h1, vr, "revents", Table(h.next)), h.next, revents)
      else if f.Table? then FlagsIn(h, f.ref, revents)
      else h
  }

  /** The whole write-back: one step per entry, in traversal order. */
  function WriteBack(h: Heap, vals: seq<Ref>, revs: seq<Mask>): Heap
    requires |vals| == |revs|
  {
    if |vals| == 0 then h
    else WriteReventsStep(WriteBack(h, vals[..|vals| - 1], revs[..|revs| - 1]), vals[|vals| - 1], revs[|revs| - 1])
  }

  /** The entry `vr` reports `revents`: its "revents" field is a table whose six flags are the bits of `revents`. */
  predicate Reported(h: Heap, vr: Ref, revents: Mask)
  {
    vr in h.tables && IsTableIn(h, RevField(h, vr)) &&
    forall k :: 0 <= k < EventCount ==> GetField(h.tables[RevField(h, vr).ref], Name(k)) == Boolean(HasBit(revents, k))
  }

  lemma FlagsInEffect(h: Heap, q: Ref, events: Mask)
    requires q in h.tables
    ensures forall k :: 0 <= k < EventCount ==> GetField(FlagsIn(h, q, events).tables[q], Name(k)) == Boolean(HasBit(events, k))
    ensures forall p :: p in h.tables ==>
              GetField(FlagsIn(h, q, events).tables[p], "events") == GetField(h.tables[p], "events") &&
              GetField(FlagsIn(h, q, events).tables[p], "revents") == GetField(h.tables[p], "revents")
    ensures forall p :: p in h.tables && p != q ==> FlagsIn(h, q, events).tables[p] == h.tables[p]
  {
    forall k | 0 <= k < EventCount
      ensures GetField(FlagsIn(h, q, events).tables[q], Name(k)) == Boolean(HasBit(events, k))
    {
      WriteFlagsField(h.tables[q], events, k);
    }
    WriteFlagsKeepsFields(h.tables[q], events);
  }

  /** The "events" field of table `vr` (nil when there is no such table). */
  function EventsField(h: Heap, vr: Ref): Value
  {
    if vr in h.tables then GetField(h.tables[vr], "events") else Nil
  }

  /** Every table is numbered below `next`. */
  predicate Numbered(h: Heap)
  {
    forall q :: q in h.tables ==> q < h.next
  }

  /** A step adds at most the one new table, and keeps every "revents" field that was nil or a table so. */
  lemma StepShape(h: Heap, vr: Ref, e: Mask)
    requires ReventsSlotOk(h, vr) && Numbered(h)
    ensures var h' := WriteReventsStep(h, vr, e);
      && h'.tables.Keys == h.tables.Keys + (if RevField(h, vr).Nil? then {h.next} else {})
      && h'.next == (if RevField(h, vr).Nil? then h.next + 1 else h.next)
      && Numbered(h')
      && forall w :: ReventsSlotOk(h, w) ==> ReventsSlotOk(h', w)
  {
    var h' := WriteReventsStep(h, vr, e);
    if RevField(h, vr).Nil? {
      var h2 := SetFieldIn(NewTable(h), vr, "revents", Table(h.next));
      FlagsInEffect(h2, h.next, e);
    } else {
      FlagsInEffect(h, RevField(h, vr).ref, e);
    }
  }

  /** After its step the entry reports its mask into its target table and keeps its "events" field. */
  lemma StepOwn(h: Heap, vr: Ref, e: Mask)
    requires ReventsSlotOk(h, vr) && h.next !in h.tables
    ensures var h' := WriteReventsStep(h, vr, e);
      && Reported(h', vr, e)
      && RevField(h', vr) == Table(Target(h, vr))
      && EventsField(h', vr) == EventsField(h, vr)
  {
    if RevField(h, vr).Nil? {
      var h2 := SetFieldIn(NewTable(h), vr, "revents", Table(h.next));
      FlagsInEffect(h2, h.next, e);
    } else {
      FlagsInEffect(h, RevField(h, vr).ref, e);
    }
  }

  /** A step changes no table but the entry's own and its target. */
  lemma StepOthers(h: Heap, vr: Ref, e: Mask)
    requires ReventsSlotOk(h, vr) && h.next !in h.tables
    ensures forall q :: q in h.tables && q != vr && q != Target(h, vr) ==> WriteReventsStep(h, vr, e).tables[q] == h.tables[q]
  {
    if RevField(h, vr).Nil? {
      var h2 := SetFieldIn(NewTable(h), vr, "revents", Table(h.next));
      FlagsInEffect(h2, h.next, e);
    } else {
      FlagsInEffect(h, RevField(h, vr).ref, e);
    }
  }

  /** No two entries share their table or their "revents" table, and no "revents" table is also an entry's table. */
  predicate Unshared(h: Heap, vals: seq<Ref>)
  {
    && (forall i, j :: 0 <= i < j < |vals| ==> vals[i] != vals[j])
    && (forall i, j :: 0 <= i < |vals| && 0 <= j < |vals| && RevField(h, vals[i]).Table? ==> RevField(h, vals[i]).ref != vals[j])
    && (forall i, j :: 0 <= i < j < |vals| && RevField(h, vals[i]).Table? && RevField(h, vals[j]).Table? ==>
          RevField(h, vals[i]).ref != RevField(h, vals[j]).ref)
  }

  /** A table that is neither an entry's table nor an entry's "revents" table. */
  predicate Untouched(h: Heap, vals: seq<Ref>, q: Ref)
  {
    q in h.tables && q !in vals && forall i :: 0 <= i < |vals| ==> RevField(h, vals[i]) != Table(q)
  }

  lemma UnsharedPrefix(h: Heap, vals: seq<Ref>)
    requires |vals| > 0 && Unshared(h, vals) && vals[|vals| - 1] in h.tables
    ensures Unshared(h, vals[..|vals| - 1])
    ensures Untouched(h, vals[..|vals| - 1], vals[|vals| - 1])
  {
    var n := |vals| - 1;
    var pre := vals[..n];
    assert forall i :: 0 <= i < n ==> pre[i] == vals[i];
    forall i | 0 <= i < n ensures RevField(h, pre[i]) != Table(vals[n]) {
      assert RevField(h, vals[i]).Table? ==> RevField(h, vals[i]).ref != vals[n];
    }
    assert vals[n] !in pre by {
      assert forall i :: 0 <= i < n ==> pre[i] != vals[n];
    }
  }

  /** `h` has every table of `h0`, new tables only at or above `h0.next`, and every "revents" field `h0` had nil or a table so. */
  ghost predicate Grows(h0: Heap, h: Heap)
  {
    && h.next >= h0.next && Numbered(h)
    && (forall q :: q in h.tables ==> q in h0.tables || h0.next <= q < h.next)
    && (forall q :: q in h0.tables ==> q in h.tables)
    && (forall w :: ReventsSlotOk(h0, w) ==> ReventsSlotOk(h, w))
  }

  lemma GrowsTransitive(a: Heap, b: Heap, c: Heap)
    requires Grows(a, b) && Grows(b, c)
    ensures Grows(a, c)
  {
  }

  lemma StepGrows(h: Heap, vr: Ref, e: Mask)
    requires ReventsSlotOk(h, vr) && Numbered(h)
    ensures Grows(h, WriteReventsStep(h, vr, e))
  {
    StepShape(h, vr, e);
  }

  /** The write-back only adds tables, numbered from the old `next`, and keeps every entry's "revents" field nil or a table. */
  lemma {:induction false} WriteBackGrows(h0: Heap, vals: seq<Ref>, revs: seq<Mask>)
    requires Numbered(h0) && |vals| == |revs|
    requires forall i :: 0 <= i < |vals| ==> ReventsSlotOk(h0, vals[i])
    ensures Grows(h0, WriteBack(h0, vals, revs))
    decreases |vals|
  {
    if |vals| > 0 {
      var n := |vals| - 1;
      assert forall i :: 0 <= i < n ==> vals[..n][i] == vals[i];
      WriteBackGrows(h0, vals[..n], revs[..n]);
      var hk := WriteBack(h0, vals[..n], revs[..n]);
      assert ReventsSlotOk(hk, vals[n]);
      StepGrows(hk, vals[n], revs[n]);
      GrowsTransitive(h0, hk, WriteBack(h0, vals, revs));
    }
  }

  /** Tables that are neither entries nor their "revents" tables are not changed. */
  lemma {:induction false} WriteBackFrameAt(h0: Heap, vals: seq<Ref>, revs: seq<Mask>, q: Ref)
    requires Numbered(h0) && |vals| == |revs|
    requires forall i :: 0 <= i < |vals| ==> ReventsSlotOk(h0, vals[i])
    requires Unshared(h0, vals)
    requires Untouched(h0, vals, q)
    ensures q in WriteBack(h0, vals, revs).tables && WriteBack(h0, vals, revs).tables[q] == h0.tables[q]
    decreases |vals|, 1
  {
    if |vals| > 0 {
      var n := |vals| - 1;
      var v := vals[n];
      var hk := WriteBack(h0, vals[..n], revs[..n]);
      WriteBackPrefix(h0, vals, revs, n);
      assert Untouched(h0, vals[..n], q) by {
        assert forall i :: 0 <= i < n ==> vals[..n][i] == vals[i];
      }
      WriteBackFrameAt(h0, vals[..n], revs[..n], q);
      assert RevField(h0, vals[n]) != Table(q);
      FrameStep(hk, v, revs[n], q);
    }
  }

  /**
   * The write-back of all but the last entry: its entries are still unshared
   * and well formed, it only grows the heap, and it leaves the last entry's
   * table as it was.
   */
  lemma {:induction false} WriteBackPrefix(h0: Heap, vals: seq<Ref>, revs: seq<Mask>, n: nat)
    requires Numbered(h0) && n + 1 == |vals| == |revs|
    requires forall i :: 0 <= i < |vals| ==> ReventsSlotOk(h0, vals[i])
    requires Unshared(h0, vals)
    ensures Unshared(h0, vals[..n])
    ensures forall i :: 0 <= i < n ==> ReventsSlotOk(h0, vals[..n][i])
    ensures Grows(h0, WriteBack(h0, vals[..n], revs[..n]))
    ensures vals[n] in WriteBack(h0, vals[..n], revs[..n]).tables
    ensures WriteBack(h0, vals[..n], revs[..n]).tables[vals[n]] == h0.tables[vals[n]]
    decreases |vals|, 0
  {
    var pre := vals[..n];
    assert forall i :: 0 <= i < n ==> pre[i] == vals[i];
    UnsharedPrefix(h0, vals);
    WriteBackGrows(h0, pre, revs[..n]);
    WriteBackFrameAt(h0, pre, revs[..n], vals[n]);
  }

  /**
   * One step leaves a table alone that is not the entry's "revents" table,
   * nor the entry's own table when its "revents" field is nil.
   */
  lemma FrameStep(h: Heap, v: Ref, e: Mask, q: Ref)
    requires ReventsSlotOk(h, v) && Numbered(h)
    requires q in h.tables && (q != v || RevField(h, v).Table?) && RevField(h, v) != Table(q)
    ensures q in WriteReventsStep(h, v, e).tables && WriteReventsStep(h, v, e).tables[q] == h.tables[q]
  {
    StepShape(h, v, e);
    if RevField(h, v).Table? {
      FlagsInEffect(h, RevField(h, v).ref, e);
    } else {
      StepOthers(h, v, e);
    }
  }

  lemma WriteBackFrame(h0: Heap, vals: seq<Ref>, revs: seq<Mask>)
    requires Numbered(h0) && |vals| == |revs|
    requires forall i :: 0 <= i < |vals| ==> ReventsSlotOk(h0, vals[i])
    requires Unshared(h0, vals)
    ensures forall q :: Untouched(h0, vals, q) ==>
              q in WriteBack(h0, vals, revs).tables && WriteBack(h0, vals, revs).tables[q] == h0.tables[q]
  {
    forall q | Untouched(h0, vals, q)
      ensures q in WriteBack(h0, vals, revs).tables && WriteBack(h0, vals, revs).tables[q] == h0.tables[q]
    {
      WriteBackFrameAt(h0, vals, revs, q);
    }
  }

  /** A step for entry `v` leaves an entry `w` that already reports alone, when neither of `w`'s tables is touched by it. */
  lemma StepKeepsEarlier(h: Heap, v: Ref, e: Mask, w: Ref, ew: Mask)
    requires ReventsSlotOk(h, v) && Numbered(h)
    requires Reported(h, w, ew)
    requires w != v && w != Target(h, v)
    requires RevField(h, w).ref != v && RevField(h, w).ref != Target(h, v)
    ensures var h' := WriteReventsStep(h, v, e);
      && Reported(h', w, ew)
      && EventsField(h', w) == EventsField(h, w)
      && RevField(h', w) == RevField(h, w)
  {
    StepOthers(h, v, e);
    StepShape(h, v, e);
  }

  /** What the write-back leaves for the entry at position `i`. */
  predicate ReportsAt(h0: Heap, h: Heap, vals: seq<Ref>, revs: seq<Mask>, i: nat)
    requires i < |vals| == |revs|
  {
    && Reported(h, vals[i], revs[i])
    && EventsField(h, vals[i]) == EventsField(h0, vals[i])
    && (RevField(h0, vals[i]).Table? ==> RevField(h, vals[i]) == RevField(h0, vals[i]))
    && (RevField(h0, vals[i]).Nil? ==> RevField(h, vals[i]).ref >= h0.next)
  }

  lemma {:induction false} WriteBackReportsAt(h0: Heap, vals: seq<Ref>, revs: seq<Mask>, i: nat)
    requires Numbered(h0) && i < |vals| == |revs|
    requires forall j :: 0 <= j < |vals| ==> ReventsSlotOk(h0, vals[j])
    requires Unshared(h0, vals)
    ensures ReportsAt(h0, WriteBack(h0, vals, revs), vals, revs, i)
    decreases |vals|, 1
  {
    if i == |vals| - 1 {
      WriteBackReportsLast(h0, vals, revs);
    } else {
      WriteBackReportsEarlier(h0, vals, revs, i);
    }
  }

  /** The last entry reports once its own step is done. */
  lemma WriteBackReportsLast(h0: Heap, vals: seq<Ref>, revs: seq<Mask>)
    requires Numbered(h0) && 0 < |vals| == |revs|
    requires forall j :: 0 <= j < |vals| ==> ReventsSlotOk(h0, vals[j])
    requires Unshared(h0, vals)
    ensures ReportsAt(h0, WriteBack(h0, vals, revs), vals, revs, |vals| - 1)
  {
    var n := |vals| - 1;
    var v := vals[n];
    var hk := WriteBack(h0, vals[..n], revs[..n]);
    WriteBackPrefix(h0, vals, revs, n);
    assert hk.next !in hk.tables && hk.next >= h0.next;
    assert RevField(hk, v) == RevField(h0, v) && EventsField(hk, v) == EventsField(h0, v);
    StepOwn(hk, v, revs[n]);
    assert WriteBack(h0, vals, revs) == WriteReventsStep(hk, v, revs[n]);
  }

  /** An earlier entry keeps reporting through the last entry's step. */
  lemma {:induction false} WriteBackReportsEarlier(h0: Heap, vals: seq<Ref>, revs: seq<Mask>, i: nat)
    requires Numbered(h0) && i < |vals| - 1 && |vals| == |revs|
    requires forall j :: 0 <= j < |vals| ==> ReventsSlotOk(h0, vals[j])
    requires Unshared(h0, vals)
    ensures ReportsAt(h0, WriteBack(h0, vals, revs), vals, revs, i)
    decreases |vals|, 0
  {
    var n := |vals| - 1;
    var v := vals[n];
    var w := vals[i];
    var hk := WriteBack(h0, vals[..n], revs[..n]);
    WriteBackPrefix(h0, vals, revs, n);
    WriteBackReportsAt(h0, vals[..n], revs[..n], i);
    assert vals[..n][i] == w && revs[..n][i] == revs[i];
    assert RevField(h0, w).Table? ==> RevField(h0, vals[i]).ref != vals[n];
    assert RevField(h0, v).Table? ==> RevField(h0, vals[n]).ref != vals[i];
    assert RevField(h0, w).Table? && RevField(h0, v).Table? ==> RevField(h0, vals[i]).ref != RevField(h0, vals[n]).ref;
    ReportsStep(h0, hk, v, revs[n], w, revs[i]);
  }

  /**
   * The step for entry `v` keeps what the write-back so far (`hk`) left for an
   * earlier entry `w`, when the two share no table.
   */
  lemma ReportsStep(h0: Heap, hk: Heap, v: Ref, e: Mask, w: Ref, ew: Mask)
    requires Numbered(h0) && Grows(h0, hk)
    requires ReventsSlotOk(h0, v) && ReventsSlotOk(h0, w) && RevField(hk, v) == RevField(h0, v)
    requires w != v
    requires RevField(h0, w).Table? ==> RevField(h0, w).ref != v
    requires RevField(h0, v).Table? ==> RevField(h0, v).ref != w
    requires RevField(h0, w).Table? && RevField(h0, v).Table? ==> RevField(h0, w).ref != RevField(h0, v).ref
    requires Reported(hk, w, ew) && EventsField(hk, w) == EventsField(h0, w)
    requires RevField(h0, w).Table? ==> RevField(hk, w) == RevField(h0, w)
    requires RevField(h0, w).Nil? ==> RevField(hk, w).ref >= h0.next
    ensures var h := WriteReventsStep(hk, v, e);
      && Reported(h, w, ew) && EventsField(h, w) == EventsField(h0, w)
      && (RevField(h0, w).Table? ==> RevField(h, w) == RevField(h0, w))
      && (RevField(h0, w).Nil? ==> RevField(h, w).ref >= h0.next)
  {
    var r := RevField(hk, w).ref;
    assert v in hk.tables && w in hk.tables && r in hk.tables;
    var tg := Target(hk, v);
    assert r != v;
    if RevField(h0, v).Table? {
      assert tg in h0.tables;
    }
    assert tg != w && tg != r;
    StepKeepsEarlier(hk, v, e, w, ew);
  }

  /**
   * When the entries do not share tables, the write-back leaves every entry
   * reporting its slot's `revents` and keeps every "events" field. An entry
   * that had a "revents" table keeps that table; one that had none gets a new one.
   */
  lemma WriteBackReports(h0: Heap, vals: seq<Ref>, revs: seq<Mask>)
    requires Numbered(h0) && |vals| == |revs|
    requires forall i :: 0 <= i < |vals| ==> ReventsSlotOk(h0, vals[i])
    requires Unshared(h0, vals)
    ensures forall i :: 0 <= i < |vals| ==> ReportsAt(h0, WriteBack(h0, vals, revs), vals, revs, i)
  {
    forall i | 0 <= i < |vals| ensures ReportsAt(h0, WriteBack(h0, vals, revs), vals, revs, i) {
      WriteBackReportsAt(h0, vals, revs, i);
    }
  }

  /**
   * The write-back assigns to table `a`: `a` is the table of an entry whose
   * "revents" is nil (it is given one) or the "revents" table of an entry (it
   * is given the six flags).
   */
  predicate WritesTo(h: Heap, vals: seq<Ref>, a: Ref)
  {
    exists i :: 0 <= i < |vals| && ((vals[i] == a && RevField(h, vals[i]).Nil?) || RevField(h, vals[i]) == Table(a))
  }

  /** What the write-back keeps of an entry's slot and of the numbering, without the rest of `Grows`. */
  lemma WriteBackSlot(h0: Heap, vals: seq<Ref>, revs: seq<Mask>, w: Ref)
    requires Numbered(h0) && |vals| == |revs|
    requires forall i :: 0 <= i < |vals| ==> ReventsSlotOk(h0, vals[i])
    requires ReventsSlotOk(h0, w)
    ensures var h := WriteBack(h0, vals, revs);
            ReventsSlotOk(h, w) && Numbered(h) && h.next >= h0.next && h.next !in h.tables
  {
    WriteBackGrows(h0, vals, revs);
  }

  /** One step changes the "revents" field of its own entry only, and only from nil to the new table. */
  lemma StepRevField(h: Heap, v: Ref, e: Mask, w: Ref)
    requires ReventsSlotOk(h, v) && Numbered(h) && w in h.tables
    ensures RevField(WriteReventsStep(h, v, e), w) ==
              if w == v && RevField(h, v).Nil? then Table(h.next) else RevField(h, w)
  {
    if RevField(h, v).Nil? {
      var h2 := SetFieldIn(NewTable(h), v, "revents", Table(h.next));
      FlagsInEffect(h2, h.next, e);
    } else {
      FlagsInEffect(h, RevField(h, v).ref, e);
    }
  }

  /**
   * Through the write-back an entry's "revents" field either stays what it
   * was or, from nil, becomes a table created by the write-back.
   */
  lemma {:induction false} WriteBackRevField(h0: Heap, vals: seq<Ref>, revs: seq<Mask>, w: Ref)
    requires Numbered(h0) && |vals| == |revs|
    requires forall i :: 0 <= i < |vals| ==> ReventsSlotOk(h0, vals[i])
    requires ReventsSlotOk(h0, w)
    ensures var f := RevField(WriteBack(h0, vals, revs), w);
            f == RevField(h0, w) || (RevField(h0, w).Nil? && f.Table? && f.ref >= h0.next)
    decreases |vals|
  {
    if |vals| > 0 {
      var n := |vals| - 1;
      assert forall i :: 0 <= i < n ==> vals[..n][i] == vals[i];
      WriteBackRevField(h0, vals[..n], revs[..n], w);
      WriteBackSlot(h0, vals[..n], revs[..n], w);
      WriteBackSlot(h0, vals[..n], revs[..n], vals[n]);
      RevFieldLast(h0, vals, revs, w);
    }
  }

  /** The last step of the write-back, seen from the "revents" field of `w`. */
  lemma RevFieldLast(h0: Heap, vals: seq<Ref>, revs: seq<Mask>, w: Ref)
    requires 0 < |vals| == |revs|
    requires var hk := WriteBack(h0, vals[..|vals| - 1], revs[..|revs| - 1]);
      && ReventsSlotOk(hk, vals[|vals| - 1]) && Numbered(hk) && w in hk.tables && hk.next >= h0.next
      && (RevField(hk, w) == RevField(h0, w) || (RevField(h0, w).Nil? && RevField(hk, w).Table? && RevField(hk, w).ref >= h0.next))
    ensures var f := RevField(WriteBack(h0, vals, revs), w);
            f == RevField(h0, w) || (RevField(h0, w).Nil? && f.Table? && f.ref >= h0.next)
  {
    var n := |vals| - 1;
    RevFieldStep(h0, WriteBack(h0, vals[..n], revs[..n]), vals[n], revs[n], w);
  }

  /** The step after a partial write-back `hk` keeps the "revents" field of `w` as the write-back so far left it. */
  lemma RevFieldStep(h0: Heap, hk: Heap, v: Ref, e: Mask, w: Ref)
    requires ReventsSlotOk(hk, v) && Numbered(hk) && w in hk.tables && hk.next >= h0.next
    requires RevField(hk, w) == RevField(h0, w) || (RevField(h0, w).Nil? && RevField(hk, w).Table? && RevField(hk, w).ref >= h0.next)
    ensures var f := RevField(WriteReventsStep(hk, v, e), w);
            f == RevField(h0, w) || (RevField(h0, w).Nil? && f.Table? && f.ref >= h0.next)
  {
    StepRevField(hk, v, e, w);
  }

  /** A table the write-back does not assign to keeps its fields. */
  lemma {:induction false} WriteBackKeeps(h0: Heap, vals: seq<Ref>, revs: seq<Mask>, q: Ref)
    requires Numbered(h0) && |vals| == |revs|
    requires forall i :: 0 <= i < |vals| ==> ReventsSlotOk(h0, vals[i])
    requires q in h0.tables && !WritesTo(h0, vals, q)
    ensures q in WriteBack(h0, vals, revs).tables && WriteBack(h0, vals, revs).tables[q] == h0.tables[q]
    decreases |vals|
  {
    if |vals| > 0 {
      var n := |vals| - 1;
      var v := vals[n];
      assert forall i :: 0 <= i < n ==> vals[..n][i] == vals[i];
      assert !WritesTo(h0, vals[..n], q);
      WriteBackKeeps(h0, vals[..n], revs[..n], q);
      WriteBackSlot(h0, vals[..n], revs[..n], v);
      WriteBackRevField(h0, vals[..n], revs[..n], v);
      var hk := WriteBack(h0, vals[..n], revs[..n]);
      assert q < h0.next;
      if RevField(hk, v).Nil? {
        assert RevField(h0, v).Nil? && v != q;
      }
      KeepsLast(h0, vals, revs, q);
    }
  }

  /** The last step of the write-back, seen from a table it does not assign to. */
  lemma KeepsLast(h0: Heap, vals: seq<Ref>, revs: seq<Mask>, q: Ref)
    requires 0 < |vals| == |revs|
    requires var hk := WriteBack(h0, vals[..|vals| - 1], revs[..|revs| - 1]);
      && ReventsSlotOk(hk, vals[|vals| - 1]) && Numbered(hk)
      && q in hk.tables && q in h0.tables && hk.tables[q] == h0.tables[q]
      && (q != vals[|vals| - 1] || RevField(hk, vals[|vals| - 1]).Table?)
      && RevField(hk, vals[|vals| - 1]) != Table(q)
    ensures q in WriteBack(h0, vals, revs).tables && WriteBack(h0, vals, revs).tables[q] == h0.tables[q]
  {
    var n := |vals| - 1;
    FrameStep(WriteBack(h0, vals[..n], revs[..n]), vals[n], revs[n], q);
  }

  /** The value tables of the entries, in traversal order. */
  function EntryRefs(t: Fields, order: seq<Value>): (vals: seq<Ref>)
    ensures |vals| == |order|
  {
    seq(|order|, j requires 0 <= j < |order| => var v := ValueAt(t, order[j]); if v.Table? then v.ref else 0)
  }

  /** The `revents` of a list of `struct pollfd`. */
  function ReventsOf(fds: seq<PollFd>): (revs: seq<Mask>)
    ensures |revs| == |fds| && forall j :: 0 <= j < |fds| ==> revs[j] == fds[j].revents
  {
    seq(|fds|, j requires 0 <= j < |fds| => fds[j].revents)
  }

  /**
   * `tk_system_poll_fd_list_to_table(L, 1, fd_list)`: for each entry, in
   * traversal order, with `vals` the entries' tables.
   */
  method FdListToTable(L: LuaState, vals: seq<Ref>, fdList: array<PollFd>)
    requires L.Valid() && |vals| <= fdList.Length
    requires forall j :: 0 <= j < |vals| ==> ReventsSlotOk(L.heap, vals[j])
    modifies L
    ensures L.Valid()
    ensures L.heap == WriteBack(old(L.heap), vals, ReventsOf(fdList[..|vals|]))
  {
    ghost var revs := ReventsOf(fdList[..|vals|]);
    var i := 0;
    while i < |vals|
      invariant 0 <= i <= |vals|
      invariant L.Valid()
      invariant forall j :: 0 <= j < |vals| ==> ReventsSlotOk(L.heap, vals[j])
      invariant L.heap == WriteBack(old(L.heap), vals[..i], revs[..i])
    {
      assert revs[i] == fdList[i].revents;
      ghost var h := L.heap;
      WriteEntryRevents(L, vals[i], fdList[i].revents);
      WriteBackNext(old(L.heap), h, vals, revs, i);
      i := i + 1;
    }
    assert vals[..|vals|] == vals && revs[..|vals|] == revs;
  }

  /** The write-back of one entry more is one step more, and it keeps every entry's slot well formed. */
  lemma WriteBackNext(h0: Heap, h: Heap, vals: seq<Ref>, revs: seq<Mask>, i: nat)
    requires i < |vals| == |revs| && Numbered(h)
    requires forall j :: 0 <= j < |vals| ==> ReventsSlotOk(h, vals[j])
    requires h == WriteBack(h0, vals[..i], revs[..i])
    ensures WriteReventsStep(h, vals[i], revs[i]) == WriteBack(h0, vals[..i + 1], revs[..i + 1])
    ensures forall j :: 0 <= j < |vals| ==> ReventsSlotOk(WriteReventsStep(h, vals[i], revs[i]), vals[j])
  {
    StepShape(h, vals[i], revs[i]);
    assert vals[..i + 1][..i] == vals[..i] && revs[..i + 1][..i] == revs[..i];
  }

  /** The body of the `lua_next` loop of `tk_system_poll_fd_list_to_table`, for the entry whose value is table `vr`. */
  method WriteEntryRevents(L: LuaState, vr: Ref, revents: Mask)
    requires L.Valid() && ReventsSlotOk(L.heap, vr)
    modifies L
    ensures L.Valid()
    ensures L.heap == WriteReventsStep(old(L.heap), vr, revents)
  {
    var f := GetField(L.heap.tables[vr], "revents");
    var target: Ref;
    if f.Nil? {
      target := L.CreateTable();
      L.SetFieldOf(vr, "revents", Table(target));
    } else {
      target := f.ref;
    }
    EventsToTable(L, target, revents);
  }

  /** The number of `struct pollfd` slots `tk_system_poll` keeps on its stack. */
  const StaticSlots: nat := 16

  /**
   * The part of `tk_system_poll` after the checks: fill the `struct pollfd`
   * array (the fixed one when it is large enough), let the kernel store the
   * `revents`, and write them back when some descriptor is ready. `fds` is
   * what `poll` was given.
   */
  method PollEntries(L: LuaState, t: Fields, order: seq<Value>, result: int, revents: seq<Mask>)
    returns (fds: seq<PollFd>)
    requires L.Valid() && |revents| == |order|
    requires forall j :: 0 <= j < |order| ==> EntryProblem(L.heap, ValueAt(t, order[j])).None?
    modifies L
    ensures L.Valid()
    ensures |fds| == |order|
    ensures forall j :: 0 <= j < |order| ==>
              fds[j].fd == FdOfKey(order[j]) && fds[j].events == EntryEvents(old(L.heap), ValueAt(t, order[j]))
    ensures L.heap == (if result > 0 then WriteBack(old(L.heap), EntryRefs(t, order), revents) else old(L.heap))
  {
    var fdNum := |order|;
    var fdList := new PollFd[if fdNum <= StaticSlots then StaticSlots else fdNum](_ => PollFd(0, 0, 0));
    FdListFromTable(L, t, order, fdList);
    fds := fdList[..fdNum];
    SysPoll(fdList, fdNum, revents);
    if result > 0 {
      var vals := EntryRefs(t, order);
      forall j | 0 <= j < |vals| ensures ReventsSlotOk(L.heap, vals[j]) {
        assert EntryProblem(L.heap, ValueAt(t, order[j])).None?;
      }
      assert ReventsOf(fdList[..|vals|]) == revents;
      FdListToTable(L, vals, fdList);
    }
  }

  /** The three argument checks of `tk_system_poll`, in the order it makes them; the timeout when all pass. */
  function PollChecks(h: Heap, args: seq<Value>, order: seq<Value>): Result<int>
  {
    match FdTableCheck(h, args, order)
    case Err(e) => Err(e)
    case Ok(_) =>
      match OptInt(args, 2, -1)
      case Err(e) => Err(e)
      case Ok(timeout) =>
        match CheckNargs(|args|, 2)
        case Some(e) => Err(e)
        case None => Ok(timeout)
  }

  /** What `poll` was asked: the descriptors with their masks, and the timeout. */
  datatype PollCall = PollCall(fds: seq<PollFd>, timeout: int)

  /**
   * `tk_system_poll(fds, timeout)`. `result` is what `poll` returns (-1 with
   * `errno` and its description on failure) and `revents` what it stores for
   * each entry.
   */
  method Poll(L: LuaState, args: seq<Value>, order: seq<Value>, result: int, revents: seq<Mask>, errno: int, description: string)
    returns (r: Result<seq<Value>>, call: Option<PollCall>)
    requires L.Valid()
    requires result >= -1 && |revents| == |order|
    modifies L
    ensures L.Valid()
    ensures PollChecks(old(L.heap), args, order).Err? ==>
              r == Err(PollChecks(old(L.heap), args, order).error) && call.None? && L.heap == old(L.heap)
    ensures PollChecks(old(L.heap), args, order).Ok? ==>
              var t := TableOf(old(L.heap), args[0]);
              && r == Ok(PushResult(result, None, errno, description))
              && call.Some? && call.value.timeout == PollChecks(old(L.heap), args, order).value
              && |call.value.fds| == |order|
              && (forall j :: 0 <= j < |order| ==>
                    call.value.fds[j].fd == FdOfKey(order[j]) &&
                    call.value.fds[j].events == EntryEvents(old(L.heap), ValueAt(t, order[j])))
              && L.heap == (if result > 0 then WriteBack(old(L.heap), EntryRefs(t, order), revents) else old(L.heap))
  {
    var checked := CheckFdTable(L, args, order);
    if checked.Err? {
      return Err(checked.error), None;
    }
    var timeout := OptInt(args, 2, -1);
    if timeout.Err? {
      return Err(timeout.error), None;
    }
    var tooMany := CheckNargs(|args|, 2);
    if tooMany.Some? {
      return Err(tooMany.value), None;
    }
    var t := TableOf(L.heap, args[0]);
    FirstProblemSpec(L.heap, t, order, 0);
    var fds := PollEntries(L, t, order, result, revents);
    call := Some(PollCall(fds, timeout.value));
    r := Ok(PushResult(result, None, errno, description));
  }

  /**
   * When some descriptor is ready and the entries do not share tables, every
   * entry ends up with a "revents" table holding the flags the kernel
   * reported for it, and its "events" field is left as it was.
   */
  lemma PollReportsRevents(h0: Heap, args: seq<Value>, order: seq<Value>, revents: seq<Mask>)
    requires Numbered(h0) && |revents| == |order|
    requires PollChecks(h0, args, order).Ok?
    requires Unshared(h0, EntryRefs(TableOf(h0, args[0]), order))
    ensures var vals := EntryRefs(TableOf(h0, args[0]), order);
            var h := WriteBack(h0, vals, revents);
            forall j :: 0 <= j < |order| ==>
              && ValueAt(TableOf(h0, args[0]), order[j]) == Table(vals[j])
              && Reported(h, vals[j], revents[j])
              && EventsField(h, vals[j]) == EventsField(h0, vals[j])
  {
    var t := TableOf(h0, args[0]);
    var vals := EntryRefs(t, order);
    FirstProblemSpec(h0, t, order, 0);
    forall j | 0 <= j < |vals| ensures ReventsSlotOk(h0, vals[j]) && ValueAt(t, order[j]) == Table(vals[j]) {
      assert EntryProblem(h0, ValueAt(t, order[j])).None?;
    }
    WriteBackReports(h0, vals, revents);
    var h := WriteBack(h0, vals, revents);
    forall j | 0 <= j < |order|
      ensures Reported(h, vals[j], revents[j]) && EventsField(h, vals[j]) == EventsField(h0, vals[j])
    {
      assert ReportsAt(h0, h, vals, revents, j);
    }
  }

  /**
   * The keys visited by the traversal are those of argument 1 as it was
   * before the write-back: unless some entry's value is argument 1's own
   * table with a nil "revents" field, or some entry's "revents" table is
   * argument 1's table, the write-back leaves that table as it found it.
   */
  lemma PollKeepsFdTable(h0: Heap, args: seq<Value>, order: seq<Value>, revents: seq<Mask>)
    requires Numbered(h0) && |revents| == |order|
    requires PollChecks(h0, args, order).Ok?
    requires !WritesTo(h0, EntryRefs(TableOf(h0, args[0]), order), args[0].ref)
    ensures var h := WriteBack(h0, EntryRefs(TableOf(h0, args[0]), order), revents);
            args[0].ref in h.tables && h.tables[args[0].ref] == h0.tables[args[0].ref]
  {
    var t := TableOf(h0, args[0]);
    var vals := EntryRefs(t, order);
    FirstProblemSpec(h0, t, order, 0);
    forall j | 0 <= j < |vals| ensures ReventsSlotOk(h0, vals[j]) {
      assert EntryProblem(h0, ValueAt(t, order[j])).None?;
    }
    WriteBackKeeps(h0, vals, revents, args[0].ref);
  }
}
