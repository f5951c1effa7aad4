/**
 * The part of the embedding Lua 5.1 runtime that the core observes: values,
 * tables as mutable objects in a heap, truthiness, type names, and the ways a
 * C function can fail (argument errors, `luaL_error`, and the `santoku.error`
 * module's `error`).
 */
module Lua {

  /** Identity of a table object in the Lua heap. */
  type Ref = nat

  /**
   * A Lua value. Numbers are idealised to mathematical integers: the core only
   * uses them as descriptors, counts, timeouts and pids.
   */
  datatype Value =
    | Nil
    | Boolean(b: bool)
    | Number(n: int)
    | Str(s: string)
    | Table(ref: Ref)
    | Function(id: nat)

  /** `lua_typename`, as it appears in argument error messages. */
  function TypeName(v: Value): string
  {
    match v
    case Nil => "nil"
    case Boolean(_) => "boolean"
    case Number(_) => "number"
    case Str(_) => "string"
    case Table(_) => "table"
    case Function(_) => "function"
  }

  /** `luaL_typename` of argument `narg` (1-based); an absent argument is "no value". */
  function ArgTypeName(args: seq<Value>, narg: nat): string
  {
    if 1 <= narg <= |args| then TypeName(args[narg - 1]) else "no value"
  }

  /** `lua_isnoneornil` of argument `narg` (1-based). */
  predicate NoneOrNil(args: seq<Value>, narg: nat)
  {
    !(1 <= narg <= |args|) || args[narg - 1].Nil?
  }

  /** `lua_toboolean`: only nil and false are false. */
  predicate Truthy(v: Value)
  {
    !(v.Nil? || v == Boolean(false))
  }

  /** The contents of one table: keys to values (absent keys read as nil). */
  type Fields = map<Value, Value>

  /** `lua_getfield(t, name)` on a table without a metatable. */
  function GetField(t: Fields, name: string): Value
  {
    if Str(name) in t then t[Str(name)] else Nil
  }

  /** `lua_setfield(t, name, v)`: assigning nil removes the key. */
  function SetField(t: Fields, name: string, v: Value): (t': Fields)
    ensures GetField(t', name) == v
    ensures forall k :: k != Str(name) ==> (k in t' <==> k in t)
    ensures forall k :: k != Str(name) && k in t ==> t'[k] == t[k]
  {
    if v.Nil? then t - {Str(name)} else t[Str(name) := v]
  }

  /**
   * A `lua_Integer` converted to a 32-bit C `int` (or `pid_t`): the value modulo
   * 2^32, read in two's complement, as the GNU compilers define the conversion.
   */
  function ToCInt(n: int): (r: int)
    ensures -0x8000_0000 <= r < 0x8000_0000
    ensures (r - n) % 0x1_0000_0000 == 0
  {
    var w := n % 0x1_0000_0000;
    if w < 0x8000_0000 then w else w - 0x1_0000_0000
  }

  lemma ToCIntInRange(n: int)
    requires -0x8000_0000 <= n < 0x8000_0000
    ensures ToCInt(n) == n
  {
  }

  /** How a C function of the core can fail. */
  datatype Error =
    | ArgError(narg: int, msg: string)        // luaL_argerror: "bad argument #narg (msg)"
    | RuntimeError(msg: string)               // luaL_error
    | Raised(msg: string)                     // santoku.error.error(msg)
    | OsError(description: string, errno: int) // santoku.error.error(strerror(errno), errno)

  datatype Result<+T> = Ok(value: T) | Err(error: Error)

  datatype Option<+T> = None | Some(value: T)

  /** The Lua heap: every table object, and the identity the next new table gets. */
  datatype Heap = Heap(tables: map<Ref, Fields>, next: Ref)

  /** A value is live when it is not a reference, or refers to an existing table. */
  predicate Live(h: Heap, v: Value)
  {
    v.Table? ==> v.ref in h.tables
  }

  /** Lua has no dangling references, and `next` is not yet in use. */
  ghost predicate HeapValid(h: Heap)
  {
    && (forall r :: r in h.tables ==> r < h.next)
    && (forall r, k :: r in h.tables && k in h.tables[r] ==> Live(h, k) && Live(h, h.tables[r][k]))
  }

  /** The value of `lua_createtable`: a fresh, empty table. */
  function NewTable(h: Heap): (h': Heap)
    ensures h.next !in h.tables ==> h'.tables.Keys == h.tables.Keys + {h.next}
    ensures h'.next > h.next
  {
    Heap(h.tables[h.next := map[]], h.next + 1)
  }

  /** The heap after `lua_setfield(r, name, v)`. */
  function SetFieldIn(h: Heap, r: Ref, name: string, v: Value): (h': Heap)
    requires r in h.tables
    ensures h'.tables.Keys == h.tables.Keys && h'.next == h.next
    ensures h'.tables[r] == SetField(h.tables[r], name, v)
    ensures forall q :: q in h.tables && q != r ==> h'.tables[q] == h.tables[q]
  {
    h.(tables := h.tables[r := SetField(h.tables[r], name, v)])
  }

  lemma NewTableValid(h: Heap)
    requires HeapValid(h)
    ensures HeapValid(NewTable(h)) && h.next !in h.tables
    ensures forall v :: Live(h, v) ==> Live(NewTable(h), v)
  {
    var h' := NewTable(h);
    forall q, k | q in h'.tables && k in h'.tables[q]
      ensures Live(h', k) && Live(h', h'.tables[q][k])
    {
      assert q != h.next;
      assert k in h.tables[q];
      assert Live(h, k) && Live(h, h.tables[q][k]);
    }
  }

  lemma SetFieldValid(h: Heap, r: Ref, name: string, v: Value)
    requires HeapValid(h) && r in h.tables && Live(h, v)
    ensures HeapValid(SetFieldIn(h, r, name, v))
  {
    var h' := SetFieldIn(h, r, name, v);
    forall q, k | q in h'.tables && k in h'.tables[q]
      ensures Live(h', k) && Live(h', h'.tables[q][k])
    {
      if q == r {
        if k != Str(name) {
          assert k in h.tables[q] && h'.tables[q][k] == h.tables[q][k];
          assert Live(h, k) && Live(h, h.tables[q][k]);
        }
      } else {
        assert k in h.tables[q] && h'.tables[q][k] == h.tables[q][k];
        assert Live(h, k) && Live(h, h.tables[q][k]);
      }
    }
  }

  /**
   * The Lua state a C function runs against. Only the heap of tables is kept;
   * the value stack is replaced by explicit parameters and results.
   */
  class LuaState {
    var heap: Heap

    ghost predicate Valid()
      reads this
    {
      HeapValid(heap)
    }

    constructor ()
      ensures Valid() && heap == Heap(map[], 0)
    {
      heap := Heap(map[], 0);
    }

    /** `lua_createtable`: allocates a fresh, empty table. */
    method CreateTable() returns (r: Ref)
      requires Valid()
      modifies this
      ensures Valid()
      ensures r == old(heap).next && r !in old(heap).tables
      ensures heap == NewTable(old(heap))
    {
      NewTableValid(heap);
      r := heap.next;
      heap := NewTable(heap);
    }

    /** `lua_setfield` on the table `r`. */
    method SetFieldOf(r: Ref, name: string, v: Value)
      requires Valid() && r in heap.tables && Live(heap, v)
      modifies this
      ensures Valid()
      ensures heap == SetFieldIn(old(heap), r, name, v)
    {
      SetFieldValid(heap, r, name, v);
      heap := SetFieldIn(heap, r, name, v);
    }
  }
}
