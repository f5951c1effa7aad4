/**
 * The decision logic of the process functions: `tk_lua_checkunsigned`, the
 * argument vector `tk_execp` hands to `execvp`, and what `tk_fork` does with
 * the results of `fork`, `prctl` and the parent-pid lookup. The system calls
 * themselves are inputs.
 */
module Process {
  import opened Lua
  import opened Decimal
  import ProcStatus

  const UINT_MAX: int := 0xffff_ffff

  /**
   * `tk_lua_checkunsigned(L, narg)`: `luaL_checkinteger`, then a negative value
   * is refused before a value that does not fit an `unsigned int`.
   */
  function CheckUnsigned(args: seq<Value>, narg: nat): (r: Result<nat>)
    ensures r.Ok? <==> 1 <= narg <= |args| && args[narg - 1].Number? && 0 <= args[narg - 1].n <= UINT_MAX
    ensures r.Ok? ==> r.value == args[narg - 1].n
    ensures !(1 <= narg <= |args| && args[narg - 1].Number?) ==>
              r == Err(ArgError(narg, "number expected, got " + ArgTypeName(args, narg)))
    ensures 1 <= narg <= |args| && args[narg - 1].Number? && args[narg - 1].n < 0 ==>
              r == Err(RuntimeError("value can't be negative"))
    ensures 1 <= narg <= |args| && args[narg - 1].Number? && args[narg - 1].n > UINT_MAX ==>
              r == Err(RuntimeError("value is too large"))
  {
    if !(1 <= narg <= |args| && args[narg - 1].Number?) then
      Err(ArgError(narg, "number expected, got " + ArgTypeName(args, narg)))
    else
      var l := args[narg - 1].n;
      if l < 0 then Err(RuntimeError("value can't be negative"))
      else if l > UINT_MAX then Err(RuntimeError("value is too large"))
      else Ok(l)
  }

  /** `luaL_checkstring` accepts strings and numbers; a number is converted to its numeral. */
  predicate IsStringLike(v: Value)
  {
    v.Str? || v.Number?
  }

  /**
   * The text `luaL_checkstring` gives a string or a number. A number is
   * written as its plain decimal numeral, which is what Lua's "%.14g" gives
   * for integers below 10^14 in magnitude.
   */
  function AsString(v: Value): string
    requires IsStringLike(v)
  {
    if v.Str? then v.s else IntToString(v.n)
  }

  /**
   * The loop of `tk_execp`: `argv` has `n + 2` slots, the program path first,
   * then the elements `t[1] .. t[n]` of the argument table in order, then NULL
   * (`None`). `elems` are those elements, `n` being `lua_objlen` of the table.
   * The first element `luaL_checkstring` refuses raises an argument error.
   */
  method BuildArgv(path: string, elems: seq<Value>) returns (r: Result<array<Option<string>>>)
    ensures r.Ok? <==> forall i :: 0 <= i < |elems| ==> IsStringLike(elems[i])
    ensures r.Ok? ==> r.value.Length == |elems| + 2
    ensures r.Ok? ==> r.value[0] == Some(path) && r.value[|elems| + 1] == None
    ensures r.Ok? ==> forall i :: 1 <= i <= |elems| ==> r.value[i] == Some(AsString(elems[i - 1]))
    ensures r.Err? ==>
              exists i :: 0 <= i < |elems| && !IsStringLike(elems[i])
                && (forall j :: 0 <= j < i ==> IsStringLike(elems[j]))
                && r.error == ArgError(-1, "string expected, got " + TypeName(elems[i]))
  {
    var n := |elems|;
    var argv := new Option<string>[n + 2];
    argv[0] := Some(path);
    argv[n + 1] := None;
    var i := 1;
    while i <= n
      invariant 1 <= i <= n + 1
      invariant argv[0] == Some(path) && argv[n + 1] == None
      invariant forall j :: 0 <= j < i - 1 ==> IsStringLike(elems[j])
      invariant forall j :: 1 <= j < i ==> argv[j] == Some(AsString(elems[j - 1]))
    {
      var v := elems[i - 1];
      if !IsStringLike(v) {
        return Err(ArgError(-1, "string expected, got " + TypeName(v)));
      }
      argv[i] := Some(AsString(v));
      i := i + 1;
    }
    r := Ok(argv);
  }

  /** How a call of `tk_execp` ends: the process image is replaced, or an error is raised. */
  datatype ExecOutcome =
    | Replaced(program: string, argv: seq<Option<string>>)
    | Failed(error: Error)

  /**
   * `tk_execp(prog, argt)`: checks that `prog` is a string and `argt` a table,
   * builds `argv` and calls `execvp`. `elems` are `argt[1] .. argt[n]`, `n`
   * being `lua_objlen(argt)`. `execFailure` is `None` when `execvp` succeeds,
   * otherwise the `errno` it set and its description. The function returns only
   * when `execvp` failed, and then raises that error.
   */
  method Execp(prog: Value, argt: Value, elems: seq<Value>, execFailure: Option<(int, string)>) returns (o: ExecOutcome)
    ensures o.Replaced? <==>
              IsStringLike(prog) && argt.Table? && execFailure.None? && forall i :: 0 <= i < |elems| ==> IsStringLike(elems[i])
    ensures !IsStringLike(prog) ==> o == Failed(ArgError(-2, "string expected, got " + TypeName(prog)))
    ensures IsStringLike(prog) && !argt.Table? ==> o == Failed(ArgError(-1, "table expected, got " + TypeName(argt)))
    ensures o.Replaced? ==> o.program == AsString(prog)
    ensures o.Replaced? ==> |o.argv| == |elems| + 2 && o.argv[0] == Some(AsString(prog)) && o.argv[|elems| + 1] == None
    ensures o.Replaced? ==> forall i :: 1 <= i <= |elems| ==> o.argv[i] == Some(AsString(elems[i - 1]))
    ensures IsStringLike(prog) && argt.Table? && !(forall i :: 0 <= i < |elems| ==> IsStringLike(elems[i])) ==>
              exists i :: 0 <= i < |elems| && !IsStringLike(elems[i])
                && (forall j :: 0 <= j < i ==> IsStringLike(elems[j]))
                && o == Failed(ArgError(-1, "string expected, got " + TypeName(elems[i])))
    ensures IsStringLike(prog) && argt.Table? && (forall i :: 0 <= i < |elems| ==> IsStringLike(elems[i])) && execFailure.Some? ==>
              o == Failed(OsError(execFailure.value.1, execFailure.value.0))
  {
    if !IsStringLike(prog) {
      return Failed(ArgError(-2, "string expected, got " + TypeName(prog)));
    }
    var path := AsString(prog);
    if !argt.Table? {
      return Failed(ArgError(-1, "table expected, got " + TypeName(argt)));
    }
    var argv := BuildArgv(path, elems);
    if argv.Err? {
      return Failed(argv.error);
    }
    if execFailure.None? {
      return Replaced(path, argv.value[..]);
    }
    o := Failed(OsError(execFailure.value.1, execFailure.value.0));
  }

  /**
   * The error `luaL_checkinteger(L, -1)` raises when `tk_ppid` pushed nothing.
   * What index -1 reads then depends on the Lua implementation; this message
   * is the model's choice.
   */
  const NoPidError: Error := ArgError(-1, "number expected, got no value")

  const OrphanMessage: string := "parent exited before prctl"

  /**
   * `tk_fork`. `self` is `getpid()` before the fork, `forkResult` what `fork`
   * returned, `prctlResult` what `prctl(PR_SET_PDEATHSIG, SIGHUP)` returned in
   * the child, `status` the contents of the child's `/proc/<pid>/status` as
   * `tk_ppid` reads it, and `errno`/`description` the error of a failing call.
   */
  function Fork(self: int, forkResult: int, prctlResult: int, status: string, errno: int, description: string)
    : (r: Result<seq<Value>>)
    ensures forkResult == -1 ==> r == Err(OsError(description, errno))
    ensures forkResult != -1 && forkResult != 0 ==> r == Ok([Number(forkResult)])
    ensures forkResult == 0 && prctlResult != 0 ==> r == Err(OsError(description, errno))
    ensures forkResult == 0 && prctlResult == 0 ==>
              match ProcStatus.ParseStatus(ProcStatus.ReadBuffer(status))
              case Parsed(p) => r == (if p == self then Ok([Number(0)]) else Err(Raised(OrphanMessage)))
              case _ => r == Err(NoPidError)
  {
    if forkResult == -1 then Err(OsError(description, errno))
    else if forkResult != 0 then Ok([Number(forkResult)])
    else if prctlResult != 0 then Err(OsError(description, errno))
    else
      match ProcStatus.ParseStatus(ProcStatus.ReadBuffer(status))
      case Parsed(ppid0) =>
        if self != ppid0 then Err(Raised(OrphanMessage)) else Ok([Number(forkResult)])
      case _ => Err(NoPidError)
  }

  /** The child goes on only when its parent, read after the guard is installed, is the process that forked. */
  lemma ChildRunsOnlyUnderItsParent(self: int, forkResult: int, prctlResult: int, status: string, errno: int, description: string)
    requires Fork(self, forkResult, prctlResult, status, errno, description) == Ok([Number(0)])
    ensures forkResult == 0 && prctlResult == 0
    ensures ProcStatus.ParseStatus(ProcStatus.ReadBuffer(status)) == ProcStatus.Parsed(self)
  {
    if forkResult == 0 {
      var p := ProcStatus.ParseStatus(ProcStatus.ReadBuffer(status)).ppid;
      assert ProcStatus.ParseStatus(ProcStatus.ReadBuffer(status)) == ProcStatus.Parsed(p);
    }
  }

  /**
   * A status file that names the original parent after "PPid:" lets the child
   * continue, and one that names any other pid (the child was re-parented)
   * raises the orphan error.
   */
  lemma ForkChildOutcome(self: int, prefix: string, reported: int, rest: string, errno: int, description: string)
    requires -0x8000_0000 <= reported < 0x8000_0000
    requires forall j :: !ProcStatus.OccursAt(prefix, ProcStatus.Marker, j)
    requires rest == [] || !IsDigit(rest[0])
    requires var file := prefix + ProcStatus.Marker + "\t" + IntToString(reported) + rest;
             '\0' !in file && |file| <= ProcStatus.ReadLimit
    ensures var file := prefix + ProcStatus.Marker + "\t" + IntToString(reported) + rest;
            Fork(self, 0, 0, file, errno, description) ==
              if reported == self then Ok([Number(0)]) else Err(Raised(OrphanMessage))
  {
    var file := prefix + ProcStatus.Marker + "\t" + IntToString(reported) + rest;
    ProcStatus.ShortFileReadWhole(file);
    assert IsSpace("\t"[0]);
    ProcStatus.ParseStatusRoundTrip(prefix, "\t", reported, rest);
  }
}
