/**
 * The wait status that `waitpid` stores, and how `tk_wait` reports it.
 *
 * The `W*` macros of `<sys/wait.h>` are given with the bit layout of the GNU C
 * library on Linux, which this model assumes: the low seven bits hold the
 * terminating signal (0 when the child exited, 0x7f when it stopped), bit 7 the
 * core-dump flag, bits 8 to 15 the exit code or the stop signal, and the whole
 * status 0xffff means "continued".
 */
module WaitStatus {
  import opened Lua

  /** A C `int` status, as its 32 bits. */
  type Status = bv32

  function TermSig(s: Status): int { (s & 0x7f) as int }

  predicate IfExited(s: Status) { s & 0x7f == 0 }

  function ExitStatus(s: Status): (code: int)
    ensures 0 <= code < 256
  {
    ((s & 0xff00) >> 8) as int
  }

  /** glibc: `((signed char) ((s & 0x7f) + 1) >> 1) > 0`. */
  predicate IfSignaled(s: Status)
  {
    var x := (s & 0x7f) as int + 1;
    var c := if x >= 128 then x - 256 else x;
    c / 2 > 0
  }

  predicate IfStopped(s: Status) { s & 0xff == 0x7f }

  function StopSig(s: Status): int { ExitStatus(s) }

  predicate IfContinued(s: Status) { s == 0xffff }

  /** The C `int` whose bits are `s`. */
  function AsInt(s: Status): int
  {
    if s < 0x8000_0000 then s as int else s as int - 0x1_0000_0000
  }

  datatype Outcome =
    | Exited(code: int)
    | Signaled(signal: int)
    | Stopped(signal: int)
    | Continued
    | Unknown(raw: int)

  /** The branch `tk_wait` takes: the tests are tried in this order and the first that holds wins. */
  function Classify(s: Status): (o: Outcome)
    ensures o.Exited? ==> 0 <= o.code < 256
    ensures o.Signaled? ==> 1 <= o.signal <= 126
    ensures o.Stopped? ==> 0 <= o.signal < 256
    ensures o.Unknown? ==> o.raw == AsInt(s)
  {
    if IfExited(s) then Exited(ExitStatus(s))
    else if IfSignaled(s) then Signaled(TermSig(s))
    else if IfStopped(s) then Stopped(StopSig(s))
    else if IfContinued(s) then Continued
    else Unknown(AsInt(s))
  }

  /** With this layout no status passes two of the four tests, so their order does not matter. */
  lemma TestsExclusive(s: Status)
    ensures IfExited(s) ==> !IfSignaled(s) && !IfStopped(s) && !IfContinued(s)
    ensures IfSignaled(s) ==> !IfStopped(s) && !IfContinued(s)
    ensures IfStopped(s) ==> !IfContinued(s)
  {
  }

  /** A status is "unknown" exactly when its low byte is 0xff and it is not the "continued" status. */
  lemma UnknownExactly(s: Status)
    ensures Classify(s).Unknown? <==> (s & 0xff == 0xff && s != 0xffff)
  {
  }

  /** `W_EXITCODE(code, 0)`, `W_EXITCODE(0, sig)` with the core flag, `W_STOPCODE(sig)`, `W_CONTINUED`. */
  function ExitCodeStatus(code: bv32): Status { code << 8 }
  function SignalStatus(sig: bv32, core: bool): Status { sig | (if core then 0x80 else 0) }
  function StopCodeStatus(sig: bv32): Status { (sig << 8) | 0x7f }
  const ContinuedStatus: Status := 0xffff

  /** What a child passes to `exit` comes back as "exited" with that code. */
  lemma ExitedRoundTrip(code: bv32)
    requires code < 256
    ensures Classify(ExitCodeStatus(code)) == Exited(code as int)
  {
  }

  /** A terminating signal comes back as "signaled" with that signal, whether or not core was dumped. */
  lemma SignaledRoundTrip(sig: bv32, core: bool)
    requires 1 <= sig <= 126
    ensures Classify(SignalStatus(sig, core)) == Signaled(sig as int)
  {
  }

  lemma StoppedRoundTrip(sig: bv32)
    requires sig < 256
    ensures Classify(StopCodeStatus(sig)) == Stopped(sig as int)
  {
  }

  lemma ContinuedRoundTrip()
    ensures Classify(ContinuedStatus) == Continued
  {
  }

  /**
   * `tk_wait`: the values it returns, given what `waitpid` returned (`pid1`, the
   * stored status) and, on failure, `errno` and its description.
   */
  function Wait(pid1: int, status: Status, errno: int, description: string): (r: Result<seq<Value>>)
    ensures pid1 == -1 <==> r.Err?
    ensures r.Err? ==> r.error == OsError(description, errno)
    ensures r.Ok? ==> match Classify(status)
              case Exited(c) => r.value == [Number(pid1), Str("exited"), Number(c)]
              case Signaled(g) => r.value == [Number(pid1), Str("signaled"), Number(g)]
              case Stopped(g) => r.value == [Number(pid1), Str("stopped"), Number(g)]
              case Continued => r.value == [Number(pid1), Str("continued")]
              case Unknown(raw) => r.value == [Str("unknown"), Number(raw)]
  {
    if pid1 == -1 then Err(OsError(description, errno))
    else
      // every branch pushes the pid first; the "unknown" branch returns only the top two values
      var stack := [Number(pid1)] + match Classify(status)
        case Exited(c) => [Str("exited"), Number(c)]
        case Signaled(g) => [Str("signaled"), Number(g)]
        case Stopped(g) => [Str("stopped"), Number(g)]
        case Continued => [Str("continued")]
        case Unknown(raw) => [Str("unknown"), Number(raw)];
      var nret := if Classify(status).Exited? || Classify(status).Signaled? || Classify(status).Stopped? then 3 else 2;
      Ok(stack[|stack| - nret..])
  }

  /** The pid is among the results exactly when the status was not "unknown". */
  lemma WaitReportsPid(pid1: int, status: Status, errno: int, description: string)
    requires pid1 != -1
    ensures var r := Wait(pid1, status, errno, description);
            r.Ok? && (r.value[0] == Number(pid1) <==> !Classify(status).Unknown?)
  {
  }
}
