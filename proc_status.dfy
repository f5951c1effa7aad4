/**
 * `tk_ppid`: which process's `/proc/<pid>/status` is read, and how the parent
 * pid is found in its text. Opening and reading the file are not modelled; the
 * bytes `fread` returned are an input.
 */
module ProcStatus {
  import opened Lua
  import opened Decimal

  /** `BUFSIZ` of the GNU C library. */
  const BUFSIZ: nat := 8192

  /** `tk_ppid` reads at most `BUFSIZ * 2 - 1` bytes and terminates them with a NUL. */
  const ReadLimit: nat := BUFSIZ * 2 - 1

  /** The text that introduces the parent pid's line. */
  const Marker: string := "\nPPid:"

  /** `luaL_optinteger(L, 1, -1)` then `n < 0 ? getpid() : n`, narrowed to a 32-bit `pid_t`. */
  function Target(arg: Option<int>, self: int): (pid: int)
    ensures (arg.None? || arg.value < 0) ==> pid == self
    ensures arg.Some? && 0 <= arg.value < 0x8000_0000 ==> pid == arg.value
  {
    var n := if arg.Some? then arg.value else -1;
    if n < 0 then self else ToCInt(n)
  }

  /** `snprintf(procname, 32, "/proc/%u/status", pid)`, before any truncation. */
  function StatusPath(pid: int): string
  {
    "/proc/" + NatToString(pid % 0x1_0000_0000) + "/status"
  }

  lemma {:induction false} NatToStringLength(n: nat, k: nat)
    requires n < Power10(k)
    requires k > 0
    ensures |NatToString(n)| <= k
    decreases k
  {
    if n >= 10 {
      NatToStringLength(n / 10, k - 1);
    }
  }

  function Power10(k: nat): (p: nat)
    ensures p > 0
  {
    if k == 0 then 1 else 10 * Power10(k - 1)
  }

  /** The path always fits the 32-byte `procname` buffer with its NUL, so `snprintf` never truncates it. */
  lemma StatusPathFits(pid: int)
    ensures |StatusPath(pid)| < 32
  {
    assert Power10(10) == 10_000_000_000;
    NatToStringLength(pid % 0x1_0000_0000, 10);
  }

  /** What `fread` leaves in the buffer when the file holds `file`. */
  function ReadBuffer(file: string): (buf: string)
    ensures |buf| == if |file| <= ReadLimit then |file| else ReadLimit
    ensures buf <= file
  {
    if |file| <= ReadLimit then file else file[..ReadLimit]
  }

  /** The C string in a buffer: everything before the first NUL. */
  function CString(buf: string): (s: string)
    ensures s <= buf && '\0' !in s
    ensures |s| < |buf| ==> buf[|s|] == '\0'
  {
    if |buf| == 0 || buf[0] == '\0' then ""
    else
      var s := [buf[0]] + CString(buf[1..]);
      assert buf == [buf[0]] + buf[1..];
      s
  }

  predicate OccursAt(s: string, pat: string, j: nat)
  {
    j + |pat| <= |s| && s[j..j + |pat|] == pat
  }

  /** `strstr(s, pat)` from position `i` on: the first occurrence, if any. */
  function FindFrom(s: string, pat: string, i: nat): (r: Option<nat>)
    ensures r.Some? ==> i <= r.value && OccursAt(s, pat, r.value)
    ensures r.Some? ==> forall j :: i <= j < r.value ==> !OccursAt(s, pat, j)
    ensures r.None? ==> forall j :: i <= j ==> !OccursAt(s, pat, j)
    decreases |s| - i
  {
    if i + |pat| > |s| then None
    else if s[i..i + |pat|] == pat then Some(i)
    else FindFrom(s, pat, i + 1)
  }

  function Find(s: string, pat: string): Option<nat>
  {
    FindFrom(s, pat, 0)
  }

  /** The three outcomes of `tk_ppid`'s parse. */
  datatype ParentPid =
    | NoResult      // nothing was read, or the marker is absent: `tk_ppid` returns no value
    | Parsed(ppid: int)
    | Unconverted   // the marker is there but `sscanf` converted nothing: nothing is pushed

  const LONG_MIN: int := -0x8000_0000_0000_0000
  const LONG_MAX: int := 0x7fff_ffff_ffff_ffff

  /**
   * What the `%d` conversion of the GNU C library stores into the `int ppid`:
   * the numeral is read as a `long` by `strtol`, which saturates at the bounds
   * of `long`, and that `long` is narrowed to `int`.
   */
  function StoreInt(p: int): (r: int)
    ensures -0x8000_0000 <= r < 0x8000_0000
    ensures -0x8000_0000 <= p < 0x8000_0000 ==> r == p
    ensures LONG_MIN <= p <= LONG_MAX ==> (r - p) % 0x1_0000_0000 == 0
  {
    ToCInt(if p > LONG_MAX then LONG_MAX else if p < LONG_MIN then LONG_MIN else p)
  }

  /**
   * The parse of `tk_ppid` over the bytes `fread` returned: find the first
   * "\nPPid:" in the C string, then read an integer after it as
   * `sscanf(loc, "\nPPid:%d", &ppid)` does, into a C `int`.
   */
  function ParseStatus(buf: string): (r: ParentPid)
    ensures r.Parsed? ==> -0x8000_0000 <= r.ppid < 0x8000_0000
    ensures |buf| == 0 ==> r == NoResult
  {
    if |buf| == 0 then NoResult
    else
      var text := CString(buf);
      match Find(text, Marker)
      case None => NoResult
      case Some(i) =>
        match ScanInt(text[i + |Marker|..])
        case None => Unconverted
        case Some(p) => Parsed(StoreInt(p))
  }

  /** `strstr` finds nothing exactly when the pattern occurs nowhere. */
  lemma FindNoneExactly(s: string, pat: string)
    ensures Find(s, pat).None? <==> forall j :: !OccursAt(s, pat, j)
  {
    var f := Find(s, pat);
    if f.Some? {
      assert OccursAt(s, pat, f.value);
    }
  }

  lemma FindNone(buf: string)
    requires |buf| > 0
    ensures ParseStatus(buf) == NoResult <==> Find(CString(buf), Marker).None?
  {
  }

  /** There is no result exactly when nothing was read or the marker does not occur before the first NUL. */
  lemma NoResultExactly(buf: string)
    ensures ParseStatus(buf) == NoResult <==> (|buf| == 0 || forall j :: !OccursAt(CString(buf), Marker, j))
  {
    if |buf| > 0 {
      FindNone(buf);
      FindNoneExactly(CString(buf), Marker);
    }
  }

  lemma CStringWithoutNul(s: string)
    requires '\0' !in s
    ensures CString(s) == s
  {
  }

  lemma MarkerStartsOnlyNewline(d: nat)
    requires 1 <= d < |Marker|
    ensures Marker[d] != '\n'
  {
  }

  /** An occurrence of the marker that begins before `|prefix|` in `prefix + Marker + tail` lies inside `prefix`. */
  lemma EarlierOccurrenceInPrefix(prefix: string, tail: string, j: nat)
    requires j < |prefix|
    requires OccursAt(prefix + Marker + tail, Marker, j)
    ensures OccursAt(prefix, Marker, j)
  {
    var s := prefix + Marker + tail;
    if j + |Marker| > |prefix| {
      var d := |prefix| - j;
      assert s[j + d] == '\n';
      assert s[j..j + |Marker|][d] == Marker[d];
      MarkerStartsOnlyNewline(d);
      assert false;
    } else {
      assert s[j..j + |Marker|] == prefix[j..j + |Marker|];
    }
  }

  /** `strstr` returns the first occurrence. */
  lemma FindFirst(s: string, pat: string, p: nat)
    requires OccursAt(s, pat, p)
    requires forall j :: 0 <= j < p ==> !OccursAt(s, pat, j)
    ensures Find(s, pat) == Some(p)
  {
  }

  /** In `prefix + Marker + tail`, with no marker in `prefix`, the first marker is the one after `prefix`. */
  lemma MarkerAfterPrefix(prefix: string, tail: string)
    requires forall j :: !OccursAt(prefix, Marker, j)
    ensures Find(prefix + Marker + tail, Marker) == Some(|prefix|)
  {
    var s := prefix + Marker + tail;
    assert s[|prefix|..|prefix| + |Marker|] == Marker;
    forall j | 0 <= j < |prefix| ensures !OccursAt(s, Marker, j) {
      if OccursAt(s, Marker, j) {
        EarlierOccurrenceInPrefix(prefix, tail, j);
      }
    }
    FindFirst(s, Marker, |prefix|);
  }

  /** A NUL-free text whose first marker is at `i`, followed by a numeral that reads as `p`, parses to `p`. */
  lemma ParseOfFound(s: string, i: nat, p: int)
    requires '\0' !in s
    requires Find(s, Marker) == Some(i) && i + |Marker| <= |s|
    requires ScanInt(s[i + |Marker|..]) == Some(p)
    ensures ParseStatus(s) == Parsed(StoreInt(p))
  {
    CStringWithoutNul(s);
    assert |s| > 0;
    assert ParseStatus(s) == (match ScanInt(s[i + |Marker|..]) case None => Unconverted case Some(q) => Parsed(StoreInt(q)));
  }

  lemma Regroup(prefix: string, ws: string, num: string, rest: string)
    ensures prefix + Marker + ws + num + rest == prefix + Marker + (ws + num + rest)
    ensures (prefix + Marker + (ws + num + rest))[|prefix| + |Marker|..] == ws + num + rest
  {
  }

  /**
   * The line "PPid:" written with `%d` after any white space is read back as that
   * pid, stored into a C `int`, provided the marker does not occur earlier and
   * the text has no NUL. A pid that fits an `int` is read back unchanged.
   */
  lemma ParseStatusRoundTrip(prefix: string, ws: string, ppid: int, rest: string)
    requires forall j :: !OccursAt(prefix, Marker, j)
    requires forall j :: 0 <= j < |ws| ==> IsSpace(ws[j])
    requires rest == [] || !IsDigit(rest[0])
    requires '\0' !in prefix + Marker + ws + IntToString(ppid) + rest
    ensures ParseStatus(prefix + Marker + ws + IntToString(ppid) + rest) == Parsed(StoreInt(ppid))
    ensures -0x8000_0000 <= ppid < 0x8000_0000 ==>
              ParseStatus(prefix + Marker + ws + IntToString(ppid) + rest) == Parsed(ppid)
  {
    var tail := ws + IntToString(ppid) + rest;
    Regroup(prefix, ws, IntToString(ppid), rest);
    MarkerAfterPrefix(prefix, tail);
    ScanIntOfIntToString(ws, ppid, rest);
    ParseOfFound(prefix + Marker + tail, |prefix|, ppid);
  }

  /** A status file no longer than the read limit is read whole. */
  lemma ShortFileReadWhole(file: string)
    requires |file| <= ReadLimit
    ensures ReadBuffer(file) == file
  {
  }
}
