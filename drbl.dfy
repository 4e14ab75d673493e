/** The DRBL workload: every core's worker reads the first page of its own
    scratch file over and over and counts the reads in each one-second
    window. The operating system's file calls and the monotonic clock are
    oracles: their results are chosen by the environment and only recorded. */
module Drbl {
  import opened Ints
  import opened Text
  import Fxmark

  /** The slots of the file-descriptor table. */
  const FD_SLOTS: nat := 512

  /** Reads done between two looks at the clock. */
  const BATCH: nat := 128

  /** The Linux values of the flags and the mode `init` creates a scratch
      file with: create it if missing, open it for reading and writing, and
      give the owner read, write and execute permission. */
  const O_RDWR: bv32 := 0x2
  const O_CREAT: bv32 := 0x40
  const S_IRWXU: bv32 := 0x1c0
  const OPEN_FLAGS: bv32 := O_CREAT | O_RDWR

  // ---------------------------------------------------------------------------
  // Oracles

  /** A file call with its arguments and the result the system returned. */
  datatype Call =
    | RemoveCall(name: string, rc: int)
    | OpenCall(name: string, flags: bv32, mode: bv32, fd: i32)
    | WriteCall(fd: i32, data: seq<u8>, written: int)
    | PReadCall(fd: i32, len: nat, offset: nat, got: int)
    | CloseCall(fd: i32)

  /** The file calls of the operating system; each call is appended to `log`. */
  class Kernel {
    var log: seq<Call>

    constructor ()
      ensures log == []
    {
      log := [];
    }

    method Remove(name: string) returns (rc: int)
      modifies this
      ensures log == old(log) + [RemoveCall(name, rc)]
    {
      rc := *;
      log := log + [RemoveCall(name, rc)];
    }

    method Open(name: string, flags: bv32, mode: bv32) returns (fd: i32)
      modifies this
      ensures log == old(log) + [OpenCall(name, flags, mode, fd)]
    {
      fd := *;
      log := log + [OpenCall(name, flags, mode, fd)];
    }

    method Write(fd: i32, data: seq<u8>) returns (written: int)
      modifies this
      ensures log == old(log) + [WriteCall(fd, data, written)]
    {
      written := *;
      log := log + [WriteCall(fd, data, written)];
    }

    method PRead(fd: i32, len: nat, offset: nat) returns (got: int)
      modifies this
      ensures log == old(log) + [PReadCall(fd, len, offset, got)]
    {
      got := *;
      log := log + [PReadCall(fd, len, offset, got)];
    }

    method Close(fd: i32)
      modifies this
      ensures log == old(log) + [CloseCall(fd)]
    {
      log := log + [CloseCall(fd)];
    }
  }

  /** A monotonic clock in nanoseconds. Every reading is strictly later than
      the one before, which is what lets a timing loop end. */
  class Clock {
    var now: nat
    /** Every reading taken so far, oldest first. */
    ghost var readings: seq<nat>

    constructor ()
      ensures now == 0 && readings == []
    {
      now := 0;
      readings := [];
    }

    method Now() returns (t: nat)
      modifies this
      ensures t == now && now > old(now)
      ensures readings == old(readings) + [t]
    {
      var later: nat :| later > now;
      now := later;
      t := now;
      readings := readings + [t];
    }
  }

  // ---------------------------------------------------------------------------
  // Scratch files and the descriptor table

  /** The scratch file of a core, NUL-terminated for the C calls. */
  function FileName(path: string, core: nat): string
  {
    path + "/file" + Decimal(core) + ".txt\0"
  }

  /** A scratch file name starts with the directory, carries the core's
      decimal number between `/file` and `.txt`, and ends in NUL. */
  lemma FileNameParts(path: string, core: nat)
    ensures var r := FileName(path, core);
      && r[..|path|] == path && r[|path|..|path| + 5] == "/file"
      && r[|path| + 5 .. |r| - 5] == Decimal(core)
      && r[|r| - 5..] == ".txt\0"
  {
  }

  /** Different cores never share a scratch file. */
  lemma FileNameInjective(path: string, a: nat, b: nat)
    requires FileName(path, a) == FileName(path, b)
    ensures a == b
  {
    var fa, fb := FileName(path, a), FileName(path, b);
    assert fa[|path| + 5 .. |fa| - 5] == Decimal(a);
    assert fb[|path| + 5 .. |fb| - 5] == Decimal(b);
    DecimalInjective(a, b);
  }

  /** The cores `cs` got the descriptors `ds`, none of them -1, and each
      core has a slot in a table of `n` slots. */
  predicate Opened(cs: seq<u64>, ds: seq<i32>, n: nat)
  {
    && |cs| == |ds|
    && (cs != [] ==>
          && Opened(cs[..|cs| - 1], ds[..|ds| - 1], n)
          && cs[|cs| - 1] < n && ds[|ds| - 1] != -1)
  }

  lemma {:induction false} OpenedIndex(cs: seq<u64>, ds: seq<i32>, n: nat, j: nat)
    requires Opened(cs, ds, n) && j < |cs|
    ensures cs[j] < n && ds[j] != -1
  {
    if j < |cs| - 1 {
      OpenedIndex(cs[..|cs| - 1], ds[..|ds| - 1], n, j);
    }
  }

  /** The table after writing `vs[i]` into slot `cs[i]`, for each `i` in order. */
  function Assigned(t: seq<i32>, cs: seq<u64>, vs: seq<i32>): (r: seq<i32>)
    requires Opened(cs, vs, |t|)
    ensures |r| == |t|
  {
    if cs == [] then t
    else Assigned(t, cs[..|cs| - 1], vs[..|vs| - 1])[cs[|cs| - 1] := vs[|vs| - 1]]
  }

  /** One more write on top of the earlier ones. */
  lemma AssignedSnoc(t: seq<i32>, cs: seq<u64>, vs: seq<i32>, c: u64, v: i32)
    requires Opened(cs, vs, |t|) && c < |t| && v != -1
    ensures Opened(cs + [c], vs + [v], |t|)
    ensures Assigned(t, cs + [c], vs + [v]) == Assigned(t, cs, vs)[c := v]
  {
    assert (cs + [c])[..|cs|] == cs && (vs + [v])[..|vs|] == vs;
  }

  /** A slot no core names keeps its value. */
  lemma {:induction false} AssignedElsewhere(t: seq<i32>, cs: seq<u64>, vs: seq<i32>, j: nat)
    requires Opened(cs, vs, |t|)
    requires j < |t| && j !in cs
    ensures Assigned(t, cs, vs)[j] == t[j]
  {
    if cs != [] {
      AssignedElsewhere(t, cs[..|cs| - 1], vs[..|vs| - 1], j);
    }
  }

  /** The slot of a core holds the value written for its last occurrence. */
  lemma {:induction false} AssignedLast(t: seq<i32>, cs: seq<u64>, vs: seq<i32>, i: nat)
    requires Opened(cs, vs, |t|)
    requires i < |cs| && forall j :: i < j < |cs| ==> cs[j] != cs[i]
    ensures cs[i] < |t| && Assigned(t, cs, vs)[cs[i]] == vs[i]
  {
    OpenedIndex(cs, vs, |t|, i);
    if i < |cs| - 1 {
      AssignedLast(t, cs[..|cs| - 1], vs[..|vs| - 1], i);
    }
  }

  /** No slot of a core that got a descriptor is left at -1: after an `init`
      that completed, `run` on any of its cores gets past the descriptor
      check. */
  lemma {:induction false} AssignedCovers(t: seq<i32>, cs: seq<u64>, vs: seq<i32>, c: u64)
    requires Opened(cs, vs, |t|)
    requires c in cs
    ensures c < |t| && Assigned(t, cs, vs)[c] != -1
  {
    var j :| 0 <= j < |cs| && cs[j] == c;
    OpenedIndex(cs, vs, |t|, j);
    if cs[|cs| - 1] != c {
      assert c in cs[..|cs| - 1];
      AssignedCovers(t, cs[..|cs| - 1], vs[..|vs| - 1], c);
    }
  }

  /** The calls `init` makes for one core: remove the old file, open it
      (getting `fd`), write one full page. */
  predicate SetupCalls(t: seq<Call>, name: string, page: seq<u8>, fd: i32)
  {
    && |t| == 3
    && t[0].RemoveCall? && t[0].name == name
    && t[1] == OpenCall(name, OPEN_FLAGS, S_IRWXU, fd)
    && t[2] == WriteCall(fd, page, |page|)
  }

  /** The calls of `init` for the cores `cs`, in order, which got the
      descriptors `fds`: three calls per core. */
  predicate SetupTrace(t: seq<Call>, path: string, page: seq<u8>, cs: seq<u64>, fds: seq<i32>)
    requires |cs| == |fds|
  {
    if cs == [] then t == []
    else
      && |t| >= 3
      && SetupTrace(t[..|t| - 3], path, page, cs[..|cs| - 1], fds[..|fds| - 1])
      && SetupCalls(t[|t| - 3..], FileName(path, cs[|cs| - 1]), page, fds[|fds| - 1])
  }

  /** The calls `init` made for a core before it panicked with `failure`. */
  predicate FailedSetup(t: seq<Call>, name: string, page: seq<u8>, failure: Failure)
  {
    && 2 <= |t| <= 3
    && t[0].RemoveCall? && t[0].name == name
    && t[1].OpenCall? && t[1].name == name && t[1].flags == OPEN_FLAGS && t[1].mode == S_IRWXU
    && match failure
       case OpenFailed => |t| == 2 && t[1].fd == -1
       case WriteFailed =>
         && |t| == 3 && t[1].fd != -1
         && t[2].WriteCall? && t[2].fd == t[1].fd && t[2].data == page
         && t[2].written != |page|
       case CoreOutOfRange => t[1].fd != -1 && SetupCalls(t, name, page, t[1].fd)
       case _ => false
  }

  /** Three calls per core. */
  lemma {:induction false} SetupTraceLength(t: seq<Call>, path: string, page: seq<u8>, cs: seq<u64>, fds: seq<i32>)
    requires |cs| == |fds| && SetupTrace(t, path, page, cs, fds)
    ensures |t| == 3 * |cs|
  {
    if cs != [] {
      SetupTraceLength(t[..|t| - 3], path, page, cs[..|cs| - 1], fds[..|fds| - 1]);
    }
  }

  /** What `init` has done once it handled the cores `cs`, which got the
      descriptors `ds`: `table` is `t0` with each of their slots set, and
      `calls` are their three file calls each, in order. */
  predicate Progress(t0: seq<i32>, table: seq<i32>, path: string, page: seq<u8>, cs: seq<u64>, ds: seq<i32>, calls: seq<Call>)
  {
    && Opened(cs, ds, |t0|)
    && table == Assigned(t0, cs, ds)
    && SetupTrace(calls, path, page, cs, ds)
  }

  /** One more core set up by `init`: the table, the descriptors and the
      calls all grow by that core's part. */
  lemma InitStep(t0: seq<i32>, table: seq<i32>, path: string, page: seq<u8>, done: seq<u64>, descs: seq<i32>, calls: seq<Call>,
                 c: u64, fd: i32, step: seq<Call>)
    requires Progress(t0, table, path, page, done, descs, calls)
    requires c < |t0| && fd != -1 && SetupCalls(step, FileName(path, c), page, fd)
    ensures Progress(t0, table[c := fd], path, page, done + [c], descs + [fd], calls + step)
  {
    AssignedSnoc(t0, done, descs, c, fd);
    var u := calls + step;
    assert u[..|u| - 3] == calls && u[|u| - 3..] == step;
    assert (done + [c])[..|done|] == done && (descs + [fd])[..|descs|] == descs;
  }

  lemma TakeSnoc<T>(s: seq<T>, i: nat)
    requires i < |s|
    ensures s[..i + 1] == s[..i] + [s[i]]
  {
  }

  /** Every call of `t` is a read of a full page at offset 0 of `fd`. */
  predicate FullReads(t: seq<Call>, fd: i32)
  {
    t != [] ==>
      && FullReads(t[..|t| - 1], fd)
      && t[|t| - 1] == PReadCall(fd, Fxmark.PAGE_SIZE, 0, Fxmark.PAGE_SIZE)
  }

  /** The calls end in a short read of `fd`, after only full reads. */
  predicate Failed(t: seq<Call>, fd: i32)
  {
    t != [] && FullReads(t[..|t| - 1], fd) && ShortRead(t[|t| - 1], fd)
  }

  /** A read of a full page at offset 0 of `fd` that returned fewer bytes. */
  predicate ShortRead(c: Call, fd: i32)
  {
    c.PReadCall? && c.fd == fd && c.len == Fxmark.PAGE_SIZE && c.offset == 0 && c.got != Fxmark.PAGE_SIZE
  }

  /** The total of the per-second counts. */
  function Sum(xs: seq<nat>): nat
  {
    if xs == [] then 0 else Sum(xs[..|xs| - 1]) + xs[|xs| - 1]
  }

  // ---------------------------------------------------------------------------
  // The workload

  /** Why the workload panicked. */
  datatype Failure = CoreOutOfRange | FdUnset | OpenFailed | WriteFailed | PReadFailed | RemoveFailed

  /** How a call ended: normally, or by a panic for the given reason. */
  datatype Outcome = Completed | Aborted(failure: Failure)

  class Drbl {
    /** The directory of the scratch files. */
    const path: string
    /** The page written into each scratch file. */
    const page: seq<u8>
    /** The descriptor of each core's scratch file, -1 when there is none. */
    const fds: array<i32>

    /** `DRBL::default`. */
    constructor ()
      ensures path == "/mnt"
      ensures |page| == Fxmark.PAGE_SIZE && forall i :: 0 <= i < |page| ==> page[i] == 0x0b
      ensures fds.Length == FD_SLOTS && forall i :: 0 <= i < FD_SLOTS ==> fds[i] == -1
      ensures fresh(fds)
    {
      path := "/mnt";
      page := seq(Fxmark.PAGE_SIZE, _ => 0x0b);
      fds := new i32[FD_SLOTS](_ => -1);
    }

    /** One core's part of `init`: remove its old scratch file, create it
        again and write one page into it. */
    method Prepare(core: u64, os: Kernel) returns (fd: i32, outcome: Outcome, ghost calls: seq<Call>)
      modifies os
      ensures os.log == old(os.log) + calls
      ensures outcome == Completed ==> fd != -1 && SetupCalls(calls, FileName(path, core), page, fd)
      ensures outcome.Aborted? ==>
        outcome.failure in {OpenFailed, WriteFailed} && FailedSetup(calls, FileName(path, core), page, outcome.failure)
    {
      var name := FileName(path, core);
      var rc := os.Remove(name);
      fd := os.Open(name, OPEN_FLAGS, S_IRWXU);
      calls := [RemoveCall(name, rc), OpenCall(name, OPEN_FLAGS, S_IRWXU, fd)];
      if fd == -1 {
        outcome := Aborted(OpenFailed);
        return;
      }
      var len := |page|;
      var written := os.Write(fd, page);
      calls := calls + [WriteCall(fd, page, written)];
      outcome := if written != len then Aborted(WriteFailed) else Completed;
    }

    /** One iteration of `init`: prepare the core's scratch file, then
        keep its descriptor in the core's slot of the table. The ghost
        parameters are what the iterations before it did: on success the
        table, the descriptors and the calls each grow by this core's part. */
    method Install(core: u64, os: Kernel, ghost t0: seq<i32>, ghost done: seq<u64>, ghost descs: seq<i32>, ghost calls: seq<Call>)
      returns (fd: i32, outcome: Outcome, ghost step: seq<Call>)
      requires |t0| == fds.Length
      requires Progress(t0, fds[..], path, page, done, descs, calls)
      modifies fds, os
      ensures os.log == old(os.log) + step
      ensures outcome == Completed ==>
        Progress(t0, fds[..], path, page, done + [core], descs + [fd], calls + step)
      ensures outcome.Aborted? ==>
        && outcome.failure in {OpenFailed, WriteFailed, CoreOutOfRange}
        && FailedSetup(step, FileName(path, core), page, outcome.failure)
        && (outcome.failure == CoreOutOfRange ==> core >= fds.Length)
        && fds[..] == old(fds[..])
    {
      fd, outcome, step := Prepare(core, os);
      if outcome.Aborted? {
        return;
      }
      if core >= fds.Length as int {
        outcome := Aborted(CoreOutOfRange);
        return;
      }
      ghost var table := fds[..];
      fds[core] := fd;
      assert fds[..] == table[core := fd];
      InitStep(t0, table, path, page, done, descs, calls, core, fd, step);
    }

    /** `init`: for each core in list order, recreate its scratch file with
        one page and keep the descriptor in the core's slot of the table.
        `descs` holds the descriptors of the cores done before a panic;
        `calls` are their file calls and `tail` those of the core that
        panicked. */
    method Init(cores: seq<u64>, openFiles: usize, os: Kernel)
      returns (descs: seq<i32>, outcome: Outcome, ghost calls: seq<Call>, ghost tail: seq<Call>)
      modifies fds, os
      ensures os.log == old(os.log) + calls + tail
      ensures outcome == Completed <==> |descs| == |cores|
      ensures |descs| <= |cores|
      ensures Progress(old(fds[..]), fds[..], path, page, cores[..|descs|], descs, calls)
      ensures outcome == Completed ==> tail == []
      ensures outcome.Aborted? ==>
        && outcome.failure in {OpenFailed, WriteFailed, CoreOutOfRange}
        && FailedSetup(tail, FileName(path, cores[|descs|]), page, outcome.failure)
        && (outcome.failure == CoreOutOfRange ==> cores[|descs|] >= fds.Length)
    {
      descs, outcome, calls, tail := [], Completed, [], [];
      ghost var done: seq<u64> := [];
      ghost var t0 := fds[..];
      for i := 0 to |cores|
        invariant |descs| == i && outcome == Completed && done == cores[..i]
        invariant os.log == old(os.log) + calls && tail == []
        invariant Progress(t0, fds[..], path, page, done, descs, calls)
      {
        var fd;
        fd, outcome, tail := Install(cores[i], os, t0, done, descs, calls);
        if outcome.Aborted? {
          return;
        }
        TakeSnoc(cores, i);
        descs, calls, done, tail := descs + [fd], calls + tail, done + [cores[i]], [];
      }
    }

    /** `run`: look up the core's descriptor, then for `duration` seconds
        count the reads of the first page, checking the clock after every
        batch of 128; finally close and remove the scratch file. `calls` are
        the file calls it makes. The table is left as it was. */
    method Run(duration: u64, core: u64, writeRatio: usize, os: Kernel, clock: Clock)
      returns (iops: seq<nat>, outcome: Outcome, ghost calls: seq<Call>, ghost windows: seq<seq<nat>>)
      modifies os, clock
      ensures os.log == old(os.log) + calls
      ensures clock.readings == old(clock.readings) + Flat(windows)
      ensures outcome == Aborted(CoreOutOfRange) <==> core >= fds.Length
      ensures outcome == Aborted(FdUnset) <==> core < fds.Length && fds[core] == -1
      ensures outcome == Aborted(CoreOutOfRange) || outcome == Aborted(FdUnset) ==>
        iops == [] && calls == [] && windows == []
      ensures outcome.Aborted? ==>
        outcome.failure in {CoreOutOfRange, FdUnset, PReadFailed, RemoveFailed}
      ensures |iops| <= duration
      ensures forall k :: 0 <= k < |iops| ==> iops[k] % BATCH == 0
      ensures outcome == Aborted(PReadFailed) ==>
        && core < fds.Length
        && Failed(calls, fds[core])
        && |windows| == |iops| + 1 && Windows(windows[..|iops|], iops)
      ensures outcome == Completed || outcome == Aborted(RemoveFailed) ==>
        && core < fds.Length
        && |iops| == duration
        && Windows(windows, iops)
        && clock.now >= old(clock.now) + duration * Fxmark.NANOS_PER_SEC
        && |calls| == Sum(iops) + 2
        && FullReads(calls[..|calls| - 2], fds[core])
        && calls[|calls| - 2] == CloseCall(fds[core])
        && calls[|calls| - 1].RemoveCall?
        && calls[|calls| - 1].name == FileName(path, core)
        && (calls[|calls| - 1].rc == 0 <==> outcome == Completed)
    {
      iops, calls, windows := [], [], [];
      if core >= fds.Length as int {
        outcome := Aborted(CoreOutOfRange);
        return;
      }
      var fd := fds[core];
      if fd == -1 {
        outcome := Aborted(FdUnset);
        return;
      }
      iops, outcome, calls, windows := Seconds(duration, fd, os, clock);
      forall k | 0 <= k < |iops|
        ensures iops[k] % BATCH == 0
      {
        BatchedIndex(iops, k);
      }
      if outcome.Aborted? {
        return;
      }
      os.Close(fd);
      var rc := os.Remove(FileName(path, core));
      ghost var full := calls;
      calls := calls + [CloseCall(fd), RemoveCall(FileName(path, core), rc)];
      assert calls[..|calls| - 2] == full;
      outcome := if rc != 0 then Aborted(RemoveFailed) else Completed;
    }

    /** The countdown loop of `run`: one count per second, `secs` going down
        from `duration` to 0, every read on `fd`. `windows` are the clock
        readings of each second. */
    method Seconds(duration: u64, fd: i32, os: Kernel, clock: Clock)
      returns (iops: seq<nat>, outcome: Outcome, ghost calls: seq<Call>, ghost windows: seq<seq<nat>>)
      modifies os, clock
      ensures os.log == old(os.log) + calls
      ensures clock.readings == old(clock.readings) + Flat(windows)
      ensures outcome == Completed || outcome == Aborted(PReadFailed)
      ensures |iops| <= duration
      ensures Batched(iops)
      ensures outcome == Aborted(PReadFailed) ==>
        && Failed(calls, fd)
        && |windows| == |iops| + 1 && Windows(windows[..|iops|], iops)
      ensures outcome == Completed ==>
        && |iops| == duration
        && clock.now >= old(clock.now) + duration * Fxmark.NANOS_PER_SEC
        && Counted(iops, calls, fd)
        && Windows(windows, iops)
    {
      iops, outcome, calls, windows := [], Completed, [], [];
      var secs: u64 := duration;
      while secs > 0
        invariant secs <= duration && |iops| == duration - secs && outcome == Completed
        invariant os.log == old(os.log) + calls && Counted(iops, calls, fd)
        invariant Timed(old(clock.readings), clock.readings, windows, iops)
        invariant clock.now >= old(clock.now) + (duration - secs) * Fxmark.NANOS_PER_SEC
      {
        var ops;
        ghost var step, ticks;
        ops, outcome, step, ticks := Second(fd, os, clock);
        if outcome.Aborted? {
          FailedAfter(calls, step, fd);
          assert (windows + [ticks])[..|windows|] == windows;
          calls, windows := calls + step, windows + [ticks];
          return;
        }
        SecondStep(old(clock.readings), iops, calls, windows, fd, ops, step, ticks);
        iops, calls, windows := iops + [ops], calls + step, windows + [ticks];
        secs := secs - 1;
      }
    }

    /** One batch of 128 reads of the first page of `fd`, stopping at the
        first read that does not return a full page. */
    method Batch(fd: i32, os: Kernel) returns (outcome: Outcome, ghost calls: seq<Call>)
      modifies os
      ensures os.log == old(os.log) + calls
      ensures outcome == Completed || outcome == Aborted(PReadFailed)
      ensures outcome == Completed ==> |calls| == BATCH && FullReads(calls, fd)
      ensures outcome == Aborted(PReadFailed) ==> 1 <= |calls| <= BATCH && Failed(calls, fd)
    {
      outcome, calls := Completed, [];
      for i := 0 to BATCH
        invariant os.log == old(os.log) + calls && |calls| == i && FullReads(calls, fd)
      {
        var got := os.PRead(fd, Fxmark.PAGE_SIZE, 0);
        ghost var c := PReadCall(fd, Fxmark.PAGE_SIZE, 0, got);
        assert (calls + [c])[..|calls|] == calls;
        calls := calls + [c];
        if got != Fxmark.PAGE_SIZE {
          outcome := Aborted(PReadFailed);
          return;
        }
      }
    }

    /** One second of `run`: batches of 128 reads until the clock passes one
        second after the first reading; the count of reads done. `ticks`
        are the clock readings it takes. */
    method Second(fd: i32, os: Kernel, clock: Clock)
      returns (ops: nat, outcome: Outcome, ghost calls: seq<Call>, ghost ticks: seq<nat>)
      modifies os, clock
      ensures os.log == old(os.log) + calls
      ensures clock.readings == old(clock.readings) + ticks
      ensures outcome == Completed || outcome == Aborted(PReadFailed)
      ensures outcome == Completed ==>
        && Whole(calls, fd, ops) && Window(ticks, ops)
        && clock.now >= old(clock.now) + Fxmark.NANOS_PER_SEC
      ensures outcome == Aborted(PReadFailed) ==> Failed(calls, fd) && Cut(ticks, |calls|)
    {
      ops, outcome, calls := 0, Completed, [];
      var begin := clock.Now();
      var end := begin + Fxmark.NANOS_PER_SEC;
      var t := clock.Now();
      ghost var inside: seq<nat> := [];
      ticks := [begin, t];
      while t < end
        invariant clock.now == t && begin > old(clock.now) && end == begin + Fxmark.NANOS_PER_SEC
        invariant clock.readings == old(clock.readings) + ticks && Ticking(ticks, begin, inside, t)
        invariant os.log == old(os.log) + calls && outcome == Completed
        invariant Whole(calls, fd, ops) && ops == BATCH * |inside|
        decreases end - t
      {
        ghost var step;
        outcome, step := Batch(fd, os);
        if outcome.Aborted? {
          FailedAfter(calls, step, fd);
          calls := calls + step;
          CutAt(ticks, begin, inside, t, |calls|);
          return;
        }
        WholeStep(calls, step, fd, ops, |inside|);
        BeforeSnoc(inside, t, end);
        calls, ops := calls + step, ops + BATCH;
        inside := inside + [t];
        t := clock.Now();
        ticks := [begin] + inside + [t];
      }
      WindowAt(ticks, begin, inside, t, ops);
    }
  }

  /** `calls` are `ops` full reads of `fd`, a whole number of batches. */
  predicate Whole(calls: seq<Call>, fd: i32, ops: nat)
  {
    ops % BATCH == 0 && |calls| == ops && FullReads(calls, fd)
  }

  /** One more batch of full reads. */
  lemma WholeStep(calls: seq<Call>, step: seq<Call>, fd: i32, ops: nat, k: nat)
    requires Whole(calls, fd, ops) && ops == BATCH * k
    requires |step| == BATCH && FullReads(step, fd)
    ensures Whole(calls + step, fd, ops + BATCH) && ops + BATCH == BATCH * (k + 1)
  {
    FullReadsAppend(calls, step, fd);
  }

  /** The readings `ts` of a second so far: `begin`, then the readings
      `inside` the window, each followed by a batch, then the latest, `t`. */
  predicate Ticking(ts: seq<nat>, begin: nat, inside: seq<nat>, t: nat)
  {
    ts == [begin] + inside + [t] && Before(inside, begin + Fxmark.NANOS_PER_SEC)
  }

  /** Every reading of `ts` is before `end`. */
  predicate Before(ts: seq<nat>, end: nat)
  {
    ts != [] ==> Before(ts[..|ts| - 1], end) && ts[|ts| - 1] < end
  }

  lemma {:induction false} BeforeIndex(ts: seq<nat>, end: nat, k: nat)
    requires Before(ts, end) && k < |ts|
    ensures ts[k] < end
  {
    if k < |ts| - 1 {
      BeforeIndex(ts[..|ts| - 1], end, k);
    }
  }

  /** The clock readings `ts` of one second that counted `ops` reads: the
      first reading opens the window, every later reading but the last
      falls inside it and is followed by one batch, and the last reading is
      past it. */
  predicate Window(ts: seq<nat>, ops: nat)
  {
    && |ts| >= 2
    && ops == BATCH * (|ts| - 2)
    && Before(ts[1..|ts| - 1], ts[0] + Fxmark.NANOS_PER_SEC)
    && ts[|ts| - 1] >= ts[0] + Fxmark.NANOS_PER_SEC
  }

  /** Each count of `iops` was timed by the readings of the same index of `ws`. */
  predicate Windows(ws: seq<seq<nat>>, iops: seq<nat>)
  {
    && |ws| == |iops|
    && (ws != [] ==> Windows(ws[..|ws| - 1], iops[..|iops| - 1]) && Window(ws[|ws| - 1], iops[|iops| - 1]))
  }

  /** The readings of all the seconds, in order. */
  function Flat(ws: seq<seq<nat>>): seq<nat>
  {
    if ws == [] then [] else Flat(ws[..|ws| - 1]) + ws[|ws| - 1]
  }

  /** The clock readings since `r0` are those of the seconds `ws`, each
      of which timed the count of the same index of `iops`. */
  predicate Timed(r0: seq<nat>, r: seq<nat>, ws: seq<seq<nat>>, iops: seq<nat>)
  {
    r == r0 + Flat(ws) && Windows(ws, iops)
  }

  lemma BeforeSnoc(ts: seq<nat>, t: nat, end: nat)
    requires Before(ts, end) && t < end
    ensures Before(ts + [t], end)
  {
    assert (ts + [t])[..|ts|] == ts;
  }

  /** A second whose latest reading `t` is past the window, with one batch
      for each reading inside. */
  lemma WindowAt(ts: seq<nat>, begin: nat, inside: seq<nat>, t: nat, ops: nat)
    requires Ticking(ts, begin, inside, t) && t >= begin + Fxmark.NANOS_PER_SEC
    requires ops == BATCH * |inside|
    ensures Window(ts, ops)
  {
    assert ts[1..|ts| - 1] == inside;
  }

  /** A second that failed in the batch after reading `t`, still inside
      the window. */
  lemma CutAt(ts: seq<nat>, begin: nat, inside: seq<nat>, t: nat, n: nat)
    requires Ticking(ts, begin, inside, t) && t < begin + Fxmark.NANOS_PER_SEC
    requires BATCH * |inside| < n <= BATCH * |inside| + BATCH
    ensures Cut(ts, n)
  {
    BeforeSnoc(inside, t, begin + Fxmark.NANOS_PER_SEC);
    assert ts[1..] == inside + [t];
    assert BATCH * (|inside| + 1) == BATCH * |inside| + BATCH;
  }

  /** One more second counted and timed. */
  lemma SecondStep(r0: seq<nat>, iops: seq<nat>, calls: seq<Call>, ws: seq<seq<nat>>, fd: i32,
                   ops: nat, step: seq<Call>, ts: seq<nat>)
    requires Counted(iops, calls, fd) && Timed(r0, r0 + Flat(ws), ws, iops)
    requires Whole(step, fd, ops) && Window(ts, ops)
    ensures Counted(iops + [ops], calls + step, fd)
    ensures Timed(r0, r0 + Flat(ws) + ts, ws + [ts], iops + [ops])
  {
    FullReadsAppend(calls, step, fd);
    SumSnoc(iops, ops);
    assert (ws + [ts])[..|ws|] == ws && (iops + [ops])[..|iops|] == iops;
  }

  /** The clock readings `ts` of a second in which a read failed after `n`
      reads: every reading after the first was inside the window, and the
      failing read belongs to the batch of the last one. */
  predicate Cut(ts: seq<nat>, n: nat)
  {
    && |ts| >= 2
    && Before(ts[1..], ts[0] + Fxmark.NANOS_PER_SEC)
    && BATCH * (|ts| - 2) < n <= BATCH * (|ts| - 1)
  }

  /** Second `k` counted one batch for every reading inside its window. */
  lemma {:induction false} WindowsIndex(ws: seq<seq<nat>>, iops: seq<nat>, k: nat)
    requires Windows(ws, iops) && k < |iops|
    ensures Window(ws[k], iops[k])
  {
    if k < |iops| - 1 {
      WindowsIndex(ws[..|ws| - 1], iops[..|iops| - 1], k);
    }
  }

  /** Over a whole run, the reads are 128 per clock reading, less the two
      readings of every second that start no batch. */
  lemma {:induction false} WindowsReadings(ws: seq<seq<nat>>, iops: seq<nat>)
    requires Windows(ws, iops)
    ensures |Flat(ws)| >= 2 * |ws| && Sum(iops) == BATCH * (|Flat(ws)| - 2 * |ws|)
  {
    if ws != [] {
      WindowsReadings(ws[..|ws| - 1], iops[..|iops| - 1]);
    }
  }

  /** The counts `iops` account for the calls: every call is a full read of
      `fd`, every count is a whole number of batches, and they add up to the
      number of reads. */
  predicate Counted(iops: seq<nat>, calls: seq<Call>, fd: i32)
  {
    Batched(iops) && FullReads(calls, fd) && |calls| == Sum(iops)
  }

  /** Every count of `xs` is a whole number of batches. */
  predicate Batched(xs: seq<nat>)
  {
    xs != [] ==> Batched(xs[..|xs| - 1]) && xs[|xs| - 1] % BATCH == 0
  }

  lemma {:induction false} BatchedIndex(xs: seq<nat>, k: nat)
    requires Batched(xs) && k < |xs|
    ensures xs[k] % BATCH == 0
  {
    if k < |xs| - 1 {
      BatchedIndex(xs[..|xs| - 1], k);
    }
  }

  lemma SumSnoc(xs: seq<nat>, x: nat)
    ensures Sum(xs + [x]) == Sum(xs) + x
  {
    assert (xs + [x])[..|xs|] == xs;
  }

  /** Full reads followed by a failed stretch is a failed stretch. */
  lemma FailedAfter(a: seq<Call>, b: seq<Call>, fd: i32)
    requires FullReads(a, fd) && Failed(b, fd)
    ensures Failed(a + b, fd)
  {
    FullReadsAppend(a, b[..|b| - 1], fd);
    assert (a + b)[..|a + b| - 1] == a + b[..|b| - 1];
  }

  /** Two stretches of full reads make one. */
  lemma {:induction false} FullReadsAppend(a: seq<Call>, b: seq<Call>, fd: i32)
    requires FullReads(a, fd) && FullReads(b, fd)
    ensures FullReads(a + b, fd)
  {
    if b != [] {
      FullReadsAppend(a, b[..|b| - 1], fd);
      assert (a + b)[..|a + b| - 1] == a + b[..|b| - 1];
    } else {
      assert a + b == a;
    }
  }
}
