/** Handing a result over: the spool file with its marker (result_path_client.cpp), and the command FIFO with its
    back-off (fifo_client.cpp). */
module Writers {
  import opened Printers
  import opened Runs
  import SpoolIndex

  // ---- Writing the spool file ---------------------------------------------------------------------------

  /** `snprintf` the `n`-th line of `all` into the scratch buffer and append it. */
  method Append(fbuf: string, line: string, ghost all: seq<string>, ghost n: nat) returns (longer: string)
    requires n < |all| && all[n] == line && fbuf == Unlines(all[..n]) && |line| + 1 < SPOOL_BUFFER
    ensures longer == Unlines(all[..n + 1])
  {
    UnlinesSnoc(all[..n], line);
    assert all[..n] + [line] == all[..n + 1];
    longer := fbuf + Snprintf(line + "\n", SPOOL_BUFFER);
  }

  /** Where each line of the file stands; a service takes one more line. */
  predicate Laid(all: seq<string>, r: Result, date: string, s: nat) {
    && |all| == 15 + s && s == (if r.service != "" then 1 else 0)
    && all[0] == "### NSCA Passive Check Result ###" && all[1] == "# Time: " + date
    && all[2] == "file_time=" + Decimal(r.time) && all[3] == "" && all[4] == Title(r)
    && all[5] == "host_name=" + r.host && (s == 1 ==> all[6] == "service_description=" + r.service)
    && all[6 + s..12 + s] == Fixed(r)
    && all[12 + s] == "return_code=" + Decimal(r.code) && all[13 + s] == "output=" + r.output && all[14 + s] == ""
    && forall i :: 0 <= i < |all| ==> |all[i]| + 1 < SPOOL_BUFFER
  }

  lemma SpoolLaid(r: Result, date: string)
    requires InRange(r) && |date| <= 25
    ensures Laid(SpoolLines(r, date), r, date, if r.service != "" then 1 else 0)
  {
    SpoolFits(r, date);
  }

  /** The whole text, line by line, as `write_result` puts it together. */
  method BuildText(r: Result, date: string) returns (fbuf: string)
    requires InRange(r) && |date| <= 25
    ensures fbuf == Unlines(SpoolLines(r, date))
  {
    SpoolLaid(r, date);
    ghost var all, s := SpoolLines(r, date), if r.service != "" then 1 else 0;
    fbuf := AppendHead(r, date, all, s);
    fbuf := AppendFixed(fbuf, r, all, 6 + s);
    fbuf := AppendTail(fbuf, r, date, all, s);
    assert all[..15 + s] == all;
  }

  method AppendHead(r: Result, date: string, ghost all: seq<string>, ghost s: nat) returns (fbuf: string)
    requires Laid(all, r, date, s)
    ensures fbuf == Unlines(all[..6 + s])
  {
    fbuf := Append("", "### NSCA Passive Check Result ###", all, 0);
    fbuf := Append(fbuf, "# Time: " + date, all, 1);
    fbuf := Append(fbuf, "file_time=" + Decimal(r.time), all, 2);
    fbuf := Append(fbuf, "", all, 3);
    fbuf := Append(fbuf, "### " + (if r.service != "" then "Service" else "Host") + " Check Result ###", all, 4);
    fbuf := Append(fbuf, "host_name=" + r.host, all, 5);
    if |r.service| > 0 {
      fbuf := Append(fbuf, "service_description=" + r.service, all, 6);
    }
  }

  method AppendFixed(fbuf: string, r: Result, ghost all: seq<string>, ghost n: nat) returns (longer: string)
    requires n + 6 <= |all| && all[n..n + 6] == Fixed(r) && fbuf == Unlines(all[..n])
    requires forall i :: 0 <= i < |all| ==> |all[i]| + 1 < SPOOL_BUFFER
    ensures longer == Unlines(all[..n + 6])
  {
    ghost var fixed := all[n..n + 6];
    assert fixed[0] == all[n] && fixed[1] == all[n + 1] && fixed[2] == all[n + 2];
    assert fixed[3] == all[n + 3] && fixed[4] == all[n + 4] && fixed[5] == all[n + 5];
    longer := Append(fbuf, "check_type=1", all, n);
    longer := Append(longer, "scheduled_check=0", all, n + 1);
    longer := Append(longer, "reschedule_check=0", all, n + 2);
    longer := Append(longer, "latency=0", all, n + 3);
    longer := Append(longer, "start_time=" + Decimal(r.time) + ".0", all, n + 4);
    longer := Append(longer, "finish_time=" + Decimal(r.time) + ".0", all, n + 5);
  }

  method AppendTail(fbuf: string, r: Result, date: string, ghost all: seq<string>, ghost s: nat)
    returns (longer: string)
    requires Laid(all, r, date, s) && fbuf == Unlines(all[..12 + s])
    ensures longer == Unlines(all[..15 + s])
  {
    longer := Append(fbuf, "return_code=" + Decimal(r.code), all, 12 + s);
    longer := Append(longer, "output=" + r.output, all, 13 + s);
    longer := Append(longer, "", all, 14 + s);
  }

  /** The first `n` characters, or all there are. */
  function FirstOf(text: string, n: nat): (t: string)
    ensures t <= text && |t| <= n && (|t| == n || t == text)
  {
    if n < |text| then text[..n] else text
  }

  /** How the file operations of one `write_result` turn out: `fd` is what `mkstemp` returns, `written` whether `fwrite`
      takes everything, and `flushed` how much has reached the file when `fclose`, whose result is ignored, returns. */
  datatype Disk = Disk(fd: int, stream: bool, written: bool, flushed: nat, marked: bool)

  /** What one call leaves in the directory: nothing, an empty file without a marker that no reader will pick up, or a
      file with its marker. */
  datatype File = NoFile | Stray | Marked(text: string)

  /** The gate of `client` comes first: while its last check has closed it nothing is attempted. From the moment the
      file can be opened the return code is 0. A marked file is left behind exactly if `fwrite` takes everything and
      the .ok marker can be created, and it holds the whole text exactly if closing it flushes all. If the write or the
      marker fails the file is unlinked, and the caller still counts a success. If `fdopen` fails, or the descriptor is
      0, the file that `mkstemp` has made stays. */
  method WriteResult(client: SpoolIndex.ResultPathClient, r: Result, date: string, disk: Disk)
    returns (rc: int, file: File)
    requires InRange(r) && |date| <= 25
    ensures rc == -5 <==> !client.writeEnabled
    ensures rc == -4 <==> client.writeEnabled && disk.fd == 0
    ensures rc == -2 <==> client.writeEnabled && disk.fd > 0 && !disk.stream
    ensures rc == -1 <==> client.writeEnabled && disk.fd < 0
    ensures rc == 0 <==> client.writeEnabled && disk.fd > 0 && disk.stream
    ensures file.Marked? <==> rc == 0 && disk.written && disk.marked
    ensures file.Marked? ==> file.text == FirstOf(Unlines(SpoolLines(r, date)), disk.flushed)
    ensures file == Marked(Unlines(SpoolLines(r, date))) <==>
              rc == 0 && disk.written && disk.marked && |Unlines(SpoolLines(r, date))| <= disk.flushed
    ensures file == Stray <==> rc in {-2, -4}
  {
    if !client.writeEnabled {
      return -5, NoFile;
    }
    if disk.fd == 0 {
      return -4, Stray;
    }
    if disk.fd > 0 {
      if !disk.stream {
        return -2, Stray;
      }
    } else {
      return -1, NoFile;
    }
    var fbuf := BuildText(r, date);
    if !disk.written || !disk.marked {
      return 0, NoFile;
    }
    return 0, Marked(FirstOf(fbuf, disk.flushed));
  }

  // ---- The FIFO client ----------------------------------------------------------------------------------

  /** `blockUntil` is block_fifo_until, `fp` whether there is a stream. */
  datatype Fifo = Fifo(fd: int, fp: bool, blockUntil: int)

  const CLOSED := Fifo(-1, false, 0)

  /** How an attempt to open the FIFO turns out. */
  datatype Opening = NoStat | NotFifo | NoReader | Missing | Denied | OtherError | NoStream(fd: nat) | Opened(fd: nat)

  /** `init_events`. */
  function InitEvents(f: Fifo, now: int, o: Opening): Fifo {
    if f.fd >= 0 then f else
      match o
      case NoStat | NotFifo => f.(blockUntil := now + 60)
      case NoReader => f.(blockUntil := now + 3)
      case Missing | Denied => f.(blockUntil := now + 10)
      case OtherError => f
      case NoStream(fd) => Fifo(fd, false, 0)
      case Opened(fd) => Fifo(fd, true, 0)
  }

  /** What `write` returns: EPIPE, another error, or a number of characters. */
  datatype Writing = Broken | Error | Wrote(n: nat)

  /** `command`: the new state and the return code. */
  function Command(f: Fifo, now: int, o: Opening, w: Writing): (Fifo, int) {
    if f.blockUntil > now then (f, -1) else
      var g := InitEvents(f, now, o);
      if !g.fp then (g, -1) else
        match w
        case Broken => (g.(fd := -1, fp := false), -1)
        case Error => (g, -1)
        case Wrote(n) => (g, if n > 0 then 0 else -1)
  }

  /** How long a failed attempt keeps the client from trying again, in seconds. */
  function Delay(o: Opening): nat {
    match o
    case NoStat | NotFifo => 60
    case NoReader => 3
    case Missing | Denied => 10
    case _ => 0
  }

  /** A failed attempt is not repeated before its time is over, and then it is. An error that `open` has no case for is
      retried at once. */
  lemma BacksOff(f: Fifo, now: int, later: int, o: Opening, w: Writing, fd: nat, n: nat)
    requires f.fd < 0 && !f.fp && f.blockUntil <= now <= later && Delay(o) > 0 && n > 0
    ensures var failed := Command(f, now, o, w);
      && failed.1 == -1
      && (later < now + Delay(o) ==> Command(failed.0, later, Opened(fd), Wrote(n)) == (failed.0, -1))
      && (later >= now + Delay(o) ==> Command(failed.0, later, Opened(fd), Wrote(n)).1 == 0)
  {
  }

  /** A broken pipe costs one command: the stream is given up, and a reader that has come back gets the next one. No
      other outcome of `write` changes anything. */
  lemma BrokenPipe(f: Fifo, now: int, later: int, o: Opening, w: Writing, fd: nat, n: nat)
    requires f.fp && f.fd >= 0 && f.blockUntil <= now <= later && n > 0
    ensures var broken := Command(f, now, o, Broken);
      broken.1 == -1 && broken.0.fd < 0 && !broken.0.fp
      && Command(broken.0, later, Opened(fd), Wrote(n)) == (Fifo(fd, true, 0), 0)
    ensures !w.Broken? ==> Command(f, now, o, w) == (f, if w.Wrote? && w.n > 0 then 0 else -1)
  {
  }

  /** A descriptor without a stream: `fdopen` failed, and nobody reset the descriptor. */
  predicate Wedged(f: Fifo) {
    f.fd >= 0 && !f.fp
  }

  datatype Call = Call(now: int, o: Opening, w: Writing)

  function AfterCall(f: Fifo, c: Call): Fifo {
    Command(f, c.now, c.o, c.w).0
  }

  /** The client gets stuck exactly when an attempt to open fails in `fdopen`; otherwise descriptor and stream go
      together. */
  lemma WedgedBy(f: Fifo, c: Call)
    requires f.fp ==> f.fd >= 0
    ensures Wedged(AfterCall(f, c)) <==> Wedged(f) || (f.blockUntil <= c.now && f.fd < 0 && c.o.NoStream?)
    ensures AfterCall(f, c).fp ==> AfterCall(f, c).fd >= 0
  {
  }

  /** And from then on no command is ever written again, whatever happens to the FIFO. */
  lemma WedgedForGood(f: Fifo, calls: seq<Call>, c: Call)
    requires Wedged(f)
    ensures Fold(AfterCall, f, calls) == f && Command(f, c.now, c.o, c.w) == (f, -1)
  {
    FoldKeeps(AfterCall, (g: Fifo) => g == f, f, calls);
  }

  /** The failed attempt whose delay `f` still keeps, if any: the only thing that ever blocks a client. */
  predicate BlockedBy(f: Fifo, calls: seq<Call>, i: nat) {
    i < |calls| && Delay(calls[i].o) > 0 && f.blockUntil == calls[i].now + Delay(calls[i].o)
  }

  /** In every run a client with a descriptor is not blocked, and one without is blocked by a failed attempt or not at
      all. */
  lemma {:induction false} OnlyFailuresBlock(calls: seq<Call>)
    ensures var f := Fold(AfterCall, CLOSED, calls);
      && (f.fp ==> f.fd >= 0)
      && (f.fd >= 0 ==> f.blockUntil == 0)
      && (f.blockUntil != 0 ==> exists i: nat :: BlockedBy(f, calls, i))
    decreases |calls|
  {
    if calls == [] {
    } else {
      var init, last := calls[..|calls| - 1], |calls| - 1;
      OnlyFailuresBlock(init);
      var g, f := Fold(AfterCall, CLOSED, init), Fold(AfterCall, CLOSED, calls);
      assert f == AfterCall(g, calls[last]);
      if f.blockUntil != 0 {
        if f.blockUntil == g.blockUntil {
          var i: nat :| BlockedBy(g, init, i);
          assert BlockedBy(f, calls, i);
        } else {
          assert BlockedBy(f, calls, last);
        }
      }
    }
  }

  /** So once the FIFO is open every command is written at once, whatever failed before. */
  lemma OpenWrites(calls: seq<Call>, now: nat, o: Opening, n: nat)
    requires Fold(AfterCall, CLOSED, calls).fp && n > 0
    ensures Command(Fold(AfterCall, CLOSED, calls), now, o, Wrote(n)) == (Fold(AfterCall, CLOSED, calls), 0)
  {
    OnlyFailuresBlock(calls);
  }

  /** Without that failure the client always recovers: when the back-off is over, one good opening and one write of any
      length deliver again. */
  lemma Recovers(calls: seq<Call>, now: int, fd: nat, n: nat)
    requires forall i :: 0 <= i < |calls| ==> !calls[i].o.NoStream?
    requires Fold(AfterCall, CLOSED, calls).blockUntil <= now && n > 0
    ensures Command(Fold(AfterCall, CLOSED, calls), now, Opened(fd), Wrote(n)).1 == 0
  {
    NeverWedged(calls);
  }

  lemma {:induction false} NeverWedged(calls: seq<Call>)
    requires forall i :: 0 <= i < |calls| ==> !calls[i].o.NoStream?
    ensures var f := Fold(AfterCall, CLOSED, calls); f.fp <==> f.fd >= 0
    decreases |calls|
  {
    if calls == [] {
    } else {
      NeverWedged(calls[..|calls| - 1]);
    }
  }

  class FifoClient {
    var fd: int
    var fp: bool
    var blockFifoUntil: int

    ghost function State(): Fifo
      reads this
    {
      Fifo(fd, fp, blockFifoUntil)
    }

    constructor ()
      ensures State() == CLOSED
    {
      fd, fp, blockFifoUntil := -1, false, 0;
    }

    method Init(now: int, o: Opening) returns (rc: int)
      modifies this
      ensures State() == InitEvents(old(State()), now, o)
      ensures rc == 0 <==> old(fd) < 0 && (o.NoStream? || o.Opened?)
      ensures rc in {0, -1}
    {
      if fd >= 0 {
        return -1;
      }
      match o
      case NoStat | NotFifo =>
        blockFifoUntil := now + 60;
        return -1;
      case NoReader =>
        blockFifoUntil := now + 3;
        return -1;
      case Missing | Denied =>
        blockFifoUntil := now + 10;
        return -1;
      case OtherError =>
        return -1;
      case NoStream(got) =>
        fd, fp, blockFifoUntil := got, false, 0;
        return 0;
      case Opened(got) =>
        fd, fp, blockFifoUntil := got, true, 0;
        return 0;
    }

    /** `piped` is what the pipe takes of the line that is handed to `write`. Any part of it counts as success. */
    method Submit(now: int, r: Result, o: Opening, w: Writing) returns (rc: int, piped: string)
      requires InRange(r)
      modifies this
      ensures (State(), rc) == Command(old(State()), now, o, w)
      ensures piped == if old(blockFifoUntil) <= now && InitEvents(old(State()), now, o).fp && w.Wrote?
                       then FirstOf(FifoLine(r), w.n) else ""
      ensures rc in {0, -1} && (rc == 0 <==> piped != "")
      ensures rc == 0 ==> (piped == FifoLine(r) <==> w.n >= |FifoLine(r)|)
    {
      piped := "";
      if blockFifoUntil > now {
        return -1, piped;
      }
      var ready := Init(now, o);
      if !fp {
        return -1, piped;
      }
      FifoFits(r);
      var line := Snprintf(FifoLine(r), FIFO_BUFFER);
      match w
      case Broken =>
        fd, fp := -1, false;
        return -1, piped;
      case Error =>
        return -1, piped;
      case Wrote(n) =>
        piped := FirstOf(line, n);
        return if n > 0 then 0 else -1, piped;
    }
  }
}
