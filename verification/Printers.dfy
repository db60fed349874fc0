/** The two texts a check result is written as: a line for the command FIFO (fifo_client.cpp) and a file for the spool
    directory (result_path_client.cpp), and what a reader gets back from either. */
module Printers {
  import opened Bytes

  /** A check result as the monitoring core understands it; an empty service makes it a host check. */
  datatype Result = Result(time: nat, host: string, service: string, code: nat, output: string)

  /** What the wire format and the clock allow. */
  predicate InRange(r: Result) {
    && r.time < 0x8000_0000_0000_0000 && r.code < 0x1_0000
    && |r.host| <= 63 && |r.service| <= 127 && |r.output| <= 4095
  }

  /** No field contains a character that ends it. */
  predicate Clean(r: Result) {
    && ';' !in r.host && ';' !in r.service
    && '\n' !in r.host && '\n' !in r.service && '\n' !in r.output
  }

  // ---- Decimal numbers ----------------------------------------------------------------------------------

  const DIGITS := "0123456789"

  function Decimal(n: nat): (s: string)
    ensures s != []
    decreases n
  {
    if n < 10 then [DIGITS[n]] else Decimal(n / 10) + [DIGITS[n % 10]]
  }

  predicate IsDigit(c: char) {
    '0' <= c <= '9'
  }

  function ParseDecimal(s: string): Option<nat>
    decreases |s|
  {
    if s == [] || !IsDigit(s[|s| - 1]) then None else
      var last := s[|s| - 1] as int - '0' as int;
      if |s| == 1 then Some(last) else
        var front := ParseDecimal(s[..|s| - 1]);
        if front.None? then None else Some(10 * front.value + last)
  }

  lemma {:induction false} DecimalDigits(n: nat)
    ensures forall i :: 0 <= i < |Decimal(n)| ==> IsDigit(Decimal(n)[i])
    decreases n
  {
    DigitValue(n % 10);
    if n < 10 {
    } else {
      DecimalDigits(n / 10);
    }
  }

  lemma DigitValue(d: nat)
    requires d < 10
    ensures IsDigit(DIGITS[d]) && DIGITS[d] as int - '0' as int == d
  {
  }

  lemma {:induction false} DecimalParses(n: nat)
    ensures ParseDecimal(Decimal(n)) == Some(n)
    decreases n
  {
    DigitValue(n % 10);
    if n < 10 {
    } else {
      DecimalParses(n / 10);
      assert Decimal(n)[..|Decimal(n)| - 1] == Decimal(n / 10);
    }
  }

  function Power(k: nat): nat {
    if k == 0 then 1 else 10 * Power(k - 1)
  }

  lemma {:induction false} DecimalLength(n: nat, k: nat)
    requires k > 0 && n < Power(k)
    ensures |Decimal(n)| <= k
    decreases k
  {
    if n < 10 {
    } else {
      assert k > 1 by { PowerOne(); }
      DecimalLength(n / 10, k - 1);
    }
  }

  lemma PowerOne()
    ensures Power(1) == 10
  {
  }

  // ---- Cutting text -------------------------------------------------------------------------------------

  /** A field, the character that ends it, and what follows. */
  function Field(a: string, c: char, rest: string): string {
    a + [c] + rest
  }

  /** Split at the first `c`. */
  function Cut(s: string, c: char): Option<(string, string)> {
    if s == [] then None
    else if s[0] == c then Some(("", s[1..]))
    else
      var rest := Cut(s[1..], c);
      if rest.None? then None else Some(([s[0]] + rest.value.0, rest.value.1))
  }

  lemma {:induction false} CutField(a: string, c: char, rest: string)
    requires c !in a
    ensures Cut(Field(a, c, rest), c) == Some((a, rest))
    decreases |a|
  {
    var s := Field(a, c, rest);
    if a == [] {
      assert s[0] == c && s[1..] == rest;
    } else {
      CutField(a[1..], c, rest);
      assert s[0] == a[0] && s[1..] == Field(a[1..], c, rest);
      assert [a[0]] + a[1..] == a;
    }
  }

  /** What `snprintf` leaves in a buffer of `size` characters. */
  function Snprintf(text: string, size: nat): (t: string)
    requires size > 0
    ensures t <= text && |t| < size && (|t| == size - 1 || t == text)
  {
    if |text| < size then text else text[..size - 1]
  }

  // ---- The FIFO line ------------------------------------------------------------------------------------

  const FIFO_BUFFER := 64 + 128 + 4096 + 256
  const SERVICE_COMMAND := "PROCESS_SERVICE_CHECK_RESULT"
  const HOST_COMMAND := "PROCESS_HOST_CHECK_RESULT"

  function FifoTail(r: Result): string {
    Field(Decimal(r.code), ';', Field(r.output, '\n', ""))
  }

  function FifoCommand(r: Result): string {
    if r.service != "" then Field(SERVICE_COMMAND, ';', Field(r.host, ';', Field(r.service, ';', FifoTail(r))))
    else Field(HOST_COMMAND, ';', Field(r.host, ';', FifoTail(r)))
  }

  function FifoLine(r: Result): string {
    "[" + Field(Decimal(r.time), ']', " " + FifoCommand(r))
  }

  function ParseTail(time: nat, host: string, service: string, s: string): Option<Result> {
    var code := Cut(s, ';');
    if code.None? then None else
      var number, output := ParseDecimal(code.value.0), Cut(code.value.1, '\n');
      if number.None? || output.None? || output.value.1 != "" then None
      else Some(Result(time, host, service, number.value, output.value.0))
  }

  function ParseCommand(time: nat, s: string): Option<Result> {
    var command := Cut(s, ';');
    if command.None? then None else
      var host := Cut(command.value.1, ';');
      if host.None? then None
      else if command.value.0 == HOST_COMMAND then ParseTail(time, host.value.0, "", host.value.1)
      else if command.value.0 == SERVICE_COMMAND then
        var service := Cut(host.value.1, ';');
        if service.None? || service.value.0 == "" then None
        else ParseTail(time, host.value.0, service.value.0, service.value.1)
      else None
  }

  /** A reader of the command FIFO. */
  function ParseFifo(s: string): Option<Result> {
    if s == "" || s[0] != '[' then None else
      var time := Cut(s[1..], ']');
      if time.None? || time.value.1 == "" || time.value.1[0] != ' ' then None else
        var number := ParseDecimal(time.value.0);
        if number.None? then None else ParseCommand(number.value, time.value.1[1..])
  }

  lemma DecimalLacks(n: nat, c: char)
    requires !IsDigit(c)
    ensures c !in Decimal(n)
  {
    DecimalDigits(n);
  }

  lemma TailParses(r: Result, time: nat, service: string)
    requires '\n' !in r.output
    ensures ParseTail(time, r.host, service, FifoTail(r)) == Some(Result(time, r.host, service, r.code, r.output))
  {
    DecimalLacks(r.code, ';');
    CutField(Decimal(r.code), ';', Field(r.output, '\n', ""));
    DecimalParses(r.code);
    CutField(r.output, '\n', "");
  }

  lemma CommandNames()
    ensures ';' !in SERVICE_COMMAND && ';' !in HOST_COMMAND && SERVICE_COMMAND != HOST_COMMAND
    ensures |SERVICE_COMMAND| == 28 && |HOST_COMMAND| == 25
  {
    assert SERVICE_COMMAND[8] != HOST_COMMAND[8];
  }

  lemma CommandParses(r: Result)
    requires Clean(r)
    ensures ParseCommand(r.time, FifoCommand(r)) == Some(r)
  {
    CommandNames();
    TailParses(r, r.time, r.service);
    if r.service != "" {
      CutField(SERVICE_COMMAND, ';', Field(r.host, ';', Field(r.service, ';', FifoTail(r))));
      CutField(r.host, ';', Field(r.service, ';', FifoTail(r)));
      CutField(r.service, ';', FifoTail(r));
    } else {
      CutField(HOST_COMMAND, ';', Field(r.host, ';', FifoTail(r)));
      CutField(r.host, ';', FifoTail(r));
    }
  }

  /** A reader of the FIFO gets back the very result that was written. */
  lemma FifoRoundTrip(r: Result)
    requires Clean(r)
    ensures ParseFifo(FifoLine(r)) == Some(r)
  {
    var command := FifoCommand(r);
    DecimalLacks(r.time, ']');
    CutField(Decimal(r.time), ']', " " + command);
    DecimalParses(r.time);
    CommandParses(r);
    assert FifoLine(r)[1..] == Field(Decimal(r.time), ']', " " + command);
    assert (" " + command)[1..] == command;
  }

  lemma NumberLengths(r: Result)
    requires InRange(r)
    ensures |Decimal(r.time)| <= 19 && |Decimal(r.code)| <= 5
  {
    assert Power(5) == 100_000;
    assert Power(9) == 1_000_000_000;
    assert Power(13) == 10_000_000_000_000;
    assert Power(17) == 100_000_000_000_000_000;
    assert Power(19) == 10_000_000_000_000_000_000;
    DecimalLength(r.time, 19);
    DecimalLength(r.code, 5);
  }

  /** The line always fits, so `snprintf` never truncates it. */
  lemma FifoFits(r: Result)
    requires InRange(r)
    ensures |FifoLine(r)| <= 4345 && Snprintf(FifoLine(r), FIFO_BUFFER) == FifoLine(r)
  {
    NumberLengths(r);
    CommandNames();
  }

  // ---- The spool file -----------------------------------------------------------------------------------

  const SPOOL_BUFFER := 4096 + 512

  function Unlines(lines: seq<string>): string {
    if lines == [] then "" else Field(lines[0], '\n', Unlines(lines[1..]))
  }

  lemma {:induction false} UnlinesSnoc(lines: seq<string>, line: string)
    ensures Unlines(lines + [line]) == Unlines(lines) + line + "\n"
    decreases |lines|
  {
    if lines == [] {
      assert lines + [line] == [line];
      assert [line][1..] == [];
    } else {
      UnlinesSnoc(lines[1..], line);
      assert (lines + [line])[1..] == lines[1..] + [line];
    }
  }

  function Title(r: Result): string {
    "### " + (if r.service != "" then "Service" else "Host") + " Check Result ###"
  }

  function Fixed(r: Result): seq<string> {
    ["check_type=1", "scheduled_check=0", "reschedule_check=0", "latency=0",
     "start_time=" + Decimal(r.time) + ".0", "finish_time=" + Decimal(r.time) + ".0"]
  }

  function KeyLine(key: string, value: string): string {
    key + "=" + value
  }

  function ServiceLines(r: Result): seq<string> {
    if r.service != "" then [KeyLine("service_description", r.service)] else []
  }

  /** The lines of the file; `date` is what `ctime` says. */
  function SpoolLines(r: Result, date: string): seq<string> {
    ["### NSCA Passive Check Result ###", "# Time: " + date]
    + ([KeyLine("file_time", Decimal(r.time))] + AfterTime(r))
  }

  function AfterTime(r: Result): seq<string> {
    ["", Title(r)] + ([KeyLine("host_name", r.host)] + AfterHost(r))
  }

  function AfterHost(r: Result): seq<string> {
    ServiceLines(r) + (Fixed(r) + AfterFixed(r))
  }

  function AfterFixed(r: Result): seq<string> {
    [KeyLine("return_code", Decimal(r.code))] + ([KeyLine("output", r.output)] + [""])
  }

  predicate HasKey(line: string, key: string) {
    key + "=" <= line
  }

  /** The value on the first line that has the key. */
  function Find(text: string, key: string): Option<string>
    decreases |text|
  {
    var line := Cut(text, '\n');
    if line.None? then None
    else if HasKey(line.value.0, key) then Some(line.value.0[|key| + 1..])
    else
      assert |line.value.1| < |text| by { CutShorter(text, '\n'); }
      Find(line.value.1, key)
  }

  lemma {:induction false} CutShorter(s: string, c: char)
    ensures Cut(s, c).Some? ==> |Cut(s, c).value.1| < |s|
    decreases |s|
  {
    if s == "" || s[0] == c {
    } else {
      CutShorter(s[1..], c);
    }
  }

  /** The same on the lines themselves. */
  function Lookup(lines: seq<string>, key: string): Option<string> {
    if lines == [] then None
    else if HasKey(lines[0], key) then Some(lines[0][|key| + 1..])
    else Lookup(lines[1..], key)
  }

  lemma {:induction false} FindLooksUp(lines: seq<string>, key: string)
    requires forall i :: 0 <= i < |lines| ==> '\n' !in lines[i]
    ensures Find(Unlines(lines), key) == Lookup(lines, key)
    decreases |lines|
  {
    if lines == [] {
    } else {
      CutField(lines[0], '\n', Unlines(lines[1..]));
      FindLooksUp(lines[1..], key);
    }
  }

  /** A line that differs from the key in its `k`-th character. */
  lemma Unlike(line: string, key: string, k: nat)
    requires k < |key| && k < |line| && line[k] != key[k]
    ensures !HasKey(line, key)
  {
    assert (key + "=")[k] == key[k];
  }

  /** What marks a result as that of a passive check, run at `time` and neither scheduled nor late. */
  predicate Passive(text: string, time: string) {
    && Find(text, "check_type") == Some("1")
    && Find(text, "scheduled_check") == Some("0") && Find(text, "reschedule_check") == Some("0")
    && Find(text, "latency") == Some("0")
    && Find(text, "start_time") == Some(time + ".0") && Find(text, "finish_time") == Some(time + ".0")
  }

  /** A reader of the spool. */
  function ParseSpool(text: string): Option<Result> {
    var time, host, service := Find(text, "file_time"), Find(text, "host_name"), Find(text, "service_description");
    var code, output := Find(text, "return_code"), Find(text, "output");
    if time.None? || host.None? || code.None? || output.None? || service == Some("") || !Passive(text, time.value)
    then None else
      var t, c := ParseDecimal(time.value), ParseDecimal(code.value);
      if t.None? || c.None? then None
      else Some(Result(t.value, host.value, if service.Some? then service.value else "", c.value, output.value))
  }

  /** No line of `lines` starts like the key. */
  predicate Foreign(lines: seq<string>, key: string) {
    forall i :: 0 <= i < |lines| ==> !HasKey(lines[i], key)
  }

  lemma {:induction false} LookupConcat(a: seq<string>, b: seq<string>, key: string)
    requires Foreign(a, key)
    ensures Lookup(a + b, key) == Lookup(b, key)
    decreases |a|
  {
    if a == [] {
      assert a + b == b;
    } else {
      assert (a + b)[1..] == a[1..] + b;
      LookupConcat(a[1..], b, key);
    }
  }

  lemma LookupFirst(key: string, value: string, rest: seq<string>)
    ensures Lookup([KeyLine(key, value)] + rest, key) == Some(value)
  {
    var line := KeyLine(key, value);
    assert ([line] + rest)[0] == line && line[|key| + 1..] == value;
  }

  /** Enough to tell a key from every line of a group by one of its first three characters. */
  lemma MarksForeign(r: Result, date: string, key: string)
    requires key != "" && key[0] != '#'
    ensures Foreign(["### NSCA Passive Check Result ###", "# Time: " + date], key) && Foreign(["", Title(r)], key)
    ensures Foreign([""], key)
  {
    Unlike("### NSCA Passive Check Result ###", key, 0);
    Unlike("# Time: " + date, key, 0);
    Unlike(Title(r), key, 0);
  }

  lemma LineForeign(name: string, value: string, key: string)
    requires key != "" && name != "" && key[0] != name[0]
    ensures Foreign([KeyLine(name, value)], key)
  {
    Unlike(KeyLine(name, value), key, 0);
  }

  lemma FixedForeign(r: Result, key: string)
    requires |key| >= 3 && key[0] !in {'c', 'l', 'f'} && (key[0] == 's' ==> key[1] !in {'c', 't'})
    requires key[0] == 'r' ==> key[2] != 's'
    ensures Foreign(Fixed(r), key)
  {
    Unlike("check_type=1", key, 0);
    Unlike("scheduled_check=0", key, if key[0] == 's' then 1 else 0);
    Unlike("reschedule_check=0", key, if key[0] == 'r' then 2 else 0);
    Unlike("latency=0", key, 0);
    Unlike("start_time=" + Decimal(r.time) + ".0", key, if key[0] == 's' then 1 else 0);
    Unlike("finish_time=" + Decimal(r.time) + ".0", key, 0);
  }

  /** Keys that are not the time's are looked up behind it, and so on down the file. */
  lemma SkipTime(r: Result, date: string, key: string)
    requires |key| > 2 && key[0] != '#' && (key[0] == 'f' ==> key[2] != 'l')
    ensures Lookup(SpoolLines(r, date), key) == Lookup([KeyLine("host_name", r.host)] + AfterHost(r), key)
  {
    MarksForeign(r, date, key);
    Unlike(KeyLine("file_time", Decimal(r.time)), key, if key[0] == 'f' then 2 else 0);
    LookupConcat(["### NSCA Passive Check Result ###", "# Time: " + date],
                 [KeyLine("file_time", Decimal(r.time))] + AfterTime(r), key);
    LookupConcat([KeyLine("file_time", Decimal(r.time))], AfterTime(r), key);
    LookupConcat(["", Title(r)], [KeyLine("host_name", r.host)] + AfterHost(r), key);
  }

  lemma SkipHost(r: Result, date: string, key: string)
    requires |key| > 2 && key[0] !in {'#', 'h'} && (key[0] == 'f' ==> key[2] != 'l')
    ensures Lookup(SpoolLines(r, date), key) == Lookup(AfterHost(r), key)
  {
    SkipTime(r, date, key);
    LineForeign("host_name", r.host, key);
    LookupConcat([KeyLine("host_name", r.host)], AfterHost(r), key);
  }

  lemma SkipFixed(r: Result, date: string, key: string)
    requires |key| >= 3 && key[0] !in {'#', 'f', 'h', 's', 'c', 'l'} && (key[0] == 'r' ==> key[2] != 's')
    ensures Lookup(SpoolLines(r, date), key) == Lookup(AfterFixed(r), key)
  {
    SkipHost(r, date, key);
    FixedForeign(r, key);
    if r.service != "" { LineForeign("service_description", r.service, key); }
    LookupConcat(ServiceLines(r), Fixed(r) + AfterFixed(r), key);
    LookupConcat(Fixed(r), AfterFixed(r), key);
  }

  lemma TimeFound(r: Result, date: string)
    ensures Lookup(SpoolLines(r, date), "file_time") == Some(Decimal(r.time))
  {
    MarksForeign(r, date, "file_time");
    LookupConcat(["### NSCA Passive Check Result ###", "# Time: " + date],
                 [KeyLine("file_time", Decimal(r.time))] + AfterTime(r), "file_time");
    LookupFirst("file_time", Decimal(r.time), AfterTime(r));
  }

  lemma HostFound(r: Result, date: string)
    ensures Lookup(SpoolLines(r, date), "host_name") == Some(r.host)
  {
    SkipTime(r, date, "host_name");
    LookupFirst("host_name", r.host, AfterHost(r));
  }

  lemma CodeFound(r: Result, date: string)
    ensures Lookup(SpoolLines(r, date), "return_code") == Some(Decimal(r.code))
  {
    SkipFixed(r, date, "return_code");
    LookupFirst("return_code", Decimal(r.code), [KeyLine("output", r.output)] + [""]);
  }

  lemma OutputFound(r: Result, date: string)
    ensures Lookup(SpoolLines(r, date), "output") == Some(r.output)
  {
    SkipFixed(r, date, "output");
    LineForeign("return_code", Decimal(r.code), "output");
    LookupConcat([KeyLine("return_code", Decimal(r.code))], [KeyLine("output", r.output)] + [""], "output");
    LookupFirst("output", r.output, [""]);
  }

  lemma ServiceFound(r: Result, date: string)
    ensures Lookup(SpoolLines(r, date), "service_description") == if r.service != "" then Some(r.service) else None
  {
    var key := "service_description";
    SkipHost(r, date, key);
    if r.service != "" {
      LookupFirst(key, r.service, Fixed(r) + AfterFixed(r));
    } else {
      FixedForeign(r, key);
      LookupConcat([], Fixed(r) + AfterFixed(r), key);
      LookupConcat(Fixed(r), AfterFixed(r), key);
      LineForeign("return_code", Decimal(r.code), key);
      LookupConcat([KeyLine("return_code", Decimal(r.code))], [KeyLine("output", r.output)] + [""], key);
      LineForeign("output", r.output, key);
      LookupConcat([KeyLine("output", r.output)], [""], key);
    }
  }

  /** The value that the `n`-th line has for its key, if no line before it has that key. */
  lemma LookupAt(lines: seq<string>, n: nat, key: string, value: string)
    requires n < |lines| && lines[n] == KeyLine(key, value) && Foreign(lines[..n], key)
    ensures Lookup(lines, key) == Some(value)
  {
    LookupConcat(lines[..n], [lines[n]] + lines[n + 1..], key);
    LookupFirst(key, value, lines[n + 1..]);
    assert lines == lines[..n] + ([lines[n]] + lines[n + 1..]);
  }

  /** Of the lines with fixed values, the `n`-th answers its own key. */
  lemma FixedAt(r: Result, n: nat, key: string, value: string)
    requires n < 6 && Fixed(r)[n] == KeyLine(key, value) && Foreign(Fixed(r)[..n], key)
    ensures Lookup(Fixed(r) + AfterFixed(r), key) == Some(value)
  {
    var lines := Fixed(r) + AfterFixed(r);
    assert lines[..n] == Fixed(r)[..n] && lines[n] == Fixed(r)[n];
    LookupAt(lines, n, key, value);
  }

  lemma PassiveFound(r: Result, date: string)
    ensures Lookup(SpoolLines(r, date), "check_type") == Some("1")
    ensures Lookup(SpoolLines(r, date), "scheduled_check") == Some("0")
    ensures Lookup(SpoolLines(r, date), "reschedule_check") == Some("0")
    ensures Lookup(SpoolLines(r, date), "latency") == Some("0")
  {
    TypeFound(r, date);
    ScheduledFound(r, date);
    RescheduleFound(r, date);
    LatencyFound(r, date);
  }

  lemma SkipService(r: Result, date: string, key: string)
    requires |key| > 2 && key[0] !in {'#', 'h'}
    requires (key[0] == 'f' ==> key[2] != 'l') && (key[0] == 's' ==> key[1] != 'e')
    ensures Lookup(SpoolLines(r, date), key) == Lookup(Fixed(r) + AfterFixed(r), key)
  {
    SkipHost(r, date, key);
    ServiceForeign(r, key);
    LookupConcat(ServiceLines(r), Fixed(r) + AfterFixed(r), key);
  }

  lemma ServiceForeign(r: Result, key: string)
    requires |key| > 2 && (key[0] == 's' ==> key[1] != 'e')
    ensures Foreign(ServiceLines(r), key)
  {
    Unlike(KeyLine("service_description", r.service), key, if key[0] == 's' then 1 else 0);
  }

  lemma TypeFound(r: Result, date: string)
    ensures Lookup(SpoolLines(r, date), "check_type") == Some("1")
  {
    SkipService(r, date, "check_type");
    FixedAt(r, 0, "check_type", "1");
  }

  lemma ScheduledFound(r: Result, date: string)
    ensures Lookup(SpoolLines(r, date), "scheduled_check") == Some("0")
  {
    SkipService(r, date, "scheduled_check");
    Unlike("check_type=1", "scheduled_check", 0);
    FixedAt(r, 1, "scheduled_check", "0");
  }

  lemma RescheduleFound(r: Result, date: string)
    ensures Lookup(SpoolLines(r, date), "reschedule_check") == Some("0")
  {
    var key := "reschedule_check";
    SkipService(r, date, key);
    Unlike("check_type=1", key, 0);
    Unlike("scheduled_check=0", key, 0);
    FixedAt(r, 2, key, "0");
  }

  lemma LatencyFound(r: Result, date: string)
    ensures Lookup(SpoolLines(r, date), "latency") == Some("0")
  {
    var key := "latency";
    SkipService(r, date, key);
    Unlike("check_type=1", key, 0);
    Unlike("scheduled_check=0", key, 0);
    Unlike("reschedule_check=0", key, 0);
    FixedAt(r, 3, key, "0");
  }

  /** Neither time has a line before the two that are marked with it. */
  lemma FixedBefore(r: Result, key: string)
    requires |key| > 1 && key[0] !in {'c', 'r', 'l'} && (key[0] == 's' ==> key[1] != 'c')
    ensures Foreign(Fixed(r)[..4], key)
  {
    Unlike("check_type=1", key, 0);
    Unlike("scheduled_check=0", key, if key[0] == 's' then 1 else 0);
    Unlike("reschedule_check=0", key, 0);
    Unlike("latency=0", key, 0);
  }

  lemma StartFound(r: Result, date: string)
    ensures Lookup(SpoolLines(r, date), "start_time") == Some(Decimal(r.time) + ".0")
  {
    var key, value := "start_time", Decimal(r.time) + ".0";
    SkipService(r, date, key);
    FixedBefore(r, key);
    assert Fixed(r)[4] == KeyLine(key, value);
    FixedAt(r, 4, key, value);
  }

  lemma FinishFound(r: Result, date: string)
    ensures Lookup(SpoolLines(r, date), "finish_time") == Some(Decimal(r.time) + ".0")
  {
    var key, value := "finish_time", Decimal(r.time) + ".0";
    SkipService(r, date, key);
    FixedBefore(r, key);
    Unlike("start_time=" + value, key, 0);
    assert Fixed(r)[5] == KeyLine(key, value);
    assert Fixed(r)[..5] == Fixed(r)[..4] + [Fixed(r)[4]];
    FixedAt(r, 5, key, value);
  }

  predicate Unbroken(lines: seq<string>) {
    forall i :: 0 <= i < |lines| ==> '\n' !in lines[i]
  }

  lemma UnbrokenConcat(a: seq<string>, b: seq<string>)
    requires Unbroken(a) && Unbroken(b)
    ensures Unbroken(a + b)
  {
  }

  lemma FixedUnbroken(r: Result)
    ensures Unbroken(Fixed(r))
  {
    DecimalLacks(r.time, '\n');
  }

  lemma TailUnbroken(r: Result)
    requires Clean(r)
    ensures Unbroken(AfterHost(r))
  {
    DecimalLacks(r.code, '\n');
    FixedUnbroken(r);
    UnbrokenConcat([KeyLine("output", r.output)], [""]);
    UnbrokenConcat([KeyLine("return_code", Decimal(r.code))], [KeyLine("output", r.output)] + [""]);
    UnbrokenConcat(Fixed(r), AfterFixed(r));
    UnbrokenConcat(ServiceLines(r), Fixed(r) + AfterFixed(r));
  }

  lemma HeadUnbroken(date: string)
    requires '\n' !in date
    ensures Unbroken(["### NSCA Passive Check Result ###", "# Time: " + date])
  {
  }

  lemma TitleUnbroken(r: Result)
    ensures Unbroken(["", Title(r)])
  {
  }

  lemma SpoolUnbroken(r: Result, date: string)
    requires Clean(r) && '\n' !in date
    ensures Unbroken(SpoolLines(r, date))
  {
    DecimalLacks(r.time, '\n');
    HeadUnbroken(date);
    TitleUnbroken(r);
    TailUnbroken(r);
    UnbrokenConcat([KeyLine("host_name", r.host)], AfterHost(r));
    UnbrokenConcat(["", Title(r)], [KeyLine("host_name", r.host)] + AfterHost(r));
    UnbrokenConcat([KeyLine("file_time", Decimal(r.time))], AfterTime(r));
    UnbrokenConcat(["### NSCA Passive Check Result ###", "# Time: " + date],
                   [KeyLine("file_time", Decimal(r.time))] + AfterTime(r));
  }

  lemma MarkedPassive(r: Result, date: string)
    requires Clean(r) && '\n' !in date
    ensures Passive(Unlines(SpoolLines(r, date)), Decimal(r.time))
  {
    var lines := SpoolLines(r, date);
    SpoolUnbroken(r, date);
    FindLooksUp(lines, "check_type");
    FindLooksUp(lines, "scheduled_check");
    FindLooksUp(lines, "reschedule_check");
    FindLooksUp(lines, "latency");
    FindLooksUp(lines, "start_time");
    FindLooksUp(lines, "finish_time");
    PassiveFound(r, date);
    StartFound(r, date);
    FinishFound(r, date);
  }

  /** A reader of the spool gets back the very result that was written, as that of a passive check. */
  lemma SpoolRoundTrip(r: Result, date: string)
    requires Clean(r) && '\n' !in date
    ensures ParseSpool(Unlines(SpoolLines(r, date))) == Some(r)
  {
    var lines := SpoolLines(r, date);
    SpoolUnbroken(r, date);
    FindLooksUp(lines, "file_time");
    FindLooksUp(lines, "host_name");
    FindLooksUp(lines, "service_description");
    FindLooksUp(lines, "return_code");
    FindLooksUp(lines, "output");
    TimeFound(r, date);
    HostFound(r, date);
    CodeFound(r, date);
    OutputFound(r, date);
    ServiceFound(r, date);
    MarkedPassive(r, date);
    DecimalParses(r.time);
    DecimalParses(r.code);
  }

  /** Whichever way a result was written, the same result is read. */
  lemma TwoPrintersOneResult(r: Result, date: string)
    requires Clean(r) && '\n' !in date
    ensures ParseFifo(FifoLine(r)) == ParseSpool(Unlines(SpoolLines(r, date))) == Some(r)
  {
    FifoRoundTrip(r);
    SpoolRoundTrip(r, date);
  }

  /** No line of the file is ever truncated by its buffer. */
  lemma SpoolFits(r: Result, date: string)
    requires InRange(r) && |date| <= 25
    ensures forall i :: 0 <= i < |SpoolLines(r, date)| ==> |SpoolLines(r, date)[i]| + 1 <= 4103 < SPOOL_BUFFER
  {
    NumberLengths(r);
  }
}
