/** From the packet on the wire to the text in the sinks. */
module Reports {
  import opened Bytes
  import opened Packet
  import opened Printers
  import opened Wire

  /** The bytes of a field as the printers copy them. */
  function Chars(field: seq<byte>): (s: string)
    ensures |s| == |field| && forall i :: 0 <= i < |field| ==> s[i] as int == field[i] as int
  {
    seq(|field|, i requires 0 <= i < |field| => field[i] as int as char)
  }

  /** What `send_receive_message` hands to a sink at time `now`. */
  function ResultOf(report: Report, now: nat): Result {
    Result(now, Chars(report.host), Chars(report.service), report.code, Chars(report.output))
  }

  lemma ShortRange(p: Plain, at: nat)
    requires at + 2 <= PACKET_SIZE
    ensures NetShort(p, at) < 0x1_0000
  {
  }

  /** Whatever bytes a packet holds, neither printer truncates what is made of them. */
  lemma EveryPacketFits(p: Plain, now: nat, date: string)
    requires now < 0x8000_0000_0000_0000 && |date| <= 25
    ensures var r := ResultOf(ReportOf(p), now);
      && InRange(r)
      && Snprintf(FifoLine(r), FIFO_BUFFER) == FifoLine(r)
      && forall i :: 0 <= i < |SpoolLines(r, date)| ==>
           Snprintf(SpoolLines(r, date)[i] + "\n", SPOOL_BUFFER) == SpoolLines(r, date)[i] + "\n"
  {
    ShortRange(p, RETURN_CODE_AT);
    var r := ResultOf(ReportOf(p), now);
    FifoFits(r);
    SpoolFits(r, date);
  }

  /** Different fields read differently. */
  lemma CharsKeep(field: seq<byte>, other: seq<byte>)
    ensures Chars(field) == Chars(other) <==> field == other
  {
    if Chars(field) == Chars(other) {
      forall i | 0 <= i < |field|
        ensures field[i] == other[i]
      {
        assert Chars(field)[i] == Chars(other)[i];
      }
    }
  }

  /** Nothing gets lost on the way: packets whose lines read alike report the same. */
  lemma SameLineSameReport(p: Plain, q: Plain, now: nat)
    requires Clean(ResultOf(ReportOf(p), now)) && Clean(ResultOf(ReportOf(q), now))
    ensures FifoLine(ResultOf(ReportOf(p), now)) == FifoLine(ResultOf(ReportOf(q), now)) <==> ReportOf(p) == ReportOf(q)
  {
    var a, b := ReportOf(p), ReportOf(q);
    FifoRoundTrip(ResultOf(a, now));
    FifoRoundTrip(ResultOf(b, now));
    CharsKeep(a.host, b.host);
    CharsKeep(a.service, b.service);
    CharsKeep(a.output, b.output);
  }

  /** No field holds a byte that ends it in either text: a semicolon or a line end. */
  predicate Printable(r: Report) {
    && (forall i :: 0 <= i < |r.host| ==> r.host[i] !in {10, 59})
    && (forall i :: 0 <= i < |r.service| ==> r.service[i] !in {10, 59})
    && (forall i :: 0 <= i < |r.output| ==> r.output[i] != 10)
  }

  lemma PrintableIsClean(r: Report, now: nat)
    requires Printable(r)
    ensures Clean(ResultOf(r, now))
  {
    assert ';' as int == 59 && '\n' as int == 10;
  }

  /** From the sender's mouth to the reader's ear: whichever way the result of a packet was written, it is read as what
      the sender said, at the time it was written. */
  lemma SaidIsRead(r: Report, time: nat, now: nat, date: string)
    requires Sayable(r, OUTPUT_FIELD) && time < 0x1_0000_0000 && Printable(r) && '\n' !in date
    ensures var written := ResultOf(ReportOf(Pack(r, time, OUTPUT_FIELD)), now);
      ParseFifo(FifoLine(written)) == ParseSpool(Unlines(SpoolLines(written, date)))
      == Some(Result(now, Chars(r.host), Chars(r.service), r.code, Chars(r.output)))
  {
    PackWhole(Policy(0, 0, false), r, time);
    PrintableIsClean(r, now);
    TwoPrintersOneResult(ResultOf(r, now), date);
  }
}
