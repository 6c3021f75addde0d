/**
 The `LogReporter` aggregator of src/log_reporter.js.

 The reporter receives one line at a time (`#process_line`), counts it, and
 either records a parse error or counts the line's URL and IP and emits a
 `progress` event, represented by the ghost counter `progressCount`.

 `Step` is the effect of one line on the accumulators and `Replay` the effect
 of a whole sequence of lines; the class keeps the ghost history `received` and
 its invariant says that its accumulators are the replay of that history.
 `ReplaySummary` characterises a replay independently, through the accepted
 records and the rejected lines.
 */
module Reporter {
  import opened LogLine
  import opened Counts

  /** An entry of `#errors`: the offending line and its 0-based arrival index. */
  datatype ParseError = ParseError(line: string, lineIdx: nat)

  /** The reporter's accumulators, and the number of progress events emitted. */
  datatype Tally = Tally(linesProcessed: nat, urlHits: CountMap, ipRequests: CountMap,
                         errors: seq<ParseError>, progressCount: nat)

  /** The accumulators of a reporter that has received nothing. */
  const Fresh := Tally(0, map[], map[], [], 0)

  /** The effect of `#process_line` on the accumulators. */
  function Step(exec: string -> Exec, t: Tally, line: string): (r: Tally)
    ensures r.linesProcessed == t.linesProcessed + 1
    ensures r.progressCount + |r.errors| == t.progressCount + |t.errors| + 1
  {
    match Parse(exec(line))
    case None =>
      t.(linesProcessed := t.linesProcessed + 1,
         errors := t.errors + [ParseError(line, t.linesProcessed)])
    case Some(rec) =>
      t.(linesProcessed := t.linesProcessed + 1,
         urlHits := Inc(t.urlHits, rec.url),
         ipRequests := Inc(t.ipRequests, rec.ip),
         progressCount := t.progressCount + 1)
  }

  /** The accumulators after receiving `lines` in order. */
  function Replay(exec: string -> Exec, lines: seq<string>): Tally
  {
    if lines == [] then Fresh
    else Step(exec, Replay(exec, lines[..|lines| - 1]), lines[|lines| - 1])
  }

  lemma ReplaySnoc(exec: string -> Exec, lines: seq<string>, line: string)
    ensures Replay(exec, lines + [line]) == Step(exec, Replay(exec, lines), line)
  {
    assert (lines + [line])[..|lines|] == lines;
  }

  /**
   One line: the line counter always goes up by one; a line that does not
   parse adds exactly one error carrying the counter's previous value and
   changes nothing else; a line that parses counts its URL and its IP (from 0
   when unseen), leaves every other key and the errors alone, and emits one
   progress event.
   */
  lemma StepEffect(exec: string -> Exec, t: Tally, line: string)
    ensures Step(exec, t, line).linesProcessed == t.linesProcessed + 1
    ensures Parse(exec(line)).None? ==>
      && Step(exec, t, line).errors == t.errors + [ParseError(line, t.linesProcessed)]
      && Step(exec, t, line).urlHits == t.urlHits
      && Step(exec, t, line).ipRequests == t.ipRequests
      && Step(exec, t, line).progressCount == t.progressCount
    ensures Parse(exec(line)).Some? ==>
      var rec, r := Parse(exec(line)).value, Step(exec, t, line);
      && r.urlHits.Keys == t.urlHits.Keys + {rec.url}
      && r.urlHits[rec.url] == CountOf(t.urlHits, rec.url) + 1
      && (forall u | u in t.urlHits && u != rec.url :: r.urlHits[u] == t.urlHits[u])
      && r.ipRequests.Keys == t.ipRequests.Keys + {rec.ip}
      && r.ipRequests[rec.ip] == CountOf(t.ipRequests, rec.ip) + 1
      && (forall ip | ip in t.ipRequests && ip != rec.ip :: r.ipRequests[ip] == t.ipRequests[ip])
      && r.errors == t.errors
      && r.progressCount == t.progressCount + 1
  {
  }

  /** The records of the lines that parse, in arrival order. */
  function Accepted(exec: string -> Exec, lines: seq<string>): seq<Record>
  {
    if lines == [] then []
    else
      var init, last := lines[..|lines| - 1], lines[|lines| - 1];
      match Parse(exec(last))
      case Some(rec) => Accepted(exec, init) + [rec]
      case None => Accepted(exec, init)
  }

  /** The parse errors of the lines that do not parse, in arrival order. */
  function Rejected(exec: string -> Exec, lines: seq<string>): seq<ParseError>
  {
    if lines == [] then []
    else
      var init, last := lines[..|lines| - 1], lines[|lines| - 1];
      match Parse(exec(last))
      case Some(_) => Rejected(exec, init)
      case None => Rejected(exec, init) + [ParseError(last, |init|)]
  }

  lemma AcceptedSnoc(exec: string -> Exec, lines: seq<string>, line: string)
    ensures Accepted(exec, lines + [line]) ==
      match Parse(exec(line))
      case Some(rec) => Accepted(exec, lines) + [rec]
      case None => Accepted(exec, lines)
    ensures Rejected(exec, lines + [line]) ==
      match Parse(exec(line))
      case Some(_) => Rejected(exec, lines)
      case None => Rejected(exec, lines) + [ParseError(line, |lines|)]
  {
    assert (lines + [line])[..|lines|] == lines;
  }

  function Urls(recs: seq<Record>): seq<string>
  {
    seq(|recs|, i requires 0 <= i < |recs| => recs[i].url)
  }

  function Ips(recs: seq<Record>): seq<string>
  {
    seq(|recs|, i requires 0 <= i < |recs| => recs[i].ip)
  }

  /** Accepting one more record is one more `#inc` in each map. */
  lemma HistogramsSnoc(recs: seq<Record>, rec: Record)
    ensures Histogram(Urls(recs + [rec])) == Inc(Histogram(Urls(recs)), rec.url)
    ensures Histogram(Ips(recs + [rec])) == Inc(Histogram(Ips(recs)), rec.ip)
  {
    assert Urls(recs + [rec]) == Urls(recs) + [rec.url];
    assert Ips(recs + [rec]) == Ips(recs) + [rec.ip];
    HistogramSnoc(Urls(recs), rec.url);
    HistogramSnoc(Ips(recs), rec.ip);
  }

  /** Every line is either accepted or rejected. */
  lemma {:induction false} AcceptedRejectedPartition(exec: string -> Exec, lines: seq<string>)
    ensures |Accepted(exec, lines)| + |Rejected(exec, lines)| == |lines|
  {
    if lines != [] {
      AcceptedRejectedPartition(exec, lines[..|lines| - 1]);
    }
  }

  /**
   Each error names a line that does not parse, by its 0-based arrival index,
   and the indices are strictly increasing.
   */
  lemma {:induction false} RejectedIndices(exec: string -> Exec, lines: seq<string>)
    ensures forall i | 0 <= i < |Rejected(exec, lines)| ::
      var e := Rejected(exec, lines)[i];
      e.lineIdx < |lines| && lines[e.lineIdx] == e.line && Parse(exec(e.line)).None?
    ensures forall i, j | 0 <= i < j < |Rejected(exec, lines)| ::
      Rejected(exec, lines)[i].lineIdx < Rejected(exec, lines)[j].lineIdx
  {
    if lines != [] {
      var init := lines[..|lines| - 1];
      RejectedIndices(exec, init);
      assert forall n | 0 <= n < |init| :: lines[n] == init[n];
    }
  }

  /** Every accepted record is the parse of some received line. */
  lemma {:induction false} AcceptedFromLines(exec: string -> Exec, lines: seq<string>)
    ensures forall rec | rec in Accepted(exec, lines) ::
      exists n | 0 <= n < |lines| :: Parse(exec(lines[n])) == Some(rec)
  {
    if lines != [] {
      var init := lines[..|lines| - 1];
      AcceptedFromLines(exec, init);
      forall rec | rec in Accepted(exec, lines)
        ensures exists n | 0 <= n < |lines| :: Parse(exec(lines[n])) == Some(rec)
      {
        if rec in Accepted(exec, init) {
          var n :| 0 <= n < |init| && Parse(exec(init[n])) == Some(rec);
          assert lines[n] == init[n];
        } else {
          assert Parse(exec(lines[|lines| - 1])) == Some(rec);
        }
      }
    }
  }

  /** The line counter of a replay is the number of lines. */
  lemma {:induction false} ReplayLines(exec: string -> Exec, lines: seq<string>)
    ensures Replay(exec, lines).linesProcessed == |lines|
  {
    if lines != [] {
      ReplayLines(exec, lines[..|lines| - 1]);
    }
  }

  /** The errors of a replay are exactly the rejected lines. */
  lemma {:induction false} ReplayErrors(exec: string -> Exec, lines: seq<string>)
    ensures Replay(exec, lines).errors == Rejected(exec, lines)
  {
    if lines != [] {
      ReplayLines(exec, lines[..|lines| - 1]);
      ReplayErrors(exec, lines[..|lines| - 1]);
    }
  }

  /** A replay emits one progress event per accepted line and counts the accepted URLs and IPs. */
  lemma {:induction false} ReplayHits(exec: string -> Exec, lines: seq<string>)
    ensures Replay(exec, lines).progressCount == |Accepted(exec, lines)|
    ensures Replay(exec, lines).urlHits == Histogram(Urls(Accepted(exec, lines)))
    ensures Replay(exec, lines).ipRequests == Histogram(Ips(Accepted(exec, lines)))
  {
    if lines != [] {
      var init, last := lines[..|lines| - 1], lines[|lines| - 1];
      ReplayHits(exec, init);
      if Parse(exec(last)).Some? {
        HistogramsSnoc(Accepted(exec, init), Parse(exec(last)).value);
      }
    }
  }

  /**
   A replay is determined by which lines parse: the maps are the histograms of
   the accepted URLs and IPs, the errors are the rejected lines, and there is
   one progress event per accepted line.
   */
  lemma ReplaySummary(exec: string -> Exec, lines: seq<string>)
    ensures Replay(exec, lines) == Tally(|lines|,
      Histogram(Urls(Accepted(exec, lines))), Histogram(Ips(Accepted(exec, lines))),
      Rejected(exec, lines), |Accepted(exec, lines)|)
  {
    ReplayLines(exec, lines);
    ReplayErrors(exec, lines);
    ReplayHits(exec, lines);
  }

  class LogReporter {
    /** The compiled LOGLINE pattern: what `LOGLINE.exec(line)` returns. */
    const logline: string -> Exec

    var linesProcessed: nat
    var urlHits: CountMap
    var ipRequests: CountMap
    var errors: seq<ParseError>

    /** The number of `progress` events emitted so far. */
    ghost var progressCount: nat
    /** Every line received, in arrival order. */
    ghost var received: seq<string>

    ghost function Snapshot(): Tally
      reads this
    {
      Tally(linesProcessed, urlHits, ipRequests, errors, progressCount)
    }

    /** The accumulators are the replay of every line received. */
    ghost predicate Valid()
      reads this
    {
      Snapshot() == Replay(logline, received)
    }

    /** A fresh reporter: nothing counted yet. */
    constructor (logline: string -> Exec)
      ensures Valid()
      ensures this.logline == logline && received == []
      ensures linesProcessed == 0 && urlHits == map[] && ipRequests == map[] && errors == []
      ensures progressCount == 0
    {
      this.logline := logline;
      linesProcessed := 0;
      urlHits := map[];
      ipRequests := map[];
      errors := [];
      progressCount := 0;
      received := [];
    }

    /** `#process_line`: count the line, then record an error or count its URL and IP. */
    method ProcessLine(line: string)
      requires Valid()
      modifies this
      ensures Valid()
      ensures received == old(received) + [line]
      ensures Snapshot() == Step(logline, old(Snapshot()), line)
    {
      ReplaySnoc(logline, received, line);
      var lineIdx := linesProcessed;
      linesProcessed := linesProcessed + 1;
      var m := logline(line);
      if m.NoMatch? || m.groups.None? || !Truthy(m.groups.value.url) || !Truthy(m.groups.value.ip) {
        errors := errors + [ParseError(line, lineIdx)];
      } else {
        urlHits := Inc(urlHits, m.groups.value.url.value);
        ipRequests := Inc(ipRequests, m.groups.value.ip.value);
        progressCount := progressCount + 1;
      }
      received := received + [line];
    }

    /**
     `n_unique_ip_addresses`: the number of keys of the IP map, which is the
     number of distinct IPs among the lines that parsed.
     */
    function NUniqueIpAddresses(): (n: nat)
      reads this
      ensures Valid() ==> n == |set ip | ip in Ips(Accepted(logline, received))|
    {
      assert Valid() ==> |ipRequests| == |set ip | ip in Ips(Accepted(logline, received))| by {
        if Valid() {
          ReplaySummary(logline, received);
          HistogramSize(Ips(Accepted(logline, received)));
        }
      }
      |ipRequests|
    }
  }

  /** No IP-shaped key is an inherited property name, so `#inc` as written counts IPs as `Inc` does. */
  lemma IpKeysNotInherited(m: CountMap, ip: string)
    requires IsIpShape(ip)
    ensures ip !in InheritedKeys
    ensures IncAsWritten(AsObject(m), ip) == AsObject(Inc(m, ip))
  {
    IpShapeStartsWithDigit(ip);
    IncAsWrittenAgrees(m, ip);
  }

  /** The reporter's maps count, for each URL and each IP, the lines received that parsed with it. */
  lemma ReporterHistograms(r: LogReporter)
    requires r.Valid()
    ensures r.urlHits == Histogram(Urls(Accepted(r.logline, r.received)))
    ensures r.ipRequests == Histogram(Ips(Accepted(r.logline, r.received)))
  {
    ReplayHits(r.logline, r.received);
  }

  /**
   What holds after any sequence of `ProcessLine` calls: every line is counted
   once, as a progress event or as an error; both maps sum to the number of
   progress events; the errors point at their lines by strictly increasing
   arrival index; every counted key comes from a line that parsed.
   */
  lemma ReporterInvariants(r: LogReporter)
    requires r.Valid()
    ensures r.linesProcessed == |r.received|
    ensures r.linesProcessed == r.progressCount + |r.errors|
    ensures Total(r.urlHits) == r.progressCount && Total(r.ipRequests) == r.progressCount
    ensures forall i | 0 <= i < |r.errors| ::
      r.errors[i].lineIdx < r.linesProcessed && r.received[r.errors[i].lineIdx] == r.errors[i].line
    ensures forall i, j | 0 <= i < j < |r.errors| :: r.errors[i].lineIdx < r.errors[j].lineIdx
    ensures r.ipRequests.Keys == set ip | ip in Ips(Accepted(r.logline, r.received))
    ensures r.urlHits.Keys == set url | url in Urls(Accepted(r.logline, r.received))
  {
    var a := Accepted(r.logline, r.received);
    ReplaySummary(r.logline, r.received);
    AcceptedRejectedPartition(r.logline, r.received);
    RejectedIndices(r.logline, r.received);
    HistogramTotal(Urls(a));
    HistogramTotal(Ips(a));
    HistogramCounts(Urls(a));
    HistogramCounts(Ips(a));
  }
}
