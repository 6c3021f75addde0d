/**
 `calc_specified_stats` of src/log_reporter.js and the reporter scenarios of
 test/main.js.

 The statistics are the number of distinct IPs and, for each of the two maps,
 its top three entries relabelled as `{url, n_hits}` or `{ip, n_requests}`.
 The order in which `Object.entries` lists a map's keys is a parameter.
 */
module SpecifiedStats {
  import opened LogLine
  import opened Counts
  import opened Reporter
  import opened Ranking

  datatype UrlHits = UrlHits(url: string, nHits: nat)
  datatype IpRequests = IpRequests(ip: string, nRequests: nat)

  /** The object `calc_specified_stats` returns. */
  datatype Stats = Stats(nUniqueIpAddresses: nat,
                         top3MostVisitedUrls: seq<UrlHits>,
                         top3MostActiveIpAddresses: seq<IpRequests>)

  /** The `[key, count]` pairs behind a list of `{url, n_hits}` objects. */
  function UrlEntries(us: seq<UrlHits>): (es: seq<Entry>)
    ensures |es| == |us|
    ensures forall i | 0 <= i < |us| :: es[i].0 == us[i].url && es[i].1 == us[i].nHits
  {
    if us == [] then [] else [(us[0].url, us[0].nHits)] + UrlEntries(us[1..])
  }

  /** The `[key, count]` pairs behind a list of `{ip, n_requests}` objects. */
  function IpEntries(ps: seq<IpRequests>): (es: seq<Entry>)
    ensures |es| == |ps|
    ensures forall i | 0 <= i < |ps| :: es[i].0 == ps[i].ip && es[i].1 == ps[i].nRequests
  {
    if ps == [] then [] else [(ps[0].ip, ps[0].nRequests)] + IpEntries(ps[1..])
  }

  /** `.map((arr) => ({ url: arr[0], n_hits: arr[1] }))`: a relabelling that loses nothing. */
  function AsUrlHits(es: seq<Entry>): (us: seq<UrlHits>)
    ensures UrlEntries(us) == es
  {
    if es == [] then [] else [UrlHits(es[0].0, es[0].1)] + AsUrlHits(es[1..])
  }

  /** `.map((arr) => ({ ip: arr[0], n_requests: arr[1] }))`: a relabelling that loses nothing. */
  function AsIpRequests(es: seq<Entry>): (ps: seq<IpRequests>)
    ensures IpEntries(ps) == es
  {
    if es == [] then [] else [IpRequests(es[0].0, es[0].1)] + AsIpRequests(es[1..])
  }

  /**
   `calc_specified_stats(reporter)`, where `urlOrder` and `ipOrder` are the
   orders in which `Object.entries` lists the two maps.  The distinct-IP count
   is the number of IP keys, and each list is the top three of its map.  The
   reporter is only read.
   */
  function CalcSpecifiedStats(reporter: LogReporter, urlOrder: seq<Entry>, ipOrder: seq<Entry>): (s: Stats)
    reads reporter
    requires IsEnumeration(urlOrder, reporter.urlHits)
    requires IsEnumeration(ipOrder, reporter.ipRequests)
    ensures s.nUniqueIpAddresses == |reporter.ipRequests|
    ensures IsTopThree(UrlEntries(s.top3MostVisitedUrls), reporter.urlHits)
    ensures IsTopThree(IpEntries(s.top3MostActiveIpAddresses), reporter.ipRequests)
  {
    TopThreeOfMap(urlOrder, reporter.urlHits);
    TopThreeOfMap(ipOrder, reporter.ipRequests);
    Stats(reporter.NUniqueIpAddresses(),
          AsUrlHits(TopThree(urlOrder)),
          AsIpRequests(TopThree(ipOrder)))
  }

  /** Every map has at least one enumeration, so `CalcSpecifiedStats` applies to every reporter. */
  lemma {:induction false} EnumerationExists(m: map<string, nat>)
    ensures exists es :: IsEnumeration(es, m)
    decreases |m|
  {
    if m == map[] {
      assert IsEnumeration([], m);
    } else {
      var k :| k in m;
      var rest := m - {k};
      RemoveShrinks(m, k);
      EnumerationExists(rest);
      var es: seq<Entry> :| IsEnumeration(es, rest);
      var es' := es + [(k, m[k])];
      forall i | 0 <= i < |es| ensures es'[i].0 != k {
        assert es[i].0 in rest;
      }
      forall k' | k' in m ensures (k', m[k']) in es' {
        if k' != k {
          assert (k', rest[k']) in es;
        } else {
          assert es'[|es|] == (k, m[k]);
        }
      }
      assert IsEnumeration(es', m);
    }
  }

  /** The counts of the URL list do not depend on the enumeration order. */
  lemma UrlCountsIndependentOfOrder(m: CountMap, order1: seq<Entry>, order2: seq<Entry>)
    requires IsEnumeration(order1, m) && IsEnumeration(order2, m)
    ensures var l1, l2 := AsUrlHits(TopThree(order1)), AsUrlHits(TopThree(order2));
      |l1| == |l2| && forall i | 0 <= i < |l1| :: l1[i].nHits == l2[i].nHits
  {
    TopCountsIndependentOfOrder(order1, order2, m);
    var l1, l2 := AsUrlHits(TopThree(order1)), AsUrlHits(TopThree(order2));
    forall i | 0 <= i < |l1| ensures l1[i].nHits == l2[i].nHits {
      assert UrlEntries(l1)[i].1 == CountColumn(TopThree(order1))[i];
      assert UrlEntries(l2)[i].1 == CountColumn(TopThree(order2))[i];
    }
  }

  /** The counts of the IP list do not depend on the enumeration order. */
  lemma IpCountsIndependentOfOrder(m: CountMap, order1: seq<Entry>, order2: seq<Entry>)
    requires IsEnumeration(order1, m) && IsEnumeration(order2, m)
    ensures var l1, l2 := AsIpRequests(TopThree(order1)), AsIpRequests(TopThree(order2));
      |l1| == |l2| && forall i | 0 <= i < |l1| :: l1[i].nRequests == l2[i].nRequests
  {
    TopCountsIndependentOfOrder(order1, order2, m);
    var l1, l2 := AsIpRequests(TopThree(order1)), AsIpRequests(TopThree(order2));
    forall i | 0 <= i < |l1| ensures l1[i].nRequests == l2[i].nRequests {
      assert IpEntries(l1)[i].1 == CountColumn(TopThree(order1))[i];
      assert IpEntries(l2)[i].1 == CountColumn(TopThree(order2))[i];
    }
  }

  /**
   Two calls on the same reporter, whatever enumeration orders the engine
   picks, report the same number of distinct IPs and the same counts at every
   position; only which of several equally counted keys is listed may differ.
   */
  lemma StatsCountsIndependentOfOrder(reporter: LogReporter,
                                      urlOrder1: seq<Entry>, ipOrder1: seq<Entry>,
                                      urlOrder2: seq<Entry>, ipOrder2: seq<Entry>)
    requires IsEnumeration(urlOrder1, reporter.urlHits) && IsEnumeration(urlOrder2, reporter.urlHits)
    requires IsEnumeration(ipOrder1, reporter.ipRequests) && IsEnumeration(ipOrder2, reporter.ipRequests)
    ensures var s1, s2 := CalcSpecifiedStats(reporter, urlOrder1, ipOrder1),
                          CalcSpecifiedStats(reporter, urlOrder2, ipOrder2);
      && s1.nUniqueIpAddresses == s2.nUniqueIpAddresses
      && |s1.top3MostVisitedUrls| == |s2.top3MostVisitedUrls|
      && (forall i | 0 <= i < |s1.top3MostVisitedUrls| ::
            s1.top3MostVisitedUrls[i].nHits == s2.top3MostVisitedUrls[i].nHits)
      && |s1.top3MostActiveIpAddresses| == |s2.top3MostActiveIpAddresses|
      && (forall i | 0 <= i < |s1.top3MostActiveIpAddresses| ::
            s1.top3MostActiveIpAddresses[i].nRequests == s2.top3MostActiveIpAddresses[i].nRequests)
  {
    UrlCountsIndependentOfOrder(reporter.urlHits, urlOrder1, urlOrder2);
    IpCountsIndependentOfOrder(reporter.ipRequests, ipOrder1, ipOrder2);
  }

  /** Entries of a histogram are keys of the sequence, paired with their number of occurrences. */
  lemma HistogramEntries(top: seq<Entry>, keys: seq<string>)
    requires forall i | 0 <= i < |top| :: top[i].0 in Histogram(keys) && Histogram(keys)[top[i].0] == top[i].1
    ensures forall i | 0 <= i < |top| :: top[i].0 in keys && top[i].1 == multiset(keys)[top[i].0]
  {
    HistogramCounts(keys);
    forall i | 0 <= i < |top| ensures top[i].0 in keys && top[i].1 == multiset(keys)[top[i].0] {
      assert CountOf(Histogram(keys), top[i].0) == top[i].1;
    }
  }

  /** Each listed URL was requested by parsed lines, as many times as its count says. */
  lemma UrlListOfHistory(reporter: LogReporter, urlOrder: seq<Entry>)
    requires reporter.Valid()
    requires IsEnumeration(urlOrder, reporter.urlHits)
    ensures var l, a := AsUrlHits(TopThree(urlOrder)), Accepted(reporter.logline, reporter.received);
      forall i | 0 <= i < |l| :: l[i].url in Urls(a) && l[i].nHits == multiset(Urls(a))[l[i].url]
  {
    var top, a := TopThree(urlOrder), Accepted(reporter.logline, reporter.received);
    ReporterHistograms(reporter);
    TopThreeEntries(urlOrder, reporter.urlHits);
    HistogramEntries(top, Urls(a));
    assert UrlEntries(AsUrlHits(top)) == top;
  }

  /** Each listed IP sent parsed lines, as many as its count says. */
  lemma IpListOfHistory(reporter: LogReporter, ipOrder: seq<Entry>)
    requires reporter.Valid()
    requires IsEnumeration(ipOrder, reporter.ipRequests)
    ensures var l, a := AsIpRequests(TopThree(ipOrder)), Accepted(reporter.logline, reporter.received);
      forall i | 0 <= i < |l| :: l[i].ip in Ips(a) && l[i].nRequests == multiset(Ips(a))[l[i].ip]
  {
    var top, a := TopThree(ipOrder), Accepted(reporter.logline, reporter.received);
    ReporterHistograms(reporter);
    TopThreeEntries(ipOrder, reporter.ipRequests);
    HistogramEntries(top, Ips(a));
    assert IpEntries(AsIpRequests(top)) == top;
  }

  /**
   In terms of the lines received: the distinct-IP count is the number of
   distinct IPs of the lines that parsed, and every listed URL or IP occurs in
   a parsed line, with its number of occurrences among them as its count.
   */
  lemma StatsOfHistory(reporter: LogReporter, urlOrder: seq<Entry>, ipOrder: seq<Entry>)
    requires reporter.Valid()
    requires IsEnumeration(urlOrder, reporter.urlHits)
    requires IsEnumeration(ipOrder, reporter.ipRequests)
    ensures var s, a := CalcSpecifiedStats(reporter, urlOrder, ipOrder), Accepted(reporter.logline, reporter.received);
      && s.nUniqueIpAddresses == |set ip | ip in Ips(a)|
      && (forall i | 0 <= i < |s.top3MostVisitedUrls| ::
            var u := s.top3MostVisitedUrls[i]; u.url in Urls(a) && u.nHits == multiset(Urls(a))[u.url])
      && (forall i | 0 <= i < |s.top3MostActiveIpAddresses| ::
            var p := s.top3MostActiveIpAddresses[i]; p.ip in Ips(a) && p.nRequests == multiset(Ips(a))[p.ip])
  {
    var s := CalcSpecifiedStats(reporter, urlOrder, ipOrder);
    assert s.top3MostVisitedUrls == AsUrlHits(TopThree(urlOrder));
    assert s.top3MostActiveIpAddresses == AsIpRequests(TopThree(ipOrder));
    UrlListOfHistory(reporter, urlOrder);
    IpListOfHistory(reporter, ipOrder);
  }

  /** The representative line of the data set. */
  const RepresentativeLine: string := RepresentativeIp +
    " - - [10/Jul/2018:22:21:28 +0200] \"GET /intranet-analytics/ HTTP/1.1\" 200 3574 \"-\" \"Mozilla/5.0 (X11; U; Linux x86_64; fr-FR) AppleWebKit/534.7 (KHTML, like Gecko) Epiphany/2.30.6 Safari/534.7\""

  const RepresentativeIp: string := "177.71.128.21"

  /** What LOGLINE captures in the representative line. */
  const RepresentativeMatch: Exec := Match(Some(Groups(Some(RepresentativeIp), Some("/intranet-analytics/"))))

  /** The representative capture is one a sound engine may return: an IP-shaped piece of the line. */
  lemma RepresentativeMatchPlausible()
    ensures IsIpShape(RepresentativeMatch.groups.value.ip.value)
    ensures OccursAt(RepresentativeMatch.groups.value.ip.value, RepresentativeLine, 0)
  {
    RepresentativeIpShape();
    assert RepresentativeLine[..|RepresentativeIp|] == RepresentativeIp;
  }

  /**
   The representative-line scenario: one line that parses gives no error, one
   line processed, one distinct IP, and a single entry with count 1 in each list.
   */
  method RepresentativeLineScenario(logline: string -> Exec)
    returns (errorCount: nat, linesProcessed: nat, stats: Stats)
    requires logline(RepresentativeLine) == RepresentativeMatch
    ensures errorCount == 0 && linesProcessed == 1
    ensures stats.nUniqueIpAddresses == 1
    ensures stats.top3MostVisitedUrls == [UrlHits("/intranet-analytics/", 1)]
    ensures stats.top3MostActiveIpAddresses == [IpRequests("177.71.128.21", 1)]
  {
    var reporter := new LogReporter(logline);
    reporter.ProcessLine(RepresentativeLine);
    errorCount := |reporter.errors|;
    linesProcessed := reporter.linesProcessed;
    var url, ip := "/intranet-analytics/", "177.71.128.21";
    assert reporter.urlHits == map[url := 1];
    assert reporter.ipRequests == map[ip := 1];
    assert IsEnumeration([(url, 1)], reporter.urlHits);
    assert IsEnumeration([(ip, 1)], reporter.ipRequests);
    stats := CalcSpecifiedStats(reporter, [(url, 1)], [(ip, 1)]);
    assert TopThree([(url, 1)]) == [(url, 1)];
    assert TopThree([(ip, 1)]) == [(ip, 1)];
  }

  /** The badly formatted line of the tests. */
  const BadLine: string := "I am a badly formatted line"

  /**
   The badly-formatted-line scenario: with any engine that runs LOGLINE, the
   line is counted and recorded as an error at index 0, and no progress event
   is emitted.
   */
  method BadlyFormattedLineScenario(logline: string -> Exec)
    returns (errors: seq<ParseError>, linesProcessed: nat, ghost progressCount: nat)
    requires SoundLogLineEngine(logline)
    ensures errors == [ParseError(BadLine, 0)]
    ensures linesProcessed == 1
    ensures progressCount == 0
  {
    assert !HasDigit(BadLine) by {
      forall p | 0 <= p < |BadLine| ensures !IsDigit(BadLine[p]) {
      }
    }
    NoDigitNoMatch(logline, BadLine);
    var reporter := new LogReporter(logline);
    reporter.ProcessLine(BadLine);
    errors := reporter.errors;
    linesProcessed := reporter.linesProcessed;
    progressCount := reporter.progressCount;
  }
}
