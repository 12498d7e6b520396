/** `main`: for each hostname group, the pages of its sitemaps are scraped, the results
    accumulated, diffed against the saved baseline, saved as the new baseline, and
    rendered as HTML for the mail. */
module Run {
  import opened Js
  import opened Records
  import opened Worksheet
  import opened Extract
  import opened Diff
  import opened Html
  import opened Grouping

  // ---------------------------------------------------------------- settled results

  /** One entry of `Promise.allSettled(...)`: a fulfilled promise with its value, where
      `None` is `null`, or a rejected one. */
  datatype Settled<T> = Fulfilled(value: Option<T>) | Rejected

  /** `.filter(r => r.status === 'fulfilled').map(r => r.value).filter(v => v !== null)`. */
  function Kept<T>(rs: seq<Settled<T>>): (xs: seq<T>)
    ensures |xs| <= |rs|
  {
    if rs == [] then []
    else
      Kept(rs[..|rs| - 1])
      + match rs[|rs| - 1] { case Fulfilled(Some(x)) => [x] case _ => [] }
  }

  /** A value is kept exactly when some promise fulfilled with it. */
  lemma {:induction false} KeptMember<T>(rs: seq<Settled<T>>, x: T)
    ensures x in Kept(rs) <==> Fulfilled(Some(x)) in rs
  {
    if rs != [] {
      var init := rs[..|rs| - 1];
      KeptMember(init, x);
      assert rs == init + [rs[|rs| - 1]];
    }
  }

  /** The kept values of two lists of results, in order. */
  lemma {:induction false} KeptConcat<T>(a: seq<Settled<T>>, b: seq<Settled<T>>)
    ensures Kept(a + b) == Kept(a) + Kept(b)
  {
    if b == [] {
      assert a + b == a;
    } else {
      var b' := b[..|b| - 1];
      assert (a + b)[..|a + b| - 1] == a + b';
      assert (a + b)[|a + b| - 1] == b[|b| - 1];
      KeptConcat(a, b');
      AppendAssoc(Kept(a), Kept(b'), Kept([b[|b| - 1]]));
      assert Kept([b[|b| - 1]]) == match b[|b| - 1] { case Fulfilled(Some(x)) => [x] case _ => [] } by {
        assert [b[|b| - 1]][..0] == [];
      }
    }
  }

  /** `allResults` after the loop over a group's sitemaps: the kept results of each
      sitemap, in sitemap order. */
  function AllResults<T>(bs: seq<seq<Settled<T>>>): seq<T> {
    if bs == [] then [] else AllResults(bs[..|bs| - 1]) + Kept(bs[|bs| - 1])
  }

  /** A value is among `allResults` exactly when a promise of one of the sitemaps
      fulfilled with it. */
  lemma {:induction false} AllResultsMember<T>(bs: seq<seq<Settled<T>>>, x: T)
    ensures x in AllResults(bs) <==> exists i :: 0 <= i < |bs| && Fulfilled(Some(x)) in bs[i]
  {
    if bs != [] {
      var init := bs[..|bs| - 1];
      var last := bs[|bs| - 1];
      AllResultsMember(init, x);
      KeptMember(last, x);
      if x in AllResults(init) {
        var i :| 0 <= i < |init| && Fulfilled(Some(x)) in init[i];
        assert Fulfilled(Some(x)) in bs[i];
      } else if x in Kept(last) {
        assert Fulfilled(Some(x)) in bs[|bs| - 1];
      } else {
        forall i | 0 <= i < |bs| ensures Fulfilled(Some(x)) !in bs[i] {
          if i < |init| {
            assert bs[i] == init[i];
          }
        }
      }
    }
  }

  // ---------------------------------------------------------------- scraping a group

  /** What one fetch of a sitemap and the scraping of its pages produce: the pages it
      lists, in order, where `None` is a page whose fetch or scrape failed, so that
      `scrapePage` returned `null`. A sitemap that cannot be fetched lists no pages.
      Each fetch is identified by the sitemap URL and its position among its group's
      URLs, so a sitemap listed twice is fetched twice and may list different pages. */
  type Crawl = (string, nat) -> seq<Option<(string, Page)>>

  /** The settled promise of `scrapePage(url)`, which never rejects. */
  function Settle(page: Option<(string, Page)>): Settled<Record> {
    match page
    case None => Fulfilled(None)
    case Some((url, p)) => Fulfilled(Some(PageRecord(url, p, SchemaTypes(p.blocks))))
  }

  function SettleAll(pages: seq<Option<(string, Page)>>): (rs: seq<Settled<Record>>)
    ensures |rs| == |pages| && forall k :: 0 <= k < |pages| ==> rs[k] == Settle(pages[k])
  {
    seq(|pages|, k requires 0 <= k < |pages| => Settle(pages[k]))
  }

  /** One sitemap's `results`: every page scraped, then the filter chain. */
  method ScrapeSitemap(pages: seq<Option<(string, Page)>>) returns (results: seq<Record>)
    ensures results == Kept(SettleAll(pages))
  {
    var settled: seq<Settled<Record>> := [];
    var k := 0;
    while k < |pages|
      invariant 0 <= k <= |pages|
      invariant settled == SettleAll(pages[..k])
    {
      var outcome: Option<Record> := None;
      match pages[k] {
        case None =>
        case Some((url, page)) =>
          var r := ScrapePage(url, page);
          outcome := Some(r);
      }
      settled := settled + [Fulfilled(outcome)];
      k := k + 1;
    }
    assert pages[..k] == pages;
    results := Kept(settled);
  }

  function Batches(urls: seq<string>, crawl: Crawl): (bs: seq<seq<Settled<Record>>>)
    ensures |bs| == |urls| && forall k :: 0 <= k < |urls| ==> bs[k] == SettleAll(crawl(urls[k], k))
  {
    seq(|urls|, k requires 0 <= k < |urls| => SettleAll(crawl(urls[k], k)))
  }

  /** The records a group of sitemaps yields. */
  function GroupRecords(urls: seq<string>, crawl: Crawl): seq<Record> {
    AllResults(Batches(urls, crawl))
  }

  /** The loop over a group's sitemaps: `allResults = [...allResults, ...results]`. */
  method CollectGroup(urls: seq<string>, crawl: Crawl) returns (allResults: seq<Record>)
    ensures allResults == GroupRecords(urls, crawl)
  {
    allResults := [];
    var k := 0;
    while k < |urls|
      invariant 0 <= k <= |urls|
      invariant allResults == AllResults(Batches(urls[..k], crawl))
    {
      var results := ScrapeSitemap(crawl(urls[k], k));
      assert Batches(urls[..k + 1], crawl)[..k] == Batches(urls[..k], crawl);
      allResults := allResults + results;
      k := k + 1;
    }
    assert urls[..k] == urls;
  }

  /** Every record a group yields is the record of a scraped page, in the
      seventeen-key layout. */
  lemma GroupRecordKeys(urls: seq<string>, crawl: Crawl, x: Record)
    requires x in GroupRecords(urls, crawl)
    ensures Keys(x) == PageKeys
    ensures Get(x, "url").Str?
  {
    var bs := Batches(urls, crawl);
    AllResultsMember(bs, x);
    var i :| 0 <= i < |bs| && Fulfilled(Some(x)) in bs[i];
    var pages := crawl(urls[i], i);
    var k :| 0 <= k < |bs[i]| && bs[i][k] == Fulfilled(Some(x));
    assert Settle(pages[k]) == Fulfilled(Some(x));
    var (url, p) := pages[k].value;
    PageRecordKeys(url, p, SchemaTypes(p.blocks));
    PageRecordFields(url, p, SchemaTypes(p.blocks));
  }

  /** A group's records meet what the diff needs of them. */
  lemma GroupUniform(urls: seq<string>, crawl: Crawl)
    ensures UniformKeys(GroupRecords(urls, crawl))
  {
    var rs := GroupRecords(urls, crawl);
    if rs != [] {
      GroupRecordKeys(urls, crawl, rs[0]);
      PageKeysDistinct();
      forall i | 0 <= i < |rs| ensures Keys(rs[i]) == Keys(rs[0]) {
        GroupRecordKeys(urls, crawl, rs[i]);
      }
    }
  }

  /** Every record of a batch holds a value under some key of the first record. */
  predicate HoldValues(records: seq<Record>) {
    records != []
    && forall i :: 0 <= i < |records| ==>
         exists j :: 0 <= j < |records[0]| && !Get(records[i], records[0][j].key).Absent?
  }

  /** A group's records all hold their `url`, the first key of every scraped record. */
  lemma GroupHoldsValues(urls: seq<string>, crawl: Crawl)
    requires GroupRecords(urls, crawl) != []
    ensures HoldValues(GroupRecords(urls, crawl))
  {
    var rs := GroupRecords(urls, crawl);
    GroupRecordKeys(urls, crawl, rs[0]);
    assert rs[0][0].key == Keys(rs[0])[0] == "url";
    forall i | 0 <= i < |rs|
      ensures exists j :: 0 <= j < |rs[0]| && !Get(rs[i], rs[0][j].key).Absent?
    {
      GroupRecordKeys(urls, crawl, rs[i]);
      assert !Get(rs[i], rs[0][0].key).Absent?;
    }
  }

  // ---------------------------------------------------------------- the run

  /** What one group produces: its workbook name, the worksheet written there and the
      HTML mailed with it. */
  datatype Report = Report(host: string, fileName: string, sheet: Sheet, html: string)

  /** The reports of a run, and the records `oldScrapedData.json` holds at the end. */
  datatype Outcome = Outcome(reports: seq<Report>, saved: seq<Record>)

  function HostRecords(ps: seq<Sitemap>, crawl: Crawl, h: string): seq<Record> {
    GroupRecords(UrlsOf(ps, h), crawl)
  }

  /** The records each hostname's group yields. */
  type Yield = string -> seq<Record>

  function Yields(ps: seq<Sitemap>, crawl: Crawl): Yield {
    h => HostRecords(ps, crawl, h)
  }

  /** The report of a group with records `records`, diffed against `baseline`. */
  function GroupReport(h: string, date: string, records: seq<Record>, baseline: seq<Record>): Report
    requires records != []
  {
    var sheet := DiffSheet(records, baseline).value;
    Report(h, FileName(Sanitize(h), DateSuffix(date)), sheet, RenderHtml(Rows(sheet)))
  }

  /** The groups from `hosts` on, each diffed against the baseline the previous group
      left: a group without records is skipped and leaves the baseline as it was. */
  function RunHosts(hosts: seq<string>, date: string, recs: Yield, baseline: seq<Record>): Outcome
    decreases |hosts|
  {
    if hosts == [] then Outcome([], baseline)
    else
      var records := recs(hosts[0]);
      if records == [] then RunHosts(hosts[1..], date, recs, baseline)
      else
        var rest := RunHosts(hosts[1..], date, recs, Persisted(records));
        Outcome([GroupReport(hosts[0], date, records, baseline)] + rest.reports, rest.saved)
  }

  /** One turn of `main`'s loop over the hostnames. */
  lemma RunHostsStep(hosts: seq<string>, i: nat, date: string, recs: Yield, baseline: seq<Record>)
    requires i < |hosts|
    ensures var records := recs(hosts[i]);
            var out := RunHosts(hosts[i..], date, recs, baseline);
            if records == [] then out == RunHosts(hosts[i + 1..], date, recs, baseline)
            else
              var rest := RunHosts(hosts[i + 1..], date, recs, Persisted(records));
              out == Outcome([GroupReport(hosts[i], date, records, baseline)] + rest.reports, rest.saved)
  {
    assert hosts[i..][0] == hosts[i];
    assert hosts[i..][1..] == hosts[i + 1..];
  }

  /** A run's outcome once `reports` precede the reports of the rest of the run. */
  function Finish(reports: seq<Report>, rest: Outcome): Outcome {
    Outcome(reports + rest.reports, rest.saved)
  }

  /** The loop invariant of `main` before the first hostname. */
  lemma RunStart(hosts: seq<string>, date: string, recs: Yield, baseline: seq<Record>)
    ensures RunHosts(hosts, date, recs, baseline) == Finish([], RunHosts(hosts[0..], date, recs, baseline))
  {
    assert hosts[0..] == hosts;
  }

  /** The loop invariant of `main` carried across one hostname, whose group yields
      `records`. */
  lemma RunInvariantStep(hosts: seq<string>, i: nat, date: string, recs: Yield, baseline: seq<Record>,
                         records: seq<Record>, reports: seq<Report>, saved: seq<Record>,
                         reports': seq<Report>, saved': seq<Record>)
    requires i < |hosts| && records == recs(hosts[i])
    requires RunHosts(hosts, date, recs, baseline) == Finish(reports, RunHosts(hosts[i..], date, recs, saved))
    requires records == [] ==> reports' == reports && saved' == saved
    requires records != [] ==>
               reports' == reports + [GroupReport(hosts[i], date, records, saved)] && saved' == Persisted(records)
    ensures RunHosts(hosts, date, recs, baseline) == Finish(reports', RunHosts(hosts[i + 1..], date, recs, saved'))
  {
    RunHostsStep(hosts, i, date, recs, saved);
    if records != [] {
      AppendAssoc(reports, [GroupReport(hosts[i], date, records, saved)],
                  RunHosts(hosts[i + 1..], date, recs, Persisted(records)).reports);
    }
  }

  /** The loop invariant of `main` after the last hostname. */
  lemma RunDone(hosts: seq<string>, date: string, recs: Yield, baseline: seq<Record>,
                reports: seq<Report>, saved: seq<Record>)
    requires RunHosts(hosts, date, recs, baseline) == Finish(reports, RunHosts(hosts[|hosts|..], date, recs, saved))
    ensures RunHosts(hosts, date, recs, baseline) == Outcome(reports, saved)
  {
    assert hosts[|hosts|..] == [];
    assert reports + [] == reports;
  }

  /** The work on one group with records: its workbook name, the diff against the
      baseline, and the HTML of the saved worksheet. */
  method ReportGroup(hostname: string, date: string, allResults: seq<Record>, saved: seq<Record>)
    returns (report: Report)
    requires allResults != [] && UniformKeys(allResults)
    ensures report == GroupReport(hostname, date, allResults, saved)
  {
    var safeHostname := Sanitize(hostname);
    var dateSuffix := DateSuffix(date);
    var fileName := FileName(safeHostname, dateSuffix);
    var sheet := CreateAndCompare(allResults, saved);
    var html := ConvertToHtml(Rows(sheet.value));
    report := Report(hostname, fileName, sheet.value, html);
  }

  /** One turn of `main`'s loop: the group's sitemaps scraped and, when they yield
      records, the group reported and its records saved as the new baseline. */
  method ProcessHost(hostname: string, urls: seq<string>, date: string, crawl: Crawl,
                     reports: seq<Report>, saved: seq<Record>)
    returns (reports': seq<Report>, saved': seq<Record>)
    ensures var records := GroupRecords(urls, crawl);
            (records == [] ==> reports' == reports && saved' == saved)
            && (records != [] ==>
                  reports' == reports + [GroupReport(hostname, date, records, saved)]
                  && saved' == Persisted(records))
  {
    var allResults := CollectGroup(urls, crawl);
    reports', saved' := reports, saved;
    if |allResults| > 0 {
      GroupUniform(urls, crawl);
      var report := ReportGroup(hostname, date, allResults, saved);
      saved' := Persisted(allResults);
      reports' := reports + [report];
    }
  }

  /** `main()`, given the sitemaps with their hostnames, the clock's ISO date, what the
      network yields and the baseline file's records. */
  method RunScraper(ps: seq<Sitemap>, date: string, crawl: Crawl, baseline: seq<Record>)
    returns (reports: seq<Report>, saved: seq<Record>)
    ensures Outcome(reports, saved) == RunHosts(Hosts(ps), date, Yields(ps, crawl), baseline)
  {
    ghost var recs := Yields(ps, crawl);
    var hosts, groups := GroupByHost(ps);
    reports := [];
    saved := baseline;
    RunStart(hosts, date, recs, baseline);
    var i := 0;
    while i < |hosts|
      invariant 0 <= i <= |hosts|
      invariant RunHosts(hosts, date, recs, baseline) == Finish(reports, RunHosts(hosts[i..], date, recs, saved))
    {
      var hostname := hosts[i];
      ghost var reports0, saved0 := reports, saved;
      reports, saved := ProcessHost(hostname, groups[hostname], date, crawl, reports, saved);
      RunInvariantStep(hosts, i, date, recs, baseline, GroupRecords(groups[hostname], crawl), reports0, saved0, reports, saved);
      i := i + 1;
    }
    RunDone(hosts, date, recs, baseline, reports, saved);
  }

  // ---------------------------------------------------------------- what a run does

  /** The hostnames whose groups yield records, in order. */
  function ActiveHosts(hosts: seq<string>, recs: Yield): (active: seq<string>)
    ensures forall k :: 0 <= k < |active| ==> recs(active[k]) != []
  {
    if hosts == [] then []
    else (if recs(hosts[0]) == [] then [] else [hosts[0]]) + ActiveHosts(hosts[1..], recs)
  }

  /** The baseline the `k`-th report is diffed against: the one the run starts from for
      the first, and for every later one the records of the group reported before it. */
  function BaselineBefore(active: seq<string>, recs: Yield, baseline: seq<Record>, k: nat): seq<Record>
    requires k <= |active|
  {
    if k == 0 then baseline else Persisted(recs(active[k - 1]))
  }

  /** One report per hostname whose group yields records. */
  lemma {:induction false} RunCount(hosts: seq<string>, date: string, recs: Yield, baseline: seq<Record>)
    ensures |RunHosts(hosts, date, recs, baseline).reports| == |ActiveHosts(hosts, recs)|
    decreases |hosts|
  {
    if hosts != [] {
      var records := recs(hosts[0]);
      RunCount(hosts[1..], date, recs, if records == [] then baseline else Persisted(records));
    }
  }

  /** The baseline left at the end is the last reported group's records, or the run's
      baseline when no group reported. */
  lemma {:induction false} RunSaved(hosts: seq<string>, date: string, recs: Yield, baseline: seq<Record>)
    ensures var active := ActiveHosts(hosts, recs);
            RunHosts(hosts, date, recs, baseline).saved
              == if active == [] then baseline else Persisted(recs(active[|active| - 1]))
    decreases |hosts|
  {
    if hosts != [] {
      var records := recs(hosts[0]);
      var tail := hosts[1..];
      RunSaved(tail, date, recs, if records == [] then baseline else Persisted(records));
      var rest := ActiveHosts(tail, recs);
      if records != [] && rest != [] {
        assert ActiveHosts(hosts, recs) == [hosts[0]] + rest;
        ConsLast(hosts[0], rest);
      }
    }
  }

  /** The `k`-th report of a run is the `k`-th reporting group's, diffed against the
      records of the group reported before it. */
  lemma {:induction false} RunReportIs(hosts: seq<string>, date: string, recs: Yield, baseline: seq<Record>, k: nat)
    requires k < |ActiveHosts(hosts, recs)|
    ensures var active := ActiveHosts(hosts, recs);
            var out := RunHosts(hosts, date, recs, baseline);
            k < |out.reports|
            && out.reports[k]
               == GroupReport(active[k], date, recs(active[k]), BaselineBefore(active, recs, baseline, k))
    decreases |hosts|
  {
    var records := recs(hosts[0]);
    var tail := hosts[1..];
    var rest := ActiveHosts(tail, recs);
    if records == [] {
      RunReportIs(tail, date, recs, baseline, k);
      assert ActiveHosts(hosts, recs) == rest;
    } else {
      var report := GroupReport(hosts[0], date, records, baseline);
      var later := RunHosts(tail, date, recs, Persisted(records));
      assert ActiveHosts(hosts, recs) == [hosts[0]] + rest;
      assert RunHosts(hosts, date, recs, baseline).reports == [report] + later.reports;
      if k > 0 {
        RunReportIs(tail, date, recs, Persisted(records), k - 1);
        ConsIndex(report, later.reports, k);
        ConsIndex(hosts[0], rest, k);
        if k > 1 {
          ConsIndex(hosts[0], rest, k - 1);
        }
      }
    }
  }

  /** One report per hostname whose group yields records, in hostname order. Each names
      the workbook after the sanitised hostname and the date, holds the diff of the
      group's records against the PREVIOUS group's records (the run's baseline for the
      first), and mails the HTML of that worksheet. */
  lemma RunReport(hosts: seq<string>, date: string, recs: Yield, baseline: seq<Record>, k: nat)
    requires k < |ActiveHosts(hosts, recs)|
    ensures var active := ActiveHosts(hosts, recs);
            var out := RunHosts(hosts, date, recs, baseline);
            k < |out.reports|
            && out.reports[k].host == active[k]
            && out.reports[k].fileName == FileName(Sanitize(active[k]), DateSuffix(date))
            && Some(out.reports[k].sheet)
                 == DiffSheet(recs(active[k]), BaselineBefore(active, recs, baseline, k))
            && out.reports[k].html == RenderHtml(Rows(out.reports[k].sheet))
  {
    RunReportIs(hosts, date, recs, baseline, k);
  }

  /** Each group is diffed against the baseline, or against the group reported before
      it, and nothing else: the second reporting group's worksheet marks no cell when
      none of its URLs is also a URL of the first. */
  lemma SecondGroupAgainstFirst(hosts: seq<string>, ps: seq<Sitemap>, date: string, crawl: Crawl, baseline: seq<Record>)
    requires |ActiveHosts(hosts, Yields(ps, crawl))| >= 2
    requires var active := ActiveHosts(hosts, Yields(ps, crawl));
             var first := HostRecords(ps, crawl, active[0]);
             var second := HostRecords(ps, crawl, active[1]);
             forall i, j :: 0 <= i < |second| && 0 <= j < |first| ==> Get(second[i], "url") != Get(first[j], "url")
    ensures var out := RunHosts(hosts, date, Yields(ps, crawl), baseline);
            |out.reports| >= 2
            && forall i, c :: 0 <= i < |out.reports[1].sheet.rows| && 0 <= c < |out.reports[1].sheet.rows[i]| ==>
                 out.reports[1].sheet.rows[i][c].fill == NoFill
  {
    var recs := Yields(ps, crawl);
    var active := ActiveHosts(hosts, recs);
    var first := recs(active[0]);
    var second := recs(active[1]);
    var persisted := Persisted(first);
    RunReportIs(hosts, date, recs, baseline, 1);
    var sheet := RunHosts(hosts, date, recs, baseline).reports[1].sheet;
    assert sheet == DiffSheet(second, persisted).value;
    forall i | 0 <= i < |second|
      ensures forall k :: 0 <= k < |persisted| ==> Get(persisted[k], "url") != Get(second[i], "url")
    {
      forall k | 0 <= k < |persisted| ensures Get(persisted[k], "url") != Get(second[i], "url") {
        GroupRecordKeys(UrlsOf(ps, active[0]), crawl, first[k]);
        PageKeysDistinct();
        JsonRoundTripGet(first[k], "url");
      }
    }
    forall i, c | 0 <= i < |sheet.rows| && 0 <= c < |sheet.rows[i]|
      ensures sheet.rows[i][c].fill == NoFill
    {
      assert sheet.rows[i] == DiffRow(sheet.columns, second[i], persisted);
      NoMatchNoMarks(sheet.columns, second[i], persisted);
    }
  }

  // ---------------------------------------------------------------- the mailed HTML

  lemma {:induction false} HeaderTextsOfStrings(cells: seq<Cell>)
    requires forall j :: 0 <= j < |cells| ==> cells[j].value.Str?
    ensures |HeaderTexts(cells)| == |cells|
    ensures forall j :: 0 <= j < |cells| ==> HeaderTexts(cells)[j] == cells[j].value.s
  {
    if cells != [] {
      HeaderTextsOfStrings(cells[1..]);
    }
  }

  /** No label or value of the worksheet contains `<` when no key label and no record
      value does. */
  lemma SheetPlain(records: seq<Record>, baseline: seq<Record>)
    requires records != []
    requires forall j :: 0 <= j < |records[0]| ==> '<' !in Capitalize(records[0][j].key)
    requires forall i, j :: 0 <= i < |records| && 0 <= j < |records[0]| ==>
               '<' !in TextOrEmpty(Get(records[i], records[0][j].key))
    ensures PlainTexts(Rows(DiffSheet(records, baseline).value))
  {
    var sheet := DiffSheet(records, baseline).value;
    var t := Rows(sheet);
    assert HeaderRowOf(t) == HeaderRow(sheet.columns);
    assert BodyRows(t) == sheet.rows;
    SheetRowsPlain(records, baseline);
    var rows: seq<seq<Cell>> := DataRowsOf(t);
    forall i, j | 0 <= i < |rows| && 0 <= j < |rows[i]|
      ensures '<' !in TextOrEmpty(rows[i][j].value)
    {
      ValuedRowsMember(sheet.rows, rows[i]);
      var k :| 0 <= k < |sheet.rows| && sheet.rows[k] == rows[i];
    }
  }

  /** No value of a worksheet row contains `<` when no record value does. */
  lemma SheetRowsPlain(records: seq<Record>, baseline: seq<Record>)
    requires records != []
    requires forall i, j :: 0 <= i < |records| && 0 <= j < |records[0]| ==>
               '<' !in TextOrEmpty(Get(records[i], records[0][j].key))
    ensures var rows := DiffSheet(records, baseline).value.rows;
            forall i, j :: 0 <= i < |rows| && 0 <= j < |rows[i]| ==> '<' !in TextOrEmpty(rows[i][j].value)
  {
    var sheet := DiffSheet(records, baseline).value;
    forall i, j | 0 <= i < |sheet.rows| && 0 <= j < |sheet.rows[i]|
      ensures '<' !in TextOrEmpty(sheet.rows[i][j].value)
    {
      assert sheet.rows[i] == DiffRow(sheet.columns, records[i], baseline);
    }
  }

  /** Every row of the worksheet holds a value when every record does, so `eachRow`
      visits every row. */
  lemma SheetRowsHaveValues(records: seq<Record>, baseline: seq<Record>)
    requires HoldValues(records)
    ensures var rows := DiffSheet(records, baseline).value.rows;
            forall i :: 0 <= i < |rows| ==> HasValue(rows[i])
  {
    var sheet := DiffSheet(records, baseline).value;
    var cols := sheet.columns;
    forall i | 0 <= i < |sheet.rows| ensures HasValue(sheet.rows[i]) {
      var j :| 0 <= j < |records[0]| && !Get(records[i], records[0][j].key).Absent?;
      assert cols[j].key == Keys(records[0])[j] == records[0][j].key;
      assert sheet.rows[i] == DiffRow(cols, records[i], baseline);
      MarkedIff(cols, records[i], baseline, j);
      assert !sheet.rows[i][j].value.Absent?;
    }
  }

  /** The header labels the worksheet of a group shows: one per key, capitalised. */
  lemma ShownHeaders(records: seq<Record>, baseline: seq<Record>)
    requires records != []
    ensures var keys := Keys(records[0]);
            var shown := Shown(Rows(DiffSheet(records, baseline).value));
            |shown.headers| == |keys|
            && forall j :: 0 <= j < |keys| ==> shown.headers[j] == Capitalize(keys[j])
  {
    var sheet := DiffSheet(records, baseline).value;
    var t := Rows(sheet);
    var header := HeaderRow(sheet.columns);
    assert HeaderRowOf(t) == header;
    HeaderTextsOfStrings(header);
  }

  /** When every record holds a value, the table shows every row of the worksheet. */
  lemma ShownBody(records: seq<Record>, baseline: seq<Record>)
    requires HoldValues(records)
    ensures var sheet := DiffSheet(records, baseline).value;
            Shown(Rows(sheet)).rows == ShowRows(sheet.rows)
  {
    var sheet := DiffSheet(records, baseline).value;
    assert BodyRows(Rows(sheet)) == sheet.rows;
    SheetRowsHaveValues(records, baseline);
    ValuedRowsAll(sheet.rows);
  }

  /** What the worksheet's rows show: per record and key the record's value, yellow
      exactly when the diff marked it. */
  lemma SheetShownRows(records: seq<Record>, baseline: seq<Record>)
    requires records != []
    ensures var keys := Keys(records[0]);
            var shown := ShowRows(DiffSheet(records, baseline).value.rows);
            |shown| == |records|
            && (forall i :: 0 <= i < |records| ==> |shown[i]| == |keys|)
            && (forall i, j :: 0 <= i < |records| && 0 <= j < |keys| ==>
                  shown[i][j]
                    == ShownCell(TextOrEmpty(Get(records[i], keys[j])), Marked(records[i], baseline, keys[j])))
  {
    var cols := Columns(records[0]);
    var sheet := DiffSheet(records, baseline).value;
    HighlightIsHighlighted();
    var shown := ShowRows(sheet.rows);
    forall i, j | 0 <= i < |records| && 0 <= j < |cols|
      ensures shown[i][j]
                == ShownCell(TextOrEmpty(Get(records[i], Keys(records[0])[j])), Marked(records[i], baseline, Keys(records[0])[j]))
    {
      assert shown[i] == ShowRow(sheet.rows[i]);
      assert sheet.rows[i] == DiffRow(cols, records[i], baseline);
    }
  }

  /** The body rows the mailed table shows: when every record holds a value, one per
      record, with per key the record's value, yellow exactly when the diff marked it. */
  lemma ShownRows(records: seq<Record>, baseline: seq<Record>)
    requires HoldValues(records)
    ensures var keys := Keys(records[0]);
            var shown := Shown(Rows(DiffSheet(records, baseline).value));
            |shown.rows| == |records|
            && (forall i :: 0 <= i < |records| ==> |shown.rows[i]| == |keys|)
            && (forall i, j :: 0 <= i < |records| && 0 <= j < |keys| ==>
                  shown.rows[i][j]
                    == ShownCell(TextOrEmpty(Get(records[i], keys[j])), Marked(records[i], baseline, keys[j])))
  {
    ShownBody(records, baseline);
    SheetShownRows(records, baseline);
  }

  /** The HTML mailed for a group reads back as that table, when no label or value
      contains `<`. */
  lemma SheetHtmlShowsMarks(records: seq<Record>, baseline: seq<Record>)
    requires records != []
    requires forall j :: 0 <= j < |records[0]| ==> '<' !in Capitalize(records[0][j].key)
    requires forall i, j :: 0 <= i < |records| && 0 <= j < |records[0]| ==>
               '<' !in TextOrEmpty(Get(records[i], records[0][j].key))
    ensures var t := Rows(DiffSheet(records, baseline).value);
            ParseHtml(RenderHtml(t)) == Some(Shown(t))
  {
    SheetPlain(records, baseline);
    RenderRoundTrip(Rows(DiffSheet(records, baseline).value));
  }
}
