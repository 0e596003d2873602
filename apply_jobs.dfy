/** The apply script (apply_jobs.py): every URL read from jobs.csv gets exactly
    one of five outcomes, and each enqueueing outcome hands the URL to the
    writer of that outcome's file.

    The browser is replaced by an oracle `probe: nat -> Probe`: `probe(i)` is
    what the job page shows when the script opens the URL of row `i`. The
    four writer threads each own one file and drain one FIFO queue; since no
    file has a second writer and the routing loop never reads the files back,
    the model runs each writer after the routing loop on the whole sequence
    of messages its queue receives. */
module ApplyJobs {
  import opened Tables

  /** The state of an opened job page, in the order the script checks it:
      an "already applied" marker, else a company-site button, else the
      Apply button followed (or not, within the wait) by the confirmation. */
  datatype Probe = AlreadyApplied | CompanySite | Actionable(succeeds: bool)

  /** The five outcomes of one row; each has its own counter. */
  datatype Outcome =
    | SkippedKnown          // skip_job_applied: URL already in a skip set
    | AppliedBefore         // already_applied: marker found on the page
    | CompanySiteRedirect   // company_sites_count: company-site button found
    | AppliedNow            // success_apply: confirmation appeared
    | ManualApply           // error_apply: TimeoutException while applying

  /** One item of a writer's queue: a URL, or the `None` sentinel. */
  datatype Message = Put(url: string) | Sentinel

  /** The header every writer gives the file it creates. */
  const UrlHeader: Row := ["URL"]

  // ---------------------------------------------------------------------------
  // load_urls_from_csv

  /** The first column of every row after the header; the empty set for a
      missing file; an IndexError (reported with its row number) at a blank
      row after the header. */
  function LoadUrls(f: File): (r: Loaded)
    ensures f.None? ==> r == Keys({})
    ensures r.Keys? <==> forall i :: 1 <= i < |Contents(f)| ==> Contents(f)[i] != []
    ensures r.Keys? ==> forall u :: u in r.keys <==>
              exists i :: 1 <= i < |Contents(f)| && Contents(f)[i][0] == u
    ensures r.BlankRow? ==> 1 <= r.index < |Contents(f)| && Contents(f)[r.index] == []
  {
    var t := Contents(f);
    var body := if |t| == 0 then [] else t[1..];
    assert forall i :: 1 <= i < |t| ==> t[i] == body[i - 1];
    assert forall j :: 0 <= j < |body| ==> body[j] == t[j + 1];
    match LoadFirstColumn(body)
    case Keys(ks) => Keys(ks)
    case BlankRow(j) => BlankRow(j + 1)
  }

  // ---------------------------------------------------------------------------
  // write_to_csv

  /** The file after the writer's first step: a header row is written (with
      mode 'w') when the file is absent or empty; otherwise it is left alone. */
  function Opened(f: File, headers: Row): Table {
    if f.None? || f.value == [] then [headers] else f.value
  }

  /** Position of the first sentinel in a queue, or its length. */
  function SentinelAt(q: seq<Message>): (k: nat)
    ensures k <= |q|
    ensures Sentinel !in q[..k]
    ensures forall j :: 0 <= j < k ==> q[j] != Sentinel
    ensures k < |q| ==> q[k] == Sentinel
  {
    if q == [] || q[0] == Sentinel then 0
    else
      var k := 1 + SentinelAt(q[1..]);
      assert q[..k] == [q[0]] + q[1..][..k - 1];
      k
  }

  /** The URLs of a run of messages that holds no sentinel. */
  function UrlsOf(ms: seq<Message>): (us: seq<string>)
    requires Sentinel !in ms
    ensures |us| == |ms|
  {
    seq(|ms|, i requires 0 <= i < |ms| => ms[i].url)
  }

  /** What `queue.put` hands over for a sequence of URLs. */
  function Messages(us: seq<string>): (ms: seq<Message>)
    ensures |ms| == |us|
  {
    seq(|us|, i requires 0 <= i < |us| => Put(us[i]))
  }

  /** The URLs a writer takes off its queue before it meets the sentinel. */
  function Delivered(q: seq<Message>): seq<string> {
    UrlsOf(q[..SentinelAt(q)])
  }

  /** The writer thread: header step, then one single-field row appended per
      dequeued URL, in queue order and without de-duplication, until the
      sentinel (or until the queue runs dry, where the thread would block). */
  method WriteToCsv(f: File, queue: seq<Message>, headers: Row) returns (written: Table, stopped: bool)
    ensures written == Opened(f, headers) + SingleFieldRows(Delivered(queue))
    ensures stopped <==> Sentinel in queue
  {
    if f.None? || f.value == [] {
      written := [headers];
    } else {
      written := f.value;
    }
    stopped := false;
    ghost var taken: seq<string> := [];
    var i := 0;
    while i < |queue|
      invariant i <= SentinelAt(queue)
      invariant !stopped
      invariant taken == UrlsOf(queue[..i])
      invariant written == Opened(f, headers) + SingleFieldRows(taken)
    {
      var data := queue[i];
      if data == Sentinel {
        stopped := true;
        break;
      }
      DequeueStep(queue, i);
      SingleFieldRowsAppend(taken, data.url);
      written := written + [[data.url]];
      taken := taken + [data.url];
      i := i + 1;
    }
    assert i == SentinelAt(queue);
    if !stopped {
      assert queue[..i] == queue;
    }
  }

  /** Taking one more URL off the queue, before any sentinel. */
  lemma DequeueStep(q: seq<Message>, i: nat)
    requires i < SentinelAt(q)
    ensures UrlsOf(q[..i + 1]) == UrlsOf(q[..i]) + [q[i].url]
  {
    assert q[..i + 1] == q[..i] + [q[i]];
  }

  /** The first sentinel after a run of `queue.put` URLs comes after all of them. */
  lemma {:induction false} SentinelAtAfterUrls(us: seq<string>, tail: seq<Message>)
    ensures SentinelAt(Messages(us) + tail) == |us| + SentinelAt(tail)
    decreases |us|
  {
    if us == [] {
      assert Messages(us) + tail == tail;
    } else {
      var q := Messages(us) + tail;
      assert q[0] == Put(us[0]);
      assert q[1..] == Messages(us[1..]) + tail;
      SentinelAtAfterUrls(us[1..], tail);
    }
  }

  /** The shutdown protocol: once the sentinel follows the URLs put on a
      queue, the writer delivers exactly those URLs, in order and with their
      repeats, and nothing put after the sentinel. Without a sentinel it has
      delivered them all the same (and then waits). */
  lemma SentinelFlushes(us: seq<string>, rest: seq<Message>)
    ensures Delivered(Messages(us) + [Sentinel] + rest) == us
    ensures Delivered(Messages(us)) == us
  {
    var q := Messages(us) + ([Sentinel] + rest);
    assert Messages(us) + [Sentinel] + rest == q;
    SentinelAtAfterUrls(us, [Sentinel] + rest);
    assert q[..|us|] == Messages(us);
    SentinelAtAfterUrls(us, []);
    assert Messages(us) + [] == Messages(us);
  }

  /** The writer threads start, and write their headers, before the skip sets
      are loaded; whichever runs first, the loaded set is the same. */
  lemma HeaderRaceIsHarmless(f: File, headers: Row)
    ensures LoadUrls(Some(Opened(f, headers))) == LoadUrls(f)
  {
  }

  // ---------------------------------------------------------------------------
  // The routing loop

  /** The script's globals: the two in-memory skip sets, the five counters and
      the contents put on the four writer queues so far. */
  datatype Run = Run(
    alreadyAppliedUrls: set<string>, companySitesUrls: set<string>,
    skipJobApplied: nat, alreadyApplied: nat, companySitesCount: nat,
    successApply: nat, errorApply: nat,
    alreadyAppliedQueue: seq<string>, companySitesQueue: seq<string>,
    successAppliedQueue: seq<string>, failedJobsQueue: seq<string>)

  /** The globals before the first row: loaded skip sets, zero counters, empty queues. */
  function Start(alreadyAppliedUrls: set<string>, companySitesUrls: set<string>): Run {
    Run(alreadyAppliedUrls, companySitesUrls, 0, 0, 0, 0, 0, [], [], [], [])
  }

  /** Sum of the five counters. */
  function Total(r: Run): nat {
    r.skipJobApplied + r.alreadyApplied + r.companySitesCount + r.successApply + r.errorApply
  }

  /** The branch a URL takes: the skip sets are consulted before the page is
      opened; the page's marker wins over its company-site button. */
  function Classify(r: Run, url: string, p: Probe): Outcome {
    if url in r.alreadyAppliedUrls || url in r.companySitesUrls then SkippedKnown
    else match p
      case AlreadyApplied => AppliedBefore
      case CompanySite => CompanySiteRedirect
      case Actionable(succeeds) => if succeeds then AppliedNow else ManualApply
  }

  /** One iteration of the loop: bump the outcome's counter, put the URL on
      the outcome's queue, and add it to a skip set for the first two
      enqueueing outcomes only. */
  function Route(r: Run, url: string, p: Probe): (r': Run)
    ensures Total(r') == Total(r) + 1
  {
    match Classify(r, url, p)
    case SkippedKnown =>
      r.(skipJobApplied := r.skipJobApplied + 1)
    case AppliedBefore =>
      r.(alreadyApplied := r.alreadyApplied + 1,
         alreadyAppliedQueue := r.alreadyAppliedQueue + [url],
         alreadyAppliedUrls := r.alreadyAppliedUrls + {url})
    case CompanySiteRedirect =>
      r.(companySitesCount := r.companySitesCount + 1,
         companySitesQueue := r.companySitesQueue + [url],
         companySitesUrls := r.companySitesUrls + {url})
    case AppliedNow =>
      r.(successApply := r.successApply + 1,
         successAppliedQueue := r.successAppliedQueue + [url])
    case ManualApply =>
      r.(errorApply := r.errorApply + 1,
         failedJobsQueue := r.failedJobsQueue + [url])
  }

  /** The globals after routing `urls`, row `i` seeing page `probe(i)`. */
  function RouteAll(r: Run, urls: seq<string>, probe: nat -> Probe): Run
    decreases |urls|
  {
    if |urls| == 0 then r
    else Route(RouteAll(r, urls[..|urls| - 1], probe), urls[|urls| - 1], probe(|urls| - 1))
  }

  /** The outcome of each routed row: row `i` is classified against the
      globals left by the rows before it. */
  function Trace(r: Run, urls: seq<string>, probe: nat -> Probe): (t: seq<Outcome>)
    ensures |t| == |urls|
  {
    seq(|urls|, i requires 0 <= i < |urls| => Classify(RouteAll(r, urls[..i], probe), urls[i], probe(i)))
  }

  /** The URLs whose outcome is `o`, in row order. */
  function Select(urls: seq<string>, t: seq<Outcome>, o: Outcome): seq<string>
    requires |urls| == |t|
    decreases |urls|
  {
    if |urls| == 0 then []
    else
      var n := |urls| - 1;
      Select(urls[..n], t[..n], o) + (if t[n] == o then [urls[n]] else [])
  }

  lemma {:induction false} SelectMember(urls: seq<string>, t: seq<Outcome>, o: Outcome, u: string)
    requires |urls| == |t|
    ensures u in Select(urls, t, o) <==> exists i :: 0 <= i < |urls| && t[i] == o && urls[i] == u
    decreases |urls|
  {
    if urls != [] {
      var n := |urls| - 1;
      SelectMember(urls[..n], t[..n], o, u);
      if exists i :: 0 <= i < |urls| && t[i] == o && urls[i] == u {
        var i :| 0 <= i < |urls| && t[i] == o && urls[i] == u;
        if i < n {
          assert urls[..n][i] == u && t[..n][i] == o;
        }
      }
      if u in Select(urls[..n], t[..n], o) {
        var i :| 0 <= i < n && t[..n][i] == o && urls[..n][i] == u;
        assert t[i] == o && urls[i] == u;
      }
    }
  }

  /** Every routed row increments exactly one counter. */
  lemma {:induction false} CountersSumToRows(r: Run, urls: seq<string>, probe: nat -> Probe)
    ensures Total(RouteAll(r, urls, probe)) == Total(r) + |urls|
    decreases |urls|
  {
    if urls != [] {
      CountersSumToRows(r, urls[..|urls| - 1], probe);
    }
  }

  /** The counter an outcome increments. */
  function Counter(r: Run, o: Outcome): nat {
    match o
    case SkippedKnown => r.skipJobApplied
    case AppliedBefore => r.alreadyApplied
    case CompanySiteRedirect => r.companySitesCount
    case AppliedNow => r.successApply
    case ManualApply => r.errorApply
  }

  /** The writer queue an enqueueing outcome puts its URL on. */
  function Queue(r: Run, o: Outcome): seq<string>
    requires o != SkippedKnown
  {
    match o
    case AppliedBefore => r.alreadyAppliedQueue
    case CompanySiteRedirect => r.companySitesQueue
    case AppliedNow => r.successAppliedQueue
    case ManualApply => r.failedJobsQueue
  }

  /** One routed row moves its outcome's counter by one and appends its URL
      to its outcome's queue; every other counter and queue stays put. */
  lemma RouteStep(r: Run, url: string, p: Probe, o: Outcome)
    ensures Counter(Route(r, url, p), o) == Counter(r, o) + (if Classify(r, url, p) == o then 1 else 0)
    ensures o != SkippedKnown ==>
              Queue(Route(r, url, p), o) == Queue(r, o) + (if Classify(r, url, p) == o then [url] else [])
  {
  }

  /** Routing `urls` is routing all but the last, then the last. */
  lemma RouteAllLast(r: Run, urls: seq<string>, probe: nat -> Probe)
    requires urls != []
    ensures var n := |urls| - 1;
            && Trace(r, urls, probe)[..n] == Trace(r, urls[..n], probe)
            && Trace(r, urls, probe)[n] == Classify(RouteAll(r, urls[..n], probe), urls[n], probe(n))
  {
    var n := |urls| - 1;
    var t, tp := Trace(r, urls, probe), Trace(r, urls[..n], probe);
    forall i | 0 <= i < n ensures t[i] == tp[i] {
      assert urls[..n][..i] == urls[..i];
      assert urls[..n][i] == urls[i];
    }
    assert t[..n] == tp;
  }

  /** Each counter grows by the number of rows routed to its outcome. */
  lemma {:induction false} RoutedCounter(r: Run, urls: seq<string>, probe: nat -> Probe, o: Outcome)
    ensures Counter(RouteAll(r, urls, probe), o) == Counter(r, o) + |Select(urls, Trace(r, urls, probe), o)|
    decreases |urls|
  {
    if urls != [] {
      var n := |urls| - 1;
      RoutedCounter(r, urls[..n], probe, o);
      RouteAllLast(r, urls, probe);
      RouteStep(RouteAll(r, urls[..n], probe), urls[n], probe(n), o);
    }
  }

  /** Each queue receives exactly the URLs of the rows routed to its
      outcome, in row order, repeats included. */
  lemma {:induction false} RoutedQueue(r: Run, urls: seq<string>, probe: nat -> Probe, o: Outcome)
    requires o != SkippedKnown
    ensures Queue(RouteAll(r, urls, probe), o) == Queue(r, o) + Select(urls, Trace(r, urls, probe), o)
    decreases |urls|
  {
    if urls != [] {
      var n := |urls| - 1;
      RoutedQueue(r, urls[..n], probe, o);
      RouteAllLast(r, urls, probe);
      RouteStep(RouteAll(r, urls[..n], probe), urls[n], probe(n), o);
    }
  }

  /** The skip sets grow by the URLs found already applied or redirected to
      a company site, and by nothing else. */
  lemma {:induction false} RoutedSkipSets(r: Run, urls: seq<string>, probe: nat -> Probe)
    ensures var r', t := RouteAll(r, urls, probe), Trace(r, urls, probe);
            && (forall u :: u in r'.alreadyAppliedUrls <==>
                             u in r.alreadyAppliedUrls || u in Select(urls, t, AppliedBefore))
            && (forall u :: u in r'.companySitesUrls <==>
                             u in r.companySitesUrls || u in Select(urls, t, CompanySiteRedirect))
    decreases |urls|
  {
    if urls != [] {
      var n := |urls| - 1;
      RoutedSkipSets(r, urls[..n], probe);
      RouteAllLast(r, urls, probe);
    }
  }

  /** A row is skipped exactly when its URL was in a loaded skip set, or an
      earlier row with the same URL was found already applied or redirected
      to a company site. An earlier success or timeout does not count: such a
      URL is opened again. */
  lemma SkippedIff(r: Run, urls: seq<string>, probe: nat -> Probe, j: nat)
    requires j < |urls|
    ensures var t := Trace(r, urls, probe);
            t[j] == SkippedKnown <==>
              || urls[j] in r.alreadyAppliedUrls
              || urls[j] in r.companySitesUrls
              || exists i :: 0 <= i < j && urls[i] == urls[j] &&
                             (t[i] == AppliedBefore || t[i] == CompanySiteRedirect)
  {
    var t := Trace(r, urls, probe);
    var p := urls[..j];
    var u := urls[j];
    var tp := Trace(r, p, probe);
    assert forall i :: 0 <= i < j ==> p[..i] == urls[..i];
    assert forall i :: 0 <= i < j ==> tp[i] == t[i] && p[i] == urls[i];
    RoutedSkipSets(r, p, probe);
    SelectMember(p, tp, AppliedBefore, u);
    SelectMember(p, tp, CompanySiteRedirect, u);
    var known := RouteAll(r, p, probe);
    assert t[j] == Classify(known, u, probe(j));
    assert t[j] == SkippedKnown <==> u in known.alreadyAppliedUrls || u in known.companySitesUrls;
    assert u in known.alreadyAppliedUrls <==> u in r.alreadyAppliedUrls || u in Select(p, tp, AppliedBefore);
    assert u in known.companySitesUrls <==> u in r.companySitesUrls || u in Select(p, tp, CompanySiteRedirect);
  }

  /** A URL already in a skip set is not opened: the probe cannot influence
      the step, no queue receives it, and only the skip counter moves. */
  lemma KnownUrlIsNotProbed(r: Run, url: string, p: Probe)
    requires url in r.alreadyAppliedUrls || url in r.companySitesUrls
    ensures Route(r, url, p) == r.(skipJobApplied := r.skipJobApplied + 1)
  {
  }

  /** Routing one more row of jobs.csv, before its first blank row. */
  lemma RouteJobsStep(start: Run, jobs: Table, i: nat, probe: nat -> Probe)
    requires i < FirstBlank(jobs)
    ensures RouteAll(start, FirstColumn(jobs[..i + 1]), probe) ==
            Route(RouteAll(start, FirstColumn(jobs[..i]), probe), jobs[i][0], probe(i))
  {
    var c := FirstColumn(jobs[..i + 1]);
    assert c[..i] == FirstColumn(jobs[..i]);
  }

  /** The main loop over the rows of jobs.csv. `job[0]` raises IndexError at
      the first blank row, which ends the script there (`completed` false). */
  method RouteJobs(jobs: Table, loadedAlreadyApplied: set<string>, loadedCompanySites: set<string>,
                   probe: nat -> Probe)
    returns (run: Run, completed: bool)
    ensures completed <==> forall i :: 0 <= i < |jobs| ==> jobs[i] != []
    ensures run == RouteAll(Start(loadedAlreadyApplied, loadedCompanySites),
                            FirstColumn(jobs[..FirstBlank(jobs)]), probe)
  {
    var alreadyAppliedUrls, companySitesUrls := loadedAlreadyApplied, loadedCompanySites;
    var skipJobApplied, alreadyApplied, companySitesCount, successApply, errorApply := 0, 0, 0, 0, 0;
    var alreadyAppliedQueue, companySitesQueue, successAppliedQueue, failedJobsQueue := [], [], [], [];
    ghost var start := Start(loadedAlreadyApplied, loadedCompanySites);
    var i := 0;
    while i < |jobs|
      invariant i <= FirstBlank(jobs)
      invariant Run(alreadyAppliedUrls, companySitesUrls,
                    skipJobApplied, alreadyApplied, companySitesCount, successApply, errorApply,
                    alreadyAppliedQueue, companySitesQueue, successAppliedQueue, failedJobsQueue)
                == RouteAll(start, FirstColumn(jobs[..i]), probe)
    {
      var job := jobs[i];
      if job == [] {
        break;
      }
      ghost var before := Run(alreadyAppliedUrls, companySitesUrls,
                              skipJobApplied, alreadyApplied, companySitesCount, successApply, errorApply,
                              alreadyAppliedQueue, companySitesQueue, successAppliedQueue, failedJobsQueue);
      var jobUrl := job[0];
      if jobUrl in alreadyAppliedUrls || jobUrl in companySitesUrls {
        skipJobApplied := skipJobApplied + 1;
      } else {
        match probe(i)
        case AlreadyApplied =>
          alreadyApplied := alreadyApplied + 1;
          alreadyAppliedQueue := alreadyAppliedQueue + [jobUrl];
          alreadyAppliedUrls := alreadyAppliedUrls + {jobUrl};
        case CompanySite =>
          companySitesCount := companySitesCount + 1;
          companySitesQueue := companySitesQueue + [jobUrl];
          companySitesUrls := companySitesUrls + {jobUrl};
        case Actionable(succeeds) =>
          if succeeds {
            successApply := successApply + 1;
            successAppliedQueue := successAppliedQueue + [jobUrl];
          } else {
            errorApply := errorApply + 1;
            failedJobsQueue := failedJobsQueue + [jobUrl];
          }
      }
      assert Run(alreadyAppliedUrls, companySitesUrls,
                 skipJobApplied, alreadyApplied, companySitesCount, successApply, errorApply,
                 alreadyAppliedQueue, companySitesQueue, successAppliedQueue, failedJobsQueue)
             == Route(before, jobUrl, probe(i));
      RouteJobsStep(start, jobs, i, probe);
      i := i + 1;
    }
    FirstBlankIs(jobs, i);
    completed := i == |jobs|;
    run := Run(alreadyAppliedUrls, companySitesUrls,
               skipJobApplied, alreadyApplied, companySitesCount, successApply, errorApply,
               alreadyAppliedQueue, companySitesQueue, successAppliedQueue, failedJobsQueue);
  }

  /** One writer thread from start to end: it receives the URLs put on its
      queue, then the sentinel when the routing loop ran to its end. It
      writes every URL, and it stops (so that `join` returns) exactly when
      the sentinel was sent. */
  method DrainQueue(f: File, urls: seq<string>, sentinelSent: bool) returns (written: Table, stopped: bool)
    ensures written == Opened(f, UrlHeader) + SingleFieldRows(urls)
    ensures stopped == sentinelSent
  {
    var queue := Messages(urls);
    if sentinelSent {
      queue := queue + [Sentinel];
      SentinelFlushes(urls, []);
      assert Messages(urls) + [Sentinel] + [] == queue;
    } else {
      SentinelFlushes(urls, []);
    }
    written, stopped := WriteToCsv(f, queue, UrlHeader);
    assert Sentinel in queue <==> sentinelSent by {
      if !sentinelSent {
        assert forall i :: 0 <= i < |queue| ==> queue[i] == Put(urls[i]);
      }
    }
  }

  /** The whole script. The writer threads start first and write their
      headers; the skip sets are loaded from already_applied.csv and
      company_sites.csv (an IndexError there, or a missing jobs.csv, ends the
      script before any row is routed); the rows are routed; the sentinels
      are put and the writers joined. When the script dies early the writers
      still drain what was put, but no sentinel comes and they never stop. */
  method ApplyJobsScript(jobsFile: File, alreadyAppliedFile: File, companySitesFile: File,
                         successAppliedFile: File, failedJobsFile: File, probe: nat -> Probe)
    returns (alreadyAppliedOut: Table, companySitesOut: Table, successAppliedOut: Table,
             failedJobsOut: Table, run: Run, finished: bool)
    ensures alreadyAppliedOut == Opened(alreadyAppliedFile, UrlHeader) + SingleFieldRows(run.alreadyAppliedQueue)
    ensures companySitesOut == Opened(companySitesFile, UrlHeader) + SingleFieldRows(run.companySitesQueue)
    ensures successAppliedOut == Opened(successAppliedFile, UrlHeader) + SingleFieldRows(run.successAppliedQueue)
    ensures failedJobsOut == Opened(failedJobsFile, UrlHeader) + SingleFieldRows(run.failedJobsQueue)
    ensures var a, c := LoadUrls(alreadyAppliedFile), LoadUrls(companySitesFile);
            if a.Keys? && c.Keys? && jobsFile.Some? then
              && run == RouteAll(Start(a.keys, c.keys),
                                 FirstColumn(jobsFile.value[..FirstBlank(jobsFile.value)]), probe)
              && (finished <==> forall i :: 0 <= i < |jobsFile.value| ==> jobsFile.value[i] != [])
            else run == Start({}, {}) && !finished
  {
    var alreadyAppliedUrls := LoadUrls(alreadyAppliedFile);
    var companySitesUrls := LoadUrls(companySitesFile);
    if alreadyAppliedUrls.Keys? && companySitesUrls.Keys? && jobsFile.Some? {
      run, finished := RouteJobs(jobsFile.value, alreadyAppliedUrls.keys, companySitesUrls.keys, probe);
    } else {
      run, finished := Start({}, {}), false;
    }
    var stopped: bool;
    alreadyAppliedOut, stopped := DrainQueue(alreadyAppliedFile, run.alreadyAppliedQueue, finished);
    companySitesOut, stopped := DrainQueue(companySitesFile, run.companySitesQueue, finished);
    successAppliedOut, stopped := DrainQueue(successAppliedFile, run.successAppliedQueue, finished);
    failedJobsOut, stopped := DrainQueue(failedJobsFile, run.failedJobsQueue, finished);
  }
}
