/**
 * analyze_file: the report over one log file. The scan's events feed the
 * brute-force detector and the identity-operation summary; the report adds
 * the sorted suspect addresses with their attempt sums and locations, the
 * first `limit` accepted logins, the login totals and each subject's
 * operations in time order.
 */
module Analyzer {
  import opened Wrappers
  import opened Timestamps
  import opened Events
  import opened Scanner
  import opened Counting
  import opened Sorting
  import opened Bruteforce
  import opened UserOps
  import opened Geo
  import opened StringOrder

  // ---------------------------------------------------------------------
  // Parameters

  /** The optional settings count, minutes and limit; None where the caller gave none. */
  datatype Params = Params(count: Option<int>, minutes: Option<int>, limit: Option<int>)

  const DefaultCount := 5
  const DefaultMinutes := 5
  const DefaultLimit := 100

  /** params.get(name, default). */
  function Setting(o: Option<int>, default: int): int
  {
    if o.Some? then o.value else default
  }

  // ---------------------------------------------------------------------
  // The pieces of the report

  /** os.path.basename: the part of the path after its last '/'. */
  function Basename(path: string): (r: string)
    ensures '/' !in r
    ensures |r| <= |path| && path[|path| - |r|..] == r
    ensures |r| < |path| ==> path[|path| - |r| - 1] == '/'
  {
    if |path| == 0 || path[|path| - 1] == '/' then ""
    else Basename(path[..|path| - 1]) + [path[|path| - 1]]
  }

  /** The events of one kind (0 accepted, 1 failed), in file order. */
  function OfKind(events: seq<Event>, k: nat): (r: seq<Event>)
    ensures forall e :: e in r <==> e in events && KindIndex(e.detail) == k
  {
    if |events| == 0 then []
    else
      var e := events[|events| - 1];
      OfKind(events[..|events| - 1], k) + (if KindIndex(e.detail) == k then [e] else [])
  }

  /** The filter keeps every event of the kind as often as it occurs, and no other event. */
  lemma {:induction false} OfKindCounts(events: seq<Event>, k: nat)
    ensures forall e :: multiset(OfKind(events, k))[e] == if KindIndex(e.detail) == k then multiset(events)[e] else 0
    decreases |events|
  {
    if |events| > 0 {
      var n := |events| - 1;
      OfKindCounts(events[..n], k);
      MultisetSnoc(events);
    }
  }

  /** One more event at the end is kept exactly when it has the kind. */
  lemma OfKindSnoc(s: seq<Event>, x: Event, k: nat)
    ensures OfKind(s + [x], k) == OfKind(s, k) + (if KindIndex(x.detail) == k then [x] else [])
  {
    assert (s + [x])[..|s|] == s;
  }

  /** The filter keeps file order: the events of one kind in a + b are those of a, then those of b. */
  lemma {:induction false} OfKindAppend(a: seq<Event>, b: seq<Event>, k: nat)
    ensures OfKind(a + b, k) == OfKind(a, k) + OfKind(b, k)
    decreases |b|
  {
    if |b| == 0 {
      assert a + b == a;
    } else {
      var c, x := b[..|b| - 1], b[|b| - 1];
      var tail := if KindIndex(x.detail) == k then [x] else [];
      assert b == c + [x];
      Assoc(a, c, [x]);
      OfKindSnoc(a + c, x, k);
      OfKindSnoc(c, x, k);
      OfKindAppend(a, c, k);
      Assoc(OfKind(a, k), OfKind(c, k), tail);
    }
  }

  lemma Assoc<T>(p: seq<T>, q: seq<T>, t: seq<T>)
    ensures p + q + t == p + (q + t)
  {
  }

  /** One event is kept exactly when it has the kind. */
  lemma OfKindSingle(e: Event, k: nat)
    ensures OfKind([e], k) == if KindIndex(e.detail) == k then [e] else []
  {
    assert [e][..0] == [];
  }

  /** The accepted and the failed totals together count the login events. */
  lemma {:induction false} TotalsCountLogins(events: seq<Event>)
    ensures |OfKind(events, 0)| + |OfKind(events, 1)| == LoginCount(events)
    decreases |events|
  {
    if |events| > 0 {
      var n := |events| - 1;
      TotalsCountLogins(events[..n]);
      KindIndexValues(events[n].detail);
    }
  }

  /** The length of s[:limit] for a sequence of length n, negative limits counting from the end. */
  function SliceLength(n: nat, limit: int): (m: nat)
    ensures m <= n
  {
    if limit >= 0 then (if limit < n then limit else n)
    else if n + limit > 0 then n + limit else 0
  }

  /** s[:limit] as Python slices it. */
  function Take<T>(s: seq<T>, limit: int): (r: seq<T>)
    ensures |r| <= |s| && r == s[..|r|]
    ensures 0 <= limit <= |s| ==> |r| == limit
    ensures limit > |s| ==> |r| == |s|
    ensures -|s| <= limit < 0 ==> |r| == |s| + limit
    ensures limit < -|s| ==> |r| == 0
  {
    s[..SliceLength(|s|, limit)]
  }

  /** A row of accepted_events; the timestamp stays a number of seconds. */
  datatype AcceptedRow = AcceptedRow(ts: int, ip: string, user: string, port: string)

  function RowOf(e: Event): AcceptedRow
    requires e.detail.Accepted?
  {
    AcceptedRow(e.ts, e.detail.ip, e.detail.user, e.detail.port)
  }

  /** The loop over accepted[:limit] that builds accepted_events. */
  method AcceptedRows(accepted: seq<Event>, limit: int) returns (rows: seq<AcceptedRow>)
    requires forall k :: 0 <= k < |accepted| ==> accepted[k].detail.Accepted?
    ensures |rows| == |Take(accepted, limit)|
    ensures forall k :: 0 <= k < |rows| ==> rows[k] == RowOf(accepted[k])
  {
    var first := Take(accepted, limit);
    rows := [];
    for i := 0 to |first|
      invariant |rows| == i
      invariant forall k :: 0 <= k < i ==> rows[k] == RowOf(accepted[k])
    {
      rows := rows + [RowOf(first[i])];
    }
  }

  /** The address of each incident, in incident order. */
  function IncidentIps(incidents: seq<Incident>): (r: seq<string>)
    ensures |r| == |incidents|
    ensures forall k :: 0 <= k < |r| ==> r[k] == incidents[k].ip
  {
    if |incidents| == 0 then []
    else IncidentIps(incidents[..|incidents| - 1]) + [incidents[|incidents| - 1].ip]
  }

  /** The sum of the counts of ip's incidents. */
  function Attempts(incidents: seq<Incident>, ip: string): nat
  {
    if |incidents| == 0 then 0
    else
      var x := incidents[|incidents| - 1];
      Attempts(incidents[..|incidents| - 1], ip) + (if x.ip == ip then x.count else 0)
  }

  /** An address's attempt sum covers each of its incidents. */
  lemma {:induction false} AttemptsCover(incidents: seq<Incident>, k: nat)
    requires k < |incidents|
    ensures Attempts(incidents, incidents[k].ip) >= incidents[k].count
    decreases |incidents|
  {
    var n := |incidents| - 1;
    if k < n {
      AttemptsCover(incidents[..n], k);
    }
  }

  /** An address without incidents has no attempts. */
  lemma {:induction false} AttemptsAbsent(incidents: seq<Incident>, ip: string)
    requires ip !in IncidentIps(incidents)
    ensures Attempts(incidents, ip) == 0
    decreases |incidents|
  {
    if |incidents| > 0 {
      var n := |incidents| - 1;
      assert IncidentIps(incidents) == IncidentIps(incidents[..n]) + [incidents[n].ip];
      AttemptsAbsent(incidents[..n], ip);
    }
  }

  /** The loop that fills incidents_by_ip. */
  method AttemptsByIp(incidents: seq<Incident>) returns (byIp: map<string, nat>)
    ensures forall ip :: ip in byIp <==> ip in IncidentIps(incidents)
    ensures forall ip :: ip in byIp ==> byIp[ip] == Attempts(incidents, ip)
  {
    byIp := map[];
    for i := 0 to |incidents|
      invariant forall ip :: ip in byIp <==> ip in IncidentIps(incidents[..i])
      invariant forall ip :: ip in byIp ==> byIp[ip] == Attempts(incidents[..i], ip)
    {
      var x := incidents[i];
      assert incidents[..i + 1][..i] == incidents[..i];
      assert IncidentIps(incidents[..i + 1]) == IncidentIps(incidents[..i]) + [x.ip];
      if x.ip !in byIp {
        AttemptsAbsent(incidents[..i], x.ip);
      }
      byIp := byIp[x.ip := (if x.ip in byIp then byIp[x.ip] else 0) + x.count];
    }
    assert incidents[..|incidents|] == incidents;
  }

  function EntryTime(x: OpEntry): int
  {
    x.ts
  }

  /** The loop that builds user_operations: each subject's list sorted by timestamp. */
  method SortOps(order: seq<string>, ops: map<string, seq<OpEntry>>) returns (out: map<string, seq<OpEntry>>)
    requires forall u :: u in ops <==> u in order
    ensures forall u :: u in out <==> u in ops
    ensures forall u :: u in out ==> out[u] == Sort(ops[u], EntryTime)
  {
    out := map[];
    for i := 0 to |order|
      invariant forall u :: u in out <==> u in order[..i]
      invariant forall u :: u in out ==> u in ops && out[u] == Sort(ops[u], EntryTime)
    {
      var u := order[i];
      assert order[..i + 1] == order[..i] + [u];
      out := out[u := Sort(ops[u], EntryTime)];
    }
    assert order[..|order|] == order;
  }

  /** A row of suspects_detail; geo is the cached location, None when the lookup failed. */
  datatype SuspectRow = SuspectRow(ip: string, attempts: nat, geo: Option<Location>)

  /** incidents_by_ip.get(ip, 0). */
  function AttemptsOf(byIp: map<string, nat>, ip: string): nat
  {
    if ip in byIp then byIp[ip] else 0
  }

  /**
   * One lookup keeps the cache in step with the loop: the entries are the old
   * ones and the suspects so far, each holding what the lookup would give.
   */
  lemma CacheStep(before: map<string, Option<Location>>, current: map<string, Option<Location>>,
                  next: map<string, Option<Location>>, fetch: string -> Option<Response>,
                  suspects: seq<string>, i: nat)
    requires i < |suspects|
    requires forall ip :: ip in current <==> ip in before || ip in suspects[..i]
    requires forall ip :: ip in current ==> current[ip] == Known(before, fetch, ip)
    requires next == current[suspects[i] := Known(current, fetch, suspects[i])]
    ensures Known(current, fetch, suspects[i]) == Known(before, fetch, suspects[i])
    ensures forall ip :: ip in next <==> ip in before || ip in suspects[..i + 1]
    ensures forall ip :: ip in next ==> next[ip] == Known(before, fetch, ip)
  {
    assert suspects[..i + 1] == suspects[..i] + [suspects[i]];
  }

  lemma AppendRow(rows: seq<SuspectRow>, row: SuspectRow, suspects: seq<string>, byIp: map<string, nat>,
                  before: map<string, Option<Location>>, fetch: string -> Option<Response>)
    requires |rows| < |suspects|
    requires forall k :: 0 <= k < |rows| ==>
      rows[k] == SuspectRow(suspects[k], AttemptsOf(byIp, suspects[k]), Known(before, fetch, suspects[k]))
    requires var i := |rows|;
      row == SuspectRow(suspects[i], AttemptsOf(byIp, suspects[i]), Known(before, fetch, suspects[i]))
    ensures var r := rows + [row];
      forall k :: 0 <= k < |r| ==>
        r[k] == SuspectRow(suspects[k], AttemptsOf(byIp, suspects[k]), Known(before, fetch, suspects[k]))
  {
  }

  /** The loop over the suspects that builds suspects_detail through the lookup cache. */
  method SuspectDetails(suspects: seq<string>, byIp: map<string, nat>, cache: GeoCache,
                        fetch: string -> Option<Response>) returns (rows: seq<SuspectRow>)
    requires cache.Valid()
    modifies cache
    ensures cache.Valid()
    ensures |rows| == |suspects|
    ensures forall k :: 0 <= k < |rows| ==>
      rows[k] == SuspectRow(suspects[k], AttemptsOf(byIp, suspects[k]), Known(old(cache.entries), fetch, suspects[k]))
    ensures forall ip :: ip in cache.entries <==> ip in old(cache.entries) || ip in suspects
    ensures forall ip :: ip in cache.entries ==> cache.entries[ip] == Known(old(cache.entries), fetch, ip)
  {
    ghost var before := cache.entries;
    rows := [];
    for i := 0 to |suspects|
      invariant cache.Valid()
      invariant |rows| == i
      invariant forall k :: 0 <= k < i ==>
        rows[k] == SuspectRow(suspects[k], AttemptsOf(byIp, suspects[k]), Known(before, fetch, suspects[k]))
      invariant forall ip :: ip in cache.entries <==> ip in before || ip in suspects[..i]
      invariant forall ip :: ip in cache.entries ==> cache.entries[ip] == Known(before, fetch, ip)
    {
      ghost var current := cache.entries;
      var g := cache.Lookup(suspects[i], fetch);
      CacheStep(before, current, cache.entries, fetch, suspects, i);
      var row := SuspectRow(suspects[i], AttemptsOf(byIp, suspects[i]), g);
      AppendRow(rows, row, suspects, byIp, before, fetch);
      rows := rows + [row];
    }
    assert suspects[..|suspects|] == suspects;
  }

  // ---------------------------------------------------------------------
  // The report

  datatype Report = Report(
    file: string,
    bruteforce: bool,
    suspectIps: seq<string>,
    suspectsDetail: seq<SuspectRow>,
    acceptedEvents: seq<AcceptedRow>,
    acceptedTotal: nat,
    failedTotal: nat,
    incidents: seq<Incident>,
    userOperations: map<string, seq<OpEntry>>)

  /**
   * The detection part of the report: the incidents, the sorted suspects and
   * one row per suspect with its attempt sum and its location as the cache
   * holding `entries` and the lookup service fetch give it.
   */
  ghost predicate DetectionReported(incidents: seq<Incident>, suspects: seq<string>, details: seq<SuspectRow>,
                                    events: seq<Event>, count: int, minutes: int,
                                    entries: map<string, Option<Location>>, fetch: string -> Option<Response>)
    requires minutes >= 0
  {
    && incidents == Incidents(events, count, minutes)
    && suspects == SortedSet(IncidentIps(incidents))
    && |details| == |suspects|
    && (forall k :: 0 <= k < |details| ==>
         details[k] == SuspectRow(suspects[k], Attempts(incidents, suspects[k]), Known(entries, fetch, suspects[k])))
  }

  /** The login part: the first `limit` accepted logins as rows, and both totals. */
  predicate LoginsReported(rows: seq<AcceptedRow>, acceptedTotal: nat, failedTotal: nat, events: seq<Event>, limit: int)
  {
    var accepted := OfKind(events, 0);
    && |rows| == |Take(accepted, limit)|
    && (forall k :: 0 <= k < |rows| ==> accepted[k].detail.Accepted? && rows[k] == RowOf(accepted[k]))
    && acceptedTotal == |accepted|
    && failedTotal == |OfKind(events, 1)|
  }

  /** The operations part: one list per subject, its entries sorted by timestamp. */
  ghost predicate OpsReported(userOps: map<string, seq<OpEntry>>, events: seq<Event>)
  {
    var cs := Candidates(events);
    && (forall u :: u in userOps <==> u in Subjects(cs))
    && (forall u :: u in userOps ==> userOps[u] == Sort(Summary(cs, u), EntryTime))
  }

  /**
   * rep is the report analyze_file builds for the file at path with the given
   * events and settings, when the cache held `entries` and the lookup service
   * answers as fetch does.
   */
  ghost predicate Describes(rep: Report, path: string, events: seq<Event>, params: Params,
                            entries: map<string, Option<Location>>, fetch: string -> Option<Response>)
    requires Setting(params.minutes, DefaultMinutes) >= 0
  {
    && rep.file == Basename(path)
    && rep.bruteforce == (|rep.incidents| > 0)
    && DetectionReported(rep.incidents, rep.suspectIps, rep.suspectsDetail, events,
                         Setting(params.count, DefaultCount), Setting(params.minutes, DefaultMinutes), entries, fetch)
    && LoginsReported(rep.acceptedEvents, rep.acceptedTotal, rep.failedTotal, events, Setting(params.limit, DefaultLimit))
    && OpsReported(rep.userOperations, events)
  }

  /**
   * analyze_file over the lines of the file at path (size bytes), with the
   * progress callback present or not, the clock reading now, the lookup cache
   * and the lookup service. A timestamp that cannot be resolved aborts the
   * analysis with the index of its line, as the exception of parse_log does.
   */
  method AnalyzeFile(path: string, lines: seq<InputLine>, size: nat, callback: bool, params: Params,
                     now: DateTime, cache: GeoCache, fetch: string -> Option<Response>)
    returns (r: Result<Report, nat>, progress: seq<int>)
    requires ValidDateTime(now)
    requires Setting(params.minutes, DefaultMinutes) >= 0
    requires cache.Valid()
    modifies cache
    ensures cache.Valid()
    ensures progress == Calls(ClassifyAll(lines, now), size, callback)
    ensures var scan := Scan(ClassifyAll(lines, now));
      scan.Failure? ==> r == Failure(scan.error) && cache.entries == old(cache.entries)
    ensures var scan := Scan(ClassifyAll(lines, now));
      scan.Success? ==> r.Success? && Describes(r.value, path, scan.value, params, old(cache.entries), fetch)
    ensures r.Success? ==> forall ip :: ip in cache.entries <==> ip in old(cache.entries) || ip in r.value.suspectIps
    ensures r.Success? ==> forall ip :: ip in cache.entries ==> cache.entries[ip] == Known(old(cache.entries), fetch, ip)
  {
    var scan;
    scan, progress := ParseLog(lines, size, callback, now);
    if scan.Failure? {
      return Failure(scan.error), progress;
    }
    var rep := BuildReport(path, scan.value, params, cache, fetch);
    r := Success(rep);
  }

  /** The part of analyze_file after parse_log: the report over the scanned events. */
  method BuildReport(path: string, events: seq<Event>, params: Params,
                     cache: GeoCache, fetch: string -> Option<Response>) returns (rep: Report)
    requires Setting(params.minutes, DefaultMinutes) >= 0
    requires cache.Valid()
    modifies cache
    ensures cache.Valid()
    ensures Describes(rep, path, events, params, old(cache.entries), fetch)
    ensures forall ip :: ip in cache.entries <==> ip in old(cache.entries) || ip in rep.suspectIps
    ensures forall ip :: ip in cache.entries ==> cache.entries[ip] == Known(old(cache.entries), fetch, ip)
  {
    var incidents, suspects, details := Detection(events, Setting(params.count, DefaultCount),
                                                  Setting(params.minutes, DefaultMinutes), cache, fetch);
    var rows, acceptedTotal, failedTotal := Logins(events, Setting(params.limit, DefaultLimit));
    var userOps := Operations(events);
    rep := Report(Basename(path), |incidents| > 0, suspects, details, rows,
                  acceptedTotal, failedTotal, incidents, userOps);
  }

  /** Detection, the suspects and their details (analyze_file's first half). */
  method Detection(events: seq<Event>, count: int, minutes: int, cache: GeoCache, fetch: string -> Option<Response>)
    returns (incidents: seq<Incident>, suspects: seq<string>, details: seq<SuspectRow>)
    requires minutes >= 0
    requires cache.Valid()
    modifies cache
    ensures cache.Valid()
    ensures DetectionReported(incidents, suspects, details, events, count, minutes, old(cache.entries), fetch)
    ensures forall ip :: ip in cache.entries <==> ip in old(cache.entries) || ip in suspects
    ensures forall ip :: ip in cache.entries ==> cache.entries[ip] == Known(old(cache.entries), fetch, ip)
  {
    incidents := DetectBruteforce(events, count, minutes);
    suspects := SortedSet(IncidentIps(incidents));
    var byIp := AttemptsByIp(incidents);
    SortedSetMeaning(IncidentIps(incidents));
    details := SuspectDetails(suspects, byIp, cache, fetch);
    forall k | 0 <= k < |details|
      ensures details[k] == SuspectRow(suspects[k], Attempts(incidents, suspects[k]), Known(old(cache.entries), fetch, suspects[k]))
    {
      assert suspects[k] in suspects;
    }
  }

  /** The accepted rows and the login totals. */
  method Logins(events: seq<Event>, limit: int) returns (rows: seq<AcceptedRow>, acceptedTotal: nat, failedTotal: nat)
    ensures LoginsReported(rows, acceptedTotal, failedTotal, events, limit)
  {
    var accepted := OfKind(events, 0);
    var failed := OfKind(events, 1);
    forall k | 0 <= k < |accepted| ensures accepted[k].detail.Accepted? {
      assert accepted[k] in accepted;
      KindIndexValues(accepted[k].detail);
    }
    rows := AcceptedRows(accepted, limit);
    acceptedTotal, failedTotal := |accepted|, |failed|;
  }

  /** summarize_user_ops followed by the per-subject sort. */
  method Operations(events: seq<Event>) returns (userOps: map<string, seq<OpEntry>>)
    ensures OpsReported(userOps, events)
  {
    var order, ops := SummarizeUserOps(events);
    UniqueMeaning(Subjects(Candidates(events)));
    userOps := SortOps(order, ops);
  }

  // ---------------------------------------------------------------------
  // What the report promises

  /** The suspects list the incident addresses, once each and in ascending order. */
  lemma SuspectsFacts(incidents: seq<Incident>, suspects: seq<string>)
    requires suspects == SortedSet(IncidentIps(incidents))
    ensures StrictlySorted(suspects)
    ensures forall ip :: ip in suspects <==> exists x :: x in incidents && x.ip == ip
  {
    var ips := IncidentIps(incidents);
    SortedSetMeaning(ips);
    forall ip ensures ip in suspects <==> exists x :: x in incidents && x.ip == ip {
      if ip in ips {
        var k :| 0 <= k < |ips| && ips[k] == ip;
        assert incidents[k] in incidents;
      }
      if exists x :: x in incidents && x.ip == ip {
        var x :| x in incidents && x.ip == ip;
        var k :| 0 <= k < |incidents| && incidents[k] == x;
        assert ips[k] == ip;
      }
    }
  }

  /** Every suspect's attempt sum reaches the threshold, since one of its incidents does. */
  lemma AttemptsFacts(incidents: seq<Incident>, suspects: seq<string>, details: seq<SuspectRow>,
                      events: seq<Event>, count: int, minutes: int,
                      entries: map<string, Option<Location>>, fetch: string -> Option<Response>)
    requires minutes >= 0
    requires DetectionReported(incidents, suspects, details, events, count, minutes, entries, fetch)
    ensures forall k :: 0 <= k < |details| ==> details[k].ip == suspects[k] && details[k].attempts >= count
  {
    var ips := IncidentIps(incidents);
    SortedSetMeaning(ips);
    IncidentsSound(events, count, minutes);
    forall k | 0 <= k < |details| ensures details[k].attempts >= count {
      var ip := suspects[k];
      assert ip in suspects;
      var j :| 0 <= j < |ips| && ips[j] == ip;
      AttemptsCover(incidents, j);
      assert incidents[j] in incidents;
    }
  }

  /** The accepted and failed totals together count the login events. */
  lemma TotalsFacts(rows: seq<AcceptedRow>, acceptedTotal: nat, failedTotal: nat, events: seq<Event>, limit: int)
    requires LoginsReported(rows, acceptedTotal, failedTotal, events, limit)
    ensures acceptedTotal + failedTotal == LoginCount(events)
    ensures |rows| <= acceptedTotal
  {
    TotalsCountLogins(events);
  }

  /**
   * Each subject's operations are its entries, none lost or added, in
   * ascending time, with entries of equal time in the order they were logged.
   */
  lemma OpsFacts(userOps: map<string, seq<OpEntry>>, events: seq<Event>)
    requires OpsReported(userOps, events)
    ensures forall u :: u in userOps ==>
      && SortedBy(userOps[u], EntryTime)
      && multiset(userOps[u]) == multiset(Summary(Candidates(events), u))
      && forall t :: WithKey(userOps[u], EntryTime, t) == WithKey(Summary(Candidates(events), u), EntryTime, t)
  {
    forall u | u in userOps ensures
      && SortedBy(userOps[u], EntryTime)
      && multiset(userOps[u]) == multiset(Summary(Candidates(events), u))
      && forall t :: WithKey(userOps[u], EntryTime, t) == WithKey(Summary(Candidates(events), u), EntryTime, t)
    {
      var s := Summary(Candidates(events), u);
      SortSorted(s, EntryTime);
      SortPermutes(s, EntryTime);
      forall t ensures WithKey(userOps[u], EntryTime, t) == WithKey(s, EntryTime, t) {
        SortStable(s, EntryTime, t);
      }
    }
  }
}
