/**
 * detect_bruteforce: failed logins are grouped by source IP (IPs in order of
 * first appearance), each group is sorted by time, and a two-pointer sliding
 * window reports one incident for every failure j whose window — the
 * failures of that IP at most `minutes` before it, up to and including it —
 * holds at least `threshold` attempts.
 */
module Bruteforce {
  import opened Events
  import opened Sorting
  import opened Counting

  predicate FailedAt(e: Event, ip: string)
  {
    e.detail.Failed? && e.detail.ip == ip
  }

  predicate AllFailedAt(s: seq<Event>, ip: string)
  {
    forall k :: 0 <= k < |s| ==> FailedAt(s[k], ip)
  }

  function Time(e: Event): int
  {
    e.ts
  }

  // ---------------------------------------------------------------------
  // Grouping by IP

  /** The failed logins from ip, in event order (by_ip[ip] before sorting). */
  function FailedFrom(events: seq<Event>, ip: string): seq<Event>
  {
    if |events| == 0 then []
    else
      var e := events[|events| - 1];
      FailedFrom(events[..|events| - 1], ip) + (if FailedAt(e, ip) then [e] else [])
  }

  /** The IP of every failed login, in event order. */
  function FailedIpList(events: seq<Event>): seq<string>
  {
    if |events| == 0 then []
    else
      var e := events[|events| - 1];
      FailedIpList(events[..|events| - 1]) + (if e.detail.Failed? then [e.detail.ip] else [])
  }

  /** The keys of by_ip in dict order: each IP with a failed login, once, by first appearance. */
  function FailedIps(events: seq<Event>): seq<string>
  {
    Unique(FailedIpList(events))
  }

  /** A group holds exactly the failed logins from its IP. */
  lemma {:induction false} FailedFromMembers(events: seq<Event>, ip: string)
    ensures forall e :: e in FailedFrom(events, ip) <==> e in events && FailedAt(e, ip)
    decreases |events|
  {
    if |events| > 0 {
      var n := |events| - 1;
      FailedFromMembers(events[..n], ip);
      assert events == events[..n] + [events[n]];
    }
  }

  /** An IP has a failed login exactly when it is in the failed-IP list. */
  lemma {:induction false} FailedFromNonEmpty(events: seq<Event>, ip: string)
    ensures FailedFrom(events, ip) != [] <==> ip in FailedIpList(events)
    decreases |events|
  {
    if |events| > 0 {
      var n := |events| - 1;
      var e := events[n];
      FailedFromNonEmpty(events[..n], ip);
      if FailedAt(e, ip) {
        assert FailedIpList(events) == FailedIpList(events[..n]) + [ip];
        assert ip in FailedIpList(events);
      } else if e.detail.Failed? {
        assert FailedFrom(events, ip) == FailedFrom(events[..n], ip);
        assert FailedIpList(events) == FailedIpList(events[..n]) + [e.detail.ip];
        assert e.detail.ip != ip;
      } else {
        assert FailedFrom(events, ip) == FailedFrom(events[..n], ip);
        assert FailedIpList(events) == FailedIpList(events[..n]);
      }
    }
  }

  /**
   * A group holds exactly the failed logins from its IP, and an IP has a
   * non-empty group exactly when it is one of the dict's keys.
   */
  lemma FailedFromMeaning(events: seq<Event>, ip: string)
    ensures forall e :: e in FailedFrom(events, ip) <==> e in events && FailedAt(e, ip)
    ensures FailedFrom(events, ip) != [] <==> ip in FailedIps(events)
  {
    FailedFromMembers(events, ip);
    FailedFromNonEmpty(events, ip);
    UniqueMeaning(FailedIpList(events));
  }

  lemma AllFailedFrom(events: seq<Event>, ip: string)
    ensures AllFailedAt(FailedFrom(events, ip), ip)
  {
    FailedFromMeaning(events, ip);
    var g := FailedFrom(events, ip);
    forall k | 0 <= k < |g| ensures FailedAt(g[k], ip) {
      assert g[k] in g;
    }
  }

  /** How one more event extends the failed-IP list and each group. */
  lemma FailedStep(events: seq<Event>, k: nat)
    requires k < |events|
    ensures FailedIpList(events[..k + 1]) ==
      FailedIpList(events[..k]) + (if events[k].detail.Failed? then [events[k].detail.ip] else [])
    ensures forall ip :: (FailedFrom(events[..k + 1], ip) ==
      FailedFrom(events[..k], ip) + (if FailedAt(events[k], ip) then [events[k]] else []))
  {
    assert events[..k + 1][..k] == events[..k];
  }

  /** One event of the by_ip loop: the key order and the groups follow the specification. */
  lemma GroupStep(events: seq<Event>, k: nat, ips: seq<string>, byIp: map<string, seq<Event>>,
                  ips': seq<string>, byIp': map<string, seq<Event>>)
    requires k < |events|
    requires ips == FailedIps(events[..k])
    requires forall ip :: ip in byIp <==> ip in ips
    requires forall ip :: ip in byIp ==> byIp[ip] == FailedFrom(events[..k], ip)
    requires var e := events[k];
      ips' == (if e.detail.Failed? && e.detail.ip !in byIp then ips + [e.detail.ip] else ips)
    requires var e := events[k];
      byIp' == if !e.detail.Failed? then byIp
        else if e.detail.ip in byIp then byIp[e.detail.ip := byIp[e.detail.ip] + [e]]
        else byIp[e.detail.ip := [e]]
    ensures ips' == FailedIps(events[..k + 1])
    ensures forall ip :: ip in byIp' <==> ip in ips'
    ensures forall ip :: ip in byIp' ==> byIp'[ip] == FailedFrom(events[..k + 1], ip)
  {
    var e := events[k];
    FailedStep(events, k);
    if e.detail.Failed? {
      var ip := e.detail.ip;
      UniqueAppend(FailedIpList(events[..k]), ip);
      UniqueMeaning(FailedIpList(events[..k]));
      FailedFromMeaning(events[..k], ip);
      assert FailedIpList(events[..k + 1]) == FailedIpList(events[..k]) + [ip];
      if ip in byIp {
        assert ip in FailedIpList(events[..k]);
      } else {
        assert ip !in FailedIpList(events[..k]);
      }
      assert ips' == Unique(FailedIpList(events[..k + 1]));
      forall v | v in byIp' ensures byIp'[v] == FailedFrom(events[..k + 1], v) {
        if v != ip {
          assert byIp'[v] == byIp[v] && !FailedAt(e, v);
        }
      }
    } else {
      assert FailedIpList(events[..k + 1]) == FailedIpList(events[..k]);
    }
  }

  /** Fills by_ip: the key order and, per key, the failed logins in event order. */
  method GroupByIp(events: seq<Event>) returns (ips: seq<string>, byIp: map<string, seq<Event>>)
    ensures ips == FailedIps(events)
    ensures forall ip :: ip in byIp <==> ip in ips
    ensures forall ip :: ip in byIp ==> byIp[ip] == FailedFrom(events, ip)
  {
    ips := [];
    byIp := map[];
    for k := 0 to |events|
      invariant ips == FailedIps(events[..k])
      invariant forall ip :: ip in byIp <==> ip in ips
      invariant forall ip :: ip in byIp ==> byIp[ip] == FailedFrom(events[..k], ip)
    {
      var e := events[k];
      var ips', byIp' := ips, byIp;
      if e.detail.Failed? {
        var ip := e.detail.ip;
        if ip in byIp {
          byIp' := byIp[ip := byIp[ip] + [e]];
        } else {
          ips' := ips + [ip];
          byIp' := byIp[ip := [e]];
        }
      }
      GroupStep(events, k, ips, byIp, ips', byIp');
      ips, byIp := ips', byIp';
    }
    assert events[..|events|] == events;
  }

  /** The group of one IP after `lst.sort(key=timestamp)`. */
  function Group(events: seq<Event>, ip: string): (s: seq<Event>)
    ensures AllFailedAt(s, ip) && SortedBy(s, Time)
  {
    GroupFacts(events, ip);
    Sort(FailedFrom(events, ip), Time)
  }

  lemma GroupFacts(events: seq<Event>, ip: string)
    ensures AllFailedAt(Sort(FailedFrom(events, ip), Time), ip)
    ensures SortedBy(Sort(FailedFrom(events, ip), Time), Time)
  {
    var g := FailedFrom(events, ip);
    var s := Sort(g, Time);
    SortSorted(g, Time);
    SortPermutes(g, Time);
    AllFailedFrom(events, ip);
    forall k | 0 <= k < |s| ensures FailedAt(s[k], ip) {
      assert s[k] in multiset(g);
      var m :| 0 <= m < |g| && g[m] == s[k];
    }
  }

  // ---------------------------------------------------------------------
  // The sliding window

  /** The first index from i on whose failure lies at most w seconds before failure j. */
  function LeftFrom(s: seq<Event>, i: nat, j: nat, w: int): (r: nat)
    requires i <= j < |s| && w >= 0
    ensures i <= r <= j
    decreases j - i
  {
    if s[j].ts - s[i].ts <= w then i else LeftFrom(s, i + 1, j, w)
  }

  /** Where the left pointer stands once the right pointer is at j. */
  function LeftEdge(s: seq<Event>, j: nat, w: int): nat
    requires j < |s| && w >= 0
  {
    LeftFrom(s, 0, j, w)
  }

  /** The failures up to the end of p that lie at most w seconds before time t. */
  function Recent(p: seq<Event>, t: int, w: int): seq<Event>
  {
    if |p| == 0 then []
    else Recent(p[..|p| - 1], t, w) + (if t - p[|p| - 1].ts <= w then [p[|p| - 1]] else [])
  }

  lemma {:induction false} LeftFromFacts(s: seq<Event>, i: nat, j: nat, w: int)
    requires i <= j < |s| && w >= 0
    ensures forall k :: i <= k < LeftFrom(s, i, j, w) ==> s[j].ts - s[k].ts > w
    ensures s[j].ts - s[LeftFrom(s, i, j, w)].ts <= w
    decreases j - i
  {
    if s[j].ts - s[i].ts > w {
      LeftFromFacts(s, i + 1, j, w);
    }
  }

  /** Starting the search later changes nothing while the skipped failures are too old. */
  lemma {:induction false} LeftSkip(s: seq<Event>, m: nat, i: nat, j: nat, w: int)
    requires m <= i <= j < |s| && w >= 0
    requires forall k :: m <= k < i ==> s[j].ts - s[k].ts > w
    ensures LeftFrom(s, m, j, w) == LeftFrom(s, i, j, w)
    decreases i - m
  {
    if m < i {
      LeftSkip(s, m + 1, i, j, w);
    }
  }

  /**
   * In a time-sorted group the window of j is contiguous: failure k <= j is
   * in it exactly when it lies at most w seconds before failure j.
   */
  lemma WindowMeaning(s: seq<Event>, j: nat, w: int)
    requires SortedBy(s, Time) && j < |s| && w >= 0
    ensures forall k :: 0 <= k <= j ==> (LeftEdge(s, j, w) <= k <==> s[j].ts - s[k].ts <= w)
  {
    LeftFromFacts(s, 0, j, w);
    var i := LeftEdge(s, j, w);
    forall k | i <= k <= j ensures s[j].ts - s[k].ts <= w {
      assert Time(s[i]) <= Time(s[k]);
    }
  }

  lemma {:induction false} RecentSuffix(p: seq<Event>, t: int, w: int, i: nat)
    requires i <= |p|
    requires forall k :: 0 <= k < i ==> t - p[k].ts > w
    requires forall k :: i <= k < |p| ==> t - p[k].ts <= w
    ensures Recent(p, t, w) == p[i..]
    decreases |p|
  {
    if |p| > 0 {
      var n := |p| - 1;
      if i <= n {
        RecentSuffix(p[..n], t, w, i);
        assert p[i..] == p[..n][i..] + [p[n]];
      } else {
        RecentSuffix(p[..n], t, w, n);
      }
    }
  }

  /** The window of j holds exactly the recent failures at the time of failure j. */
  lemma WindowIsRecent(s: seq<Event>, j: nat, w: int)
    requires SortedBy(s, Time) && j < |s| && w >= 0
    ensures s[LeftEdge(s, j, w)..j + 1] == Recent(s[..j + 1], s[j].ts, w)
  {
    WindowMeaning(s, j, w);
    RecentSuffix(s[..j + 1], s[j].ts, w, LeftEdge(s, j, w));
  }

  /** The left pointer never moves back. */
  lemma LeftEdgeMonotone(s: seq<Event>, j: nat, w: int)
    requires SortedBy(s, Time) && j + 1 < |s| && w >= 0
    ensures LeftEdge(s, j, w) <= LeftEdge(s, j + 1, w)
  {
    LeftFromFacts(s, 0, j, w);
    LeftFromFacts(s, 0, j + 1, w);
    assert Time(s[j]) <= Time(s[j + 1]);
  }

  /** Where the previous left edge stands, every earlier failure is too old for the next endpoint. */
  lemma LeftEdgeStep(s: seq<Event>, j: nat, w: int)
    requires SortedBy(s, Time) && 0 < j < |s| && w >= 0
    ensures forall k :: 0 <= k < LeftEdge(s, j - 1, w) ==> s[j].ts - s[k].ts > w
  {
    LeftFromFacts(s, 0, j - 1, w);
    assert Time(s[j - 1]) <= Time(s[j]);
  }

  /** The left pointer where the inner loop stops is the left edge. */
  lemma LeftEdgeAt(s: seq<Event>, i: nat, j: nat, w: int)
    requires i <= j < |s| && w >= 0
    requires forall k :: 0 <= k < i ==> s[j].ts - s[k].ts > w
    requires s[j].ts - s[i].ts <= w
    ensures LeftEdge(s, j, w) == i
  {
    LeftSkip(s, 0, i, j, w);
  }

  lemma SliceFailed(s: seq<Event>, ip: string, i: nat, j: nat)
    requires AllFailedAt(s, ip) && i <= j <= |s|
    ensures AllFailedAt(s[i..j], ip)
  {
    forall k | 0 <= k < j - i ensures FailedAt(s[i..j][k], ip) {
      assert s[i..j][k] == s[i + k];
    }
  }

  // ---------------------------------------------------------------------
  // Incidents

  datatype Incident = Incident(ip: string, start: int, end: int, count: nat, users: Tally)

  function Users(s: seq<Event>): seq<string>
    requires forall k :: 0 <= k < |s| ==> s[k].detail.Failed?
  {
    if |s| == 0 then [] else Users(s[..|s| - 1]) + [s[|s| - 1].detail.user]
  }

  /** The incident for right endpoint j. */
  function WindowAt(ip: string, s: seq<Event>, j: nat, w: int): Incident
    requires AllFailedAt(s, ip) && j < |s| && w >= 0
  {
    var i := LeftEdge(s, j, w);
    SliceFailed(s, ip, i, j + 1);
    Incident(ip, s[i].ts, s[j].ts, j - i + 1, TallyOf(Users(s[i..j + 1])))
  }

  predicate Qualifies(s: seq<Event>, threshold: int, j: nat, w: int)
    requires j < |s| && w >= 0
  {
    j - LeftEdge(s, j, w) + 1 >= threshold
  }

  /** The incidents of one sorted group for the right endpoints before n. */
  function IpIncidents(ip: string, s: seq<Event>, threshold: int, w: int, n: nat): seq<Incident>
    requires AllFailedAt(s, ip) && n <= |s| && w >= 0
  {
    if n == 0 then []
    else
      IpIncidents(ip, s, threshold, w, n - 1) +
      (if Qualifies(s, threshold, n - 1, w) then [WindowAt(ip, s, n - 1, w)] else [])
  }

  /** The incidents of the groups of ips, group after group. */
  function IncidentsOver(ips: seq<string>, events: seq<Event>, threshold: int, w: int): seq<Incident>
    requires w >= 0
  {
    if |ips| == 0 then []
    else
      var ip := ips[|ips| - 1];
      var s := Group(events, ip);
      IncidentsOver(ips[..|ips| - 1], events, threshold, w) + IpIncidents(ip, s, threshold, w, |s|)
  }

  /** What detect_bruteforce returns; the window is `minutes` whole minutes. */
  function Incidents(events: seq<Event>, threshold: int, minutes: int): seq<Incident>
    requires minutes >= 0
  {
    IncidentsOver(FailedIps(events), events, threshold, minutes * 60)
  }

  /**
   * An incident describes its window: the contributors are failed logins from
   * its IP, the window spans at most w seconds and ends at failure j, and the
   * user breakdown counts the contributors' user names and adds up to count.
   */
  lemma WindowFacts(ip: string, s: seq<Event>, j: nat, w: int)
    requires AllFailedAt(s, ip) && SortedBy(s, Time) && j < |s| && w >= 0
    ensures var x := WindowAt(ip, s, j, w);
      var c := s[LeftEdge(s, j, w)..j + 1];
      && x.ip == ip
      && c == Recent(s[..j + 1], s[j].ts, w)
      && AllFailedAt(c, ip)
      && x.count == |c| && x.start == c[0].ts && x.end == c[|c| - 1].ts == s[j].ts
      && x.start <= x.end && x.end - x.start <= w
      && Total(x.users) == x.count
      && (forall u :: Count(x.users, u) == multiset(Users(c))[u])
  {
    var i := LeftEdge(s, j, w);
    var c := s[i..j + 1];
    var x := WindowAt(ip, s, j, w);
    WindowIsRecent(s, j, w);
    LeftFromFacts(s, 0, j, w);
    SliceFailed(s, ip, i, j + 1);
    assert c[0] == s[i] && c[|c| - 1] == s[j];
    WindowTally(c, x.users);
  }

  /** The user breakdown of a window counts its users and adds up to its size. */
  lemma WindowTally(c: seq<Event>, t: Tally)
    requires forall k :: 0 <= k < |c| ==> c[k].detail.Failed?
    requires t == TallyOf(Users(c))
    ensures Total(t) == |c|
    ensures forall u :: Count(t, u) == multiset(Users(c))[u]
  {
    UsersLength(c);
    TallyMeaning(Users(c));
  }

  lemma {:induction false} UsersLength(s: seq<Event>)
    requires forall k :: 0 <= k < |s| ==> s[k].detail.Failed?
    ensures |Users(s)| == |s|
    decreases |s|
  {
    if |s| > 0 {
      UsersLength(s[..|s| - 1]);
    }
  }

  /**
   * One incident per qualifying right endpoint: every incident of a group is
   * the window of some qualifying j, and every qualifying j contributes its
   * window.
   */
  lemma {:induction false} IpIncidentsMeaning(ip: string, s: seq<Event>, threshold: int, w: int, n: nat)
    requires AllFailedAt(s, ip) && n <= |s| && w >= 0
    ensures forall x :: x in IpIncidents(ip, s, threshold, w, n) ==>
      exists j :: 0 <= j < n && Qualifies(s, threshold, j, w) && x == WindowAt(ip, s, j, w)
    ensures forall j :: 0 <= j < n && Qualifies(s, threshold, j, w) ==>
      WindowAt(ip, s, j, w) in IpIncidents(ip, s, threshold, w, n)
    ensures |IpIncidents(ip, s, threshold, w, n)| <= n
    decreases n
  {
    if n > 0 {
      IpIncidentsMeaning(ip, s, threshold, w, n - 1);
    }
  }

  /** Incidents of the same IP come in order of their end time. */
  predicate EndsOrdered(r: seq<Incident>)
  {
    forall a, b :: 0 <= a < b < |r| && r[a].ip == r[b].ip ==> r[a].end <= r[b].end
  }

  /** Within a group, incidents come in order of their end time. */
  lemma {:induction false} IpIncidentsOrdered(ip: string, s: seq<Event>, threshold: int, w: int, n: nat)
    requires AllFailedAt(s, ip) && SortedBy(s, Time) && n <= |s| && w >= 0
    ensures EndsOrdered(IpIncidents(ip, s, threshold, w, n))
    ensures forall x :: x in IpIncidents(ip, s, threshold, w, n) ==> x.ip == ip && x.end <= s[n - 1].ts
    decreases n
  {
    if n > 0 {
      var r := IpIncidents(ip, s, threshold, w, n);
      var prev := IpIncidents(ip, s, threshold, w, n - 1);
      IpIncidentsOrdered(ip, s, threshold, w, n - 1);
      if n > 1 {
        assert Time(s[n - 2]) <= Time(s[n - 1]);
      }
      assert forall x :: x in prev ==> x.end <= s[n - 1].ts;
      if Qualifies(s, threshold, n - 1, w) {
        var y := WindowAt(ip, s, n - 1, w);
        assert y.end == s[n - 1].ts;
        assert r == prev + [y];
        forall a, b | 0 <= a < b < |r| && r[a].ip == r[b].ip ensures r[a].end <= r[b].end {
          if b < |prev| {
            assert r[a] == prev[a] && r[b] == prev[b];
          } else {
            assert r[a] == prev[a] && r[a] in prev;
            assert r[b] == y;
          }
        }
      } else {
        assert r == prev;
      }
    }
  }

  /** Every incident of a group satisfies the detector's promises. */
  lemma IpIncidentsSound(ip: string, s: seq<Event>, threshold: int, w: int)
    requires AllFailedAt(s, ip) && SortedBy(s, Time) && w >= 0
    ensures forall x :: x in IpIncidents(ip, s, threshold, w, |s|) ==>
      && x.ip == ip && x.count >= threshold && 1 <= x.count <= |s|
      && x.start <= x.end && x.end - x.start <= w && Total(x.users) == x.count
  {
    IpIncidentsMeaning(ip, s, threshold, w, |s|);
    forall x | x in IpIncidents(ip, s, threshold, w, |s|)
      ensures && x.ip == ip && x.count >= threshold && 1 <= x.count <= |s|
              && x.start <= x.end && x.end - x.start <= w && Total(x.users) == x.count
    {
      var j :| 0 <= j < |s| && Qualifies(s, threshold, j, w) && x == WindowAt(ip, s, j, w);
      WindowFacts(ip, s, j, w);
    }
  }

  /**
   * Every incident comes from an IP with failed logins, holds at least
   * threshold attempts of that IP within the window, and its user breakdown
   * adds up to its count.
   */
  lemma {:induction false} IncidentsOverSound(ips: seq<string>, events: seq<Event>, threshold: int, w: int)
    requires w >= 0
    ensures forall x :: x in IncidentsOver(ips, events, threshold, w) ==>
      && x.ip in ips && x.count >= threshold && 1 <= x.count <= |FailedFrom(events, x.ip)|
      && x.start <= x.end && x.end - x.start <= w && Total(x.users) == x.count
    decreases |ips|
  {
    if |ips| > 0 {
      var n := |ips| - 1;
      var ip := ips[n];
      IncidentsOverSound(ips[..n], events, threshold, w);
      IpIncidentsSound(ip, Group(events, ip), threshold, w);
      SortPermutes(FailedFrom(events, ip), Time);
      var g := Group(events, ip);
      assert |multiset(g)| == |multiset(FailedFrom(events, ip))|;
      forall x | x in IncidentsOver(ips[..n], events, threshold, w) ensures x.ip in ips {
        assert x.ip in ips[..n];
      }
    }
  }

  /** Appending the incidents of a new address keeps every address's incidents in end order. */
  lemma EndsOrderedAppend(prev: seq<Incident>, q: seq<Incident>, ip: string)
    requires EndsOrdered(prev) && EndsOrdered(q)
    requires forall x :: x in prev ==> x.ip != ip
    requires forall x :: x in q ==> x.ip == ip
    ensures EndsOrdered(prev + q)
  {
    var r := prev + q;
    assert forall a :: 0 <= a < |prev| ==> r[a] == prev[a] && prev[a] in prev;
    assert forall b :: |prev| <= b < |r| ==> r[b] == q[b - |prev|] && q[b - |prev|] in q;
    forall a, b | 0 <= a < b < |r| && r[a].ip == r[b].ip ensures r[a].end <= r[b].end {
      if b < |prev| {
        assert r[b] == prev[b];
      } else if a >= |prev| {
        assert r[a] == q[a - |prev|];
      }
    }
  }

  /** Incidents of the same IP appear in order of their end time. */
  lemma {:induction false} IncidentsOverOrdered(ips: seq<string>, events: seq<Event>, threshold: int, w: int)
    requires w >= 0 && Distinct(ips)
    ensures EndsOrdered(IncidentsOver(ips, events, threshold, w))
    decreases |ips|
  {
    if |ips| > 0 {
      var n := |ips| - 1;
      var ip := ips[n];
      var g := Group(events, ip);
      var prev := IncidentsOver(ips[..n], events, threshold, w);
      var q := IpIncidents(ip, g, threshold, w, |g|);
      assert Distinct(ips[..n]);
      IncidentsOverOrdered(ips[..n], events, threshold, w);
      IpIncidentsOrdered(ip, g, threshold, w, |g|);
      assert forall x :: x in prev ==> x.ip != ip by {
        IncidentsOverSound(ips[..n], events, threshold, w);
        assert ip !in ips[..n];
      }
      EndsOrderedAppend(prev, q, ip);
    }
  }

  /** detect_bruteforce's promises about its whole result. */
  lemma IncidentsSound(events: seq<Event>, threshold: int, minutes: int)
    requires minutes >= 0
    ensures var r := Incidents(events, threshold, minutes);
      && (forall x :: x in r ==>
           && x.ip in FailedIps(events) && x.count >= threshold
           && 1 <= x.count <= |FailedFrom(events, x.ip)|
           && x.start <= x.end && x.end - x.start <= minutes * 60 && Total(x.users) == x.count)
      && EndsOrdered(r)
  {
    IncidentsOverSound(FailedIps(events), events, threshold, minutes * 60);
    UniqueMeaning(FailedIpList(events));
    IncidentsOverOrdered(FailedIps(events), events, threshold, minutes * 60);
  }

  // ---------------------------------------------------------------------
  // The algorithm

  /** The inner `while`: moves the left pointer up to the left edge of endpoint j. */
  method AdvanceLeft(a: array<Event>, i: nat, j: nat, w: int) returns (left: nat)
    requires SortedBy(a[..], Time) && i <= j < a.Length && w >= 0
    requires if j == 0 then i == 0 else i == LeftEdge(a[..], j - 1, w)
    ensures left == LeftEdge(a[..], j, w)
    ensures i <= left <= j
  {
    ghost var s := a[..];
    if 0 < j {
      LeftEdgeStep(s, j, w);
    }
    left := i;
    while a[j].ts - a[left].ts > w
      invariant i <= left <= j
      invariant forall k :: 0 <= k < left ==> s[j].ts - s[k].ts > w
      decreases j - left
    {
      left := left + 1;
    }
    LeftEdgeAt(s, left, j, w);
  }

  /** The two-pointer scan over one sorted group. */
  method WindowScan(ip: string, a: array<Event>, threshold: int, w: int) returns (found: seq<Incident>)
    requires AllFailedAt(a[..], ip) && SortedBy(a[..], Time) && w >= 0
    ensures found == IpIncidents(ip, a[..], threshold, w, a.Length)
  {
    ghost var s := a[..];
    found := [];
    var i := 0;
    for j := 0 to a.Length
      invariant i <= j
      invariant if j == 0 then i == 0 else i == LeftEdge(s, j - 1, w)
      invariant found == IpIncidents(ip, s, threshold, w, j)
    {
      i := AdvanceLeft(a, i, j, w);
      var count := j - i + 1;
      if count >= threshold {
        SliceFailed(s, ip, i, j + 1);
        assert a[i..j + 1] == s[i..j + 1];
        found := found + [Incident(ip, a[i].ts, a[j].ts, count, TallyOf(Users(a[i..j + 1])))];
      }
    }
  }

  /** The incidents of one address: its failures sorted in place by time, then the window scan. */
  method ScanGroup(ip: string, lst: seq<Event>, events: seq<Event>, threshold: int, w: int)
    returns (found: seq<Incident>)
    requires lst == FailedFrom(events, ip) && w >= 0
    ensures found == IpIncidents(ip, Group(events, ip), threshold, w, |Group(events, ip)|)
  {
    var a := new Event[|lst|](k requires 0 <= k < |lst| => lst[k]);
    assert a[..] == lst;
    SortInPlace(a, Time);
    assert a[..] == Group(events, ip);
    found := WindowScan(ip, a, threshold, w);
  }

  lemma IncidentsOverStep(ips: seq<string>, t: nat, events: seq<Event>, threshold: int, w: int)
    requires t < |ips| && w >= 0
    ensures var s := Group(events, ips[t]);
      IncidentsOver(ips[..t + 1], events, threshold, w)
        == IncidentsOver(ips[..t], events, threshold, w) + IpIncidents(ips[t], s, threshold, w, |s|)
  {
    assert ips[..t + 1][..t] == ips[..t];
  }

  method DetectBruteforce(events: seq<Event>, threshold: int, minutes: int) returns (incidents: seq<Incident>)
    requires minutes >= 0
    ensures incidents == Incidents(events, threshold, minutes)
  {
    var ips, byIp := GroupByIp(events);
    var w := minutes * 60;
    incidents := [];
    for t := 0 to |ips|
      invariant incidents == IncidentsOver(ips[..t], events, threshold, w)
    {
      var found := ScanGroup(ips[t], byIp[ips[t]], events, threshold, w);
      IncidentsOverStep(ips, t, events, threshold, w);
      incidents := incidents + found;
    }
    assert ips[..|ips|] == ips;
  }
}
