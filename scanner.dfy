/**
 * parse_log: the scan over the lines of a log file. Each line is matched
 * against the eight shapes; a match becomes one typed event whose timestamp is
 * resolved against the clock reading `now`, and a timestamp that cannot be
 * resolved ends the scan with an error (the exception propagates out of
 * parse_log). Every appended login event reports the share of the file read so
 * far, capped at 99, and a scan that completes reports 100.
 */
module Scanner {
  import opened Wrappers
  import opened Text
  import opened Timestamps
  import opened Events
  import opened LineShapes
  import opened ShapeFacts

  /** A line as the file iterator yields it (newline kept) and its length in UTF-8 bytes. */
  datatype InputLine = InputLine(text: string, bytes: nat)

  /** What one line contributes: nothing, an event, or the error that aborts the scan. */
  datatype LineResult = NoMatch | Matched(event: Event) | BadTimestamp

  /**
   * The timestamp of a header, as parse_timestamp computes it from the
   * captured month, day and time: None when strptime or replace would raise.
   * Every header a pattern captures is well formed (MatchLineHeader).
   */
  function Stamp(h: Header, now: DateTime): (r: Option<int>)
    requires ValidDateTime(now)
    ensures WellFormed(h) ==> r == ParseTimestamp(h.month, h.day, h.time, now)
    ensures r.Some? ==> WellFormed(h) && ToSeconds(now) - 366 * Day < r.value <= ToSeconds(now) + Week
  {
    if WellFormed(h) then ParseTimestamp(h.month, h.day, h.time, now) else None
  }

  /** What a recognised line contributes: its event, or the error that ends the scan. */
  function Outcome(c: Capture, text: string, now: DateTime): (r: LineResult)
    requires ValidDateTime(now)
    ensures !r.NoMatch?
    ensures r.BadTimestamp? <==> Stamp(c.header, now).None?
    ensures r.Matched? ==> r.event.ts == Stamp(c.header, now).value
    ensures r.Matched? ==> r.event.host == c.header.host && r.event.raw == Strip(text) && r.event.detail == c.detail
  {
    match Stamp(c.header, now)
    case None => BadTimestamp
    case Some(ts) => Matched(Event(ts, c.header.host, Strip(text), c.detail))
  }

  /**
   * One line of the scan: no event when no pattern matches; otherwise the
   * event of the first matching pattern, stamped with the parsed timestamp,
   * or the error when that timestamp cannot be resolved.
   */
  function Classify(text: string, now: DateTime): (r: LineResult)
    requires ValidDateTime(now)
    ensures r.NoMatch? <==> MatchLine(text).None?
    ensures MatchLine(text).Some? ==> (r.BadTimestamp? <==> Stamp(MatchLine(text).value.header, now).None?)
    ensures r.Matched? ==>
      MatchLine(text).Some? && r.event.detail == MatchLine(text).value.detail
      && r.event.host == MatchLine(text).value.header.host && r.event.raw == Strip(text)
      && r.event.ts == Stamp(MatchLine(text).value.header, now).value
    ensures r.Matched? ==> ToSeconds(now) - 366 * Day < r.event.ts <= ToSeconds(now) + Week
  {
    match MatchLine(text)
    case None => NoMatch
    case Some(c) => Outcome(c, text, now)
  }

  /**
   * A recognised line ends the scan exactly when parse_timestamp fails on its
   * captured month, day and time, and otherwise its event carries the
   * timestamp parse_timestamp returns.
   */
  lemma ClassifyTimestamp(text: string, now: DateTime)
    requires ValidDateTime(now)
    ensures MatchLine(text).Some? ==>
      var h := MatchLine(text).value.header;
      && WellFormed(h)
      && (Classify(text, now).BadTimestamp? <==> ParseTimestamp(h.month, h.day, h.time, now).None?)
      && (Classify(text, now).Matched? ==> Classify(text, now).event.ts == ParseTimestamp(h.month, h.day, h.time, now).value)
  {
    MatchLineHeader(text);
  }

  /** A line once classified: what it contributes and how many bytes it adds to read_bytes. */
  datatype Classified = Classified(result: LineResult, bytes: nat)

  function ClassifyAll(lines: seq<InputLine>, now: DateTime): (cs: seq<Classified>)
    requires ValidDateTime(now)
    ensures |cs| == |lines|
  {
    seq(|lines|, i requires 0 <= i < |lines| => Classified(Classify(lines[i].text, now), lines[i].bytes))
  }

  // ---------------------------------------------------------------------
  // The scan, line by line from the first

  /** read_bytes after the given lines. */
  function Bytes(lines: seq<Classified>): nat
  {
    if |lines| == 0 then 0 else Bytes(lines[..|lines| - 1]) + lines[|lines| - 1].bytes
  }

  /** The outcome of parse_log on the given lines: the events, or the index of the failing line. */
  function Scan(lines: seq<Classified>): Result<seq<Event>, nat>
  {
    if |lines| == 0 then Success([])
    else
      var prev := Scan(lines[..|lines| - 1]);
      if prev.Failure? then prev
      else
        match lines[|lines| - 1].result
        case NoMatch => prev
        case BadTimestamp => Failure(|lines| - 1)
        case Matched(e) => Success(prev.value + [e])
  }

  function Min(a: int, b: int): int
  {
    if a <= b then a else b
  }

  /** The value the callback receives after read bytes of a file of the given size. */
  function Percent(read: nat, size: nat): int
    requires size > 0
  {
    Min(99, read * 100 / size)
  }

  /** The progress values reported while the given lines are scanned. */
  function Reports(lines: seq<Classified>, size: nat, callback: bool): seq<int>
  {
    if |lines| == 0 then []
    else
      var n := |lines| - 1;
      var prev := Reports(lines[..n], size, callback);
      if Scan(lines[..n]).Failure? then prev
      else
        match lines[n].result
        case Matched(e) =>
          if IsLogin(e) && callback && size > 0 then prev + [Percent(Bytes(lines), size)] else prev
        case _ => prev
  }

  /** Every call of the progress callback during parse_log, in order. */
  function Calls(lines: seq<Classified>, size: nat, callback: bool): seq<int>
  {
    Reports(lines, size, callback) + (if callback && Scan(lines).Success? then [100] else [])
  }

  /**
   * parse_log over the lines of a file of `size` bytes; `callback` says
   * whether a progress callback was given, and `progress` is what it received.
   */
  method ParseLog(lines: seq<InputLine>, size: nat, callback: bool, now: DateTime)
    returns (r: Result<seq<Event>, nat>, progress: seq<int>)
    requires ValidDateTime(now)
    ensures r == Scan(ClassifyAll(lines, now))
    ensures progress == Calls(ClassifyAll(lines, now), size, callback)
  {
    ghost var cs := ClassifyAll(lines, now);
    var events: seq<Event> := [];
    var readBytes: nat := 0;
    progress := [];
    var i := 0;
    while i < |lines|
      invariant 0 <= i <= |lines|
      invariant Scan(cs[..i]) == Success(events)
      invariant readBytes == Bytes(cs[..i])
      invariant progress == Reports(cs[..i], size, callback)
    {
      var c := Classify(lines[i].text, now);
      assert cs[i] == Classified(c, lines[i].bytes);
      var failed;
      failed, events, readBytes, progress :=
        ScanLine(Classified(c, lines[i].bytes), cs, i, size, callback, events, readBytes, progress);
      if failed {
        r := Failure(i);
        ScanStops(cs, i + 1, size, callback);
        return;
      }
      i := i + 1;
    }
    assert cs[..i] == cs;
    if callback {
      progress := progress + [100];
    }
    r := Success(events);
  }

  /** The body of the scan loop for line i, once the line is classified. */
  method ScanLine(line: Classified, ghost cs: seq<Classified>, i: nat, size: nat, callback: bool,
                events: seq<Event>, readBytes: nat, progress: seq<int>)
    returns (failed: bool, events': seq<Event>, readBytes': nat, progress': seq<int>)
    requires i < |cs| && cs[i] == line
    requires Scan(cs[..i]) == Success(events)
    requires readBytes == Bytes(cs[..i])
    requires progress == Reports(cs[..i], size, callback)
    ensures failed <==> cs[i].result.BadTimestamp?
    ensures failed ==> Scan(cs[..i + 1]) == Failure(i) && progress' == Reports(cs[..i + 1], size, callback)
    ensures !failed ==> Scan(cs[..i + 1]) == Success(events')
    ensures !failed ==> readBytes' == Bytes(cs[..i + 1])
    ensures !failed ==> progress' == Reports(cs[..i + 1], size, callback)
  {
    ScanStep(cs, i, size, callback);
    readBytes' := readBytes + line.bytes;
    events', progress' := events, progress;
    failed := false;
    match line.result {
      case NoMatch =>
      case BadTimestamp =>
        failed := true;
      case Matched(e) =>
        events' := events + [e];
        if IsLogin(e) && callback && size > 0 {
          progress' := progress + [Percent(readBytes', size)];
        }
    }
  }

  /** One more line: the definitions of Bytes, Scan and Reports read one step further. */
  lemma ScanStep(cs: seq<Classified>, i: nat, size: nat, callback: bool)
    requires i < |cs|
    ensures Bytes(cs[..i + 1]) == Bytes(cs[..i]) + cs[i].bytes
    ensures Scan(cs[..i + 1]) ==
      if Scan(cs[..i]).Failure? then Scan(cs[..i])
      else match cs[i].result
        case NoMatch => Scan(cs[..i])
        case BadTimestamp => Failure(i)
        case Matched(e) => Success(Scan(cs[..i]).value + [e])
    ensures Reports(cs[..i + 1], size, callback) ==
      if Scan(cs[..i]).Failure? then Reports(cs[..i], size, callback)
      else match cs[i].result
        case Matched(e) =>
          if IsLogin(e) && callback && size > 0
          then Reports(cs[..i], size, callback) + [Percent(Bytes(cs[..i + 1]), size)]
          else Reports(cs[..i], size, callback)
        case _ => Reports(cs[..i], size, callback)
  {
    assert cs[..i + 1][..i] == cs[..i];
  }

  /** Once a line has failed, later lines change neither the outcome nor the reports. */
  lemma {:induction false} ScanStops(lines: seq<Classified>, k: nat, size: nat, callback: bool)
    requires k <= |lines|
    requires Scan(lines[..k]).Failure?
    ensures Scan(lines) == Scan(lines[..k])
    ensures Reports(lines, size, callback) == Reports(lines[..k], size, callback)
    decreases |lines| - k
  {
    if k == |lines| {
      assert lines[..k] == lines;
    } else {
      var n := |lines| - 1;
      assert lines[..n][..k] == lines[..k];
      ScanStops(lines[..n], k, size, callback);
    }
  }

  // ---------------------------------------------------------------------
  // An independent description: the events line by line, and the first failure

  /** What one line adds to the event list. */
  function LineEvent(l: Classified): seq<Event>
  {
    match l.result
    case Matched(e) => [e]
    case _ => []
  }

  /** The events of the lines, in line order, ignoring failures. */
  function LineEvents(lines: seq<Classified>): (es: seq<Event>)
    ensures |es| <= |lines|
  {
    if |lines| == 0 then [] else LineEvent(lines[0]) + LineEvents(lines[1..])
  }

  /** The index of the first line whose timestamp cannot be resolved. */
  function FirstBad(lines: seq<Classified>): (r: Option<nat>)
    ensures r.Some? ==> r.value < |lines| && lines[r.value].result.BadTimestamp?
    ensures r.Some? ==> forall j :: 0 <= j < r.value ==> !lines[j].result.BadTimestamp?
    ensures r.None? <==> forall j :: 0 <= j < |lines| ==> !lines[j].result.BadTimestamp?
  {
    if |lines| == 0 then None
    else if lines[0].result.BadTimestamp? then Some(0)
    else
      match FirstBad(lines[1..])
      case None => None
      case Some(i) => Some(i + 1)
  }

  /** Events keep the order of the lines: the events of two pieces are concatenated. */
  lemma {:induction false} LineEventsAppend(a: seq<Classified>, b: seq<Classified>)
    ensures LineEvents(a + b) == LineEvents(a) + LineEvents(b)
    decreases |a|
  {
    if |a| == 0 {
      assert a + b == b;
    } else {
      assert (a + b)[1..] == a[1..] + b;
      LineEventsAppend(a[1..], b);
    }
  }

  /** A line appended after the others cannot move the first failure among them. */
  lemma {:induction false} FirstBadAppend(a: seq<Classified>, l: Classified)
    ensures FirstBad(a + [l]) ==
      if FirstBad(a).Some? then FirstBad(a)
      else if l.result.BadTimestamp? then Some(|a|) else None
    decreases |a|
  {
    if |a| == 0 {
      assert a + [l] == [l];
      assert [l][1..] == [];
    } else {
      assert (a + [l])[0] == a[0];
      assert (a + [l])[1..] == a[1..] + [l];
      FirstBadAppend(a[1..], l);
    }
  }

  /**
   * The scan fails exactly at the first line whose timestamp cannot be
   * resolved; otherwise it returns the events of all lines, in line order.
   */
  lemma {:induction false} ScanMeaning(lines: seq<Classified>)
    ensures Scan(lines) ==
      match FirstBad(lines)
      case Some(i) => Failure(i)
      case None => Success(LineEvents(lines))
    decreases |lines|
  {
    if |lines| > 0 {
      var n := |lines| - 1;
      ScanMeaning(lines[..n]);
      assert lines == lines[..n] + [lines[n]];
      FirstBadAppend(lines[..n], lines[n]);
      LineEventsAppend(lines[..n], [lines[n]]);
      assert LineEvents([lines[n]]) == LineEvent(lines[n]) by {
        assert [lines[n]][1..] == [];
      }
      assert LineEvents(lines) == LineEvents(lines[..n]) + LineEvent(lines[n]);
      assert FirstBad(lines) ==
        if FirstBad(lines[..n]).Some? then FirstBad(lines[..n])
        else if lines[n].result.BadTimestamp? then Some(n) else None;
      match lines[n].result
      case NoMatch =>
        assert LineEvent(lines[n]) == [];
        assert LineEvents(lines) == LineEvents(lines[..n]);
      case BadTimestamp =>
      case Matched(e) =>
        assert LineEvent(lines[n]) == [e];
    }
  }

  /** Each line adds at most one event, so there are never more events than lines. */
  lemma AtMostOneEventPerLine(lines: seq<Classified>)
    ensures Scan(lines).Success? ==> |Scan(lines).value| <= |lines|
  {
    ScanMeaning(lines);
  }

  // ---------------------------------------------------------------------
  // Progress

  function LoginCount(es: seq<Event>): nat
  {
    if |es| == 0 then 0 else (if IsLogin(es[|es| - 1]) then 1 else 0) + LoginCount(es[..|es| - 1])
  }

  lemma MulMonotone(a: int, b: int, d: nat)
    requires a <= b
    ensures a * d <= b * d
  {
  }

  lemma DivMonotone(x: int, y: int, d: int)
    requires 0 <= x <= y && d > 0
    ensures x / d <= y / d
  {
    var qx, qy := x / d, y / d;
    assert x == qx * d + x % d;
    assert y == qy * d + y % d;
    if qy + 1 <= qx {
      MulMonotone(qy + 1, qx, d);
      assert false;
    }
  }

  lemma PercentMonotone(a: nat, b: nat, size: nat)
    requires a <= b && size > 0
    ensures Percent(a, size) <= Percent(b, size)
  {
    DivMonotone(a * 100, b * 100, size);
  }

  /**
   * Every value reported during the scan is at most the share of the file read
   * so far, and so at most 99; without a callback, or for an empty file,
   * nothing is reported.
   */
  lemma {:induction false} ReportsBounded(lines: seq<Classified>, size: nat, callback: bool)
    ensures !callback || size == 0 ==> Reports(lines, size, callback) == []
    ensures size > 0 ==> forall k :: 0 <= k < |Reports(lines, size, callback)| ==>
      0 <= Reports(lines, size, callback)[k] <= Percent(Bytes(lines), size) <= 99
    decreases |lines|
  {
    if |lines| > 0 {
      var n := |lines| - 1;
      ReportsBounded(lines[..n], size, callback);
      var prev := Reports(lines[..n], size, callback);
      var r := Reports(lines, size, callback);
      assert r == prev || (size > 0 && r == prev + [Percent(Bytes(lines), size)]);
      if size > 0 {
        PercentMonotone(Bytes(lines[..n]), Bytes(lines), size);
        forall k | 0 <= k < |r| ensures 0 <= r[k] <= Percent(Bytes(lines), size) {
          if k < |prev| {
            assert r[k] == prev[k];
          }
        }
      }
    }
  }

  /** The reported values never decrease. */
  lemma {:induction false} ReportsNonDecreasing(lines: seq<Classified>, size: nat, callback: bool)
    ensures forall a, b :: 0 <= a < b < |Reports(lines, size, callback)| ==>
      Reports(lines, size, callback)[a] <= Reports(lines, size, callback)[b]
    decreases |lines|
  {
    if |lines| > 0 {
      var n := |lines| - 1;
      ReportsNonDecreasing(lines[..n], size, callback);
      ReportsBounded(lines[..n], size, callback);
      if size > 0 {
        PercentMonotone(Bytes(lines[..n]), Bytes(lines), size);
      }
    }
  }

  /**
   * Only login lines report during the scan: one value per accepted or failed
   * event appended, and none at all without a callback or for an empty file.
   */
  lemma {:induction false} ReportsCountLogins(lines: seq<Classified>, size: nat, callback: bool)
    ensures Scan(lines).Success? ==>
      |Reports(lines, size, callback)| ==
        if callback && size > 0 then LoginCount(Scan(lines).value) else 0
    decreases |lines|
  {
    if |lines| > 0 {
      var n := |lines| - 1;
      ReportsCountLogins(lines[..n], size, callback);
      var es := Scan(lines);
      if es.Success? && lines[n].result.Matched? {
        var prev := Scan(lines[..n]).value;
        assert es.value[..|es.value| - 1] == prev;
      }
    }
  }

  /**
   * The callback's last value is 100 exactly when a callback was given and the
   * scan completed; all values lie between 0 and 100 and never decrease.
   */
  lemma CallsShape(lines: seq<Classified>, size: nat, callback: bool)
    ensures var c := Calls(lines, size, callback);
      (|c| > 0 && c[|c| - 1] == 100) <==> callback && Scan(lines).Success?
    ensures var c := Calls(lines, size, callback);
      forall a, b :: 0 <= a < b < |c| ==> 0 <= c[a] <= c[b] <= 100
  {
    ReportsBounded(lines, size, callback);
    ReportsNonDecreasing(lines, size, callback);
  }
}
