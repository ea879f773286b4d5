# Auth log analyzer — a verified model

This project models the analysis core of an SSH/auth log analyzer (`auth_analyzer.py`).
The modelled code reads a syslog-style authentication log line by line and does the following:

- It recognises eight kinds of line:
  - accepted and failed SSH logins;
  - the user creations of `useradd` and `adduser`;
  - the group creations of `groupadd`;
  - password changes;
  - additions to a group by `usermod`;
  - `sudo` commands.
- It resolves the year-less timestamp of each line against the current date.
- It reports progress as a percentage of the bytes read.
- It finds brute-force incidents: windows of at least `count` failed logins from one address within `minutes` minutes.
- For each user or group, it summarises the account operations and removes duplicates.
- It enriches each suspect address through a geolocation service whose answers are cached. Place names are translated into Chinese.
- It assembles the report that `analyze_file` returns.

The modules follow the structure of the program:

| module | file | models |
|---|---|---|
| `Wrappers` | wrappers.dfy | `Option` and `Result` |
| `Text` | text.dfy | character classes, `strip`, `str.replace` with an empty replacement, digit values |
| `Timestamps` | timestamps.dfy | `parse_timestamp`, on seconds of the proleptic Gregorian calendar |
| `Events` | events.dfy | the event records that `parse_log` appends |
| `LineShapes` | shapes.dfy | the eight line patterns, as matchers written character by character |
| `Scanner` | scanner.dfy | `parse_log`: first matching pattern per line, events, progress reports |
| `Sorting` | sorting.dfy | Python's stable `list.sort(key=…)` / `sorted(…, key=…)`, on sequences and in place on an array |
| `Counting` | counting.dfy | first-occurrence key order of a `dict`, and `Counter` |
| `Bruteforce` | bruteforce.dfy | `detect_bruteforce` with its two-pointer sliding window |
| `UserOps` | userops.dfy | `summarize_user_ops` and its `seen` / `seen_norm` de-duplication |
| `StringOrder` | order.dfy | Python string order and `sorted(set(…))` |
| `Geo` | geo.dfy | `_to_zh`, the decoding of a lookup answer, and the `GEO_CACHE` of `geo_lookup` |
| `Analyzer` | analyzer.dfy | `analyze_file` and the report it builds |

Some operations are written as imperative methods, each proved against a specification function:

- the scan of `parse_log`;
- the grouping and window loops of `detect_bruteforce`;
- the accumulation loop of `summarize_user_ops`;
- the sort;
- the loops of `analyze_file`.

The geolocation cache is a class whose lookup updates its map.

## Model

| member | source | states |
|---|---|---|
| Timestamps.Resolve | auth_analyzer.py:11-14 | The date is first taken in the current year. It moves to the previous year exactly when it lies more than seven days after `now`. A result exists exactly when the source's `strptime`/`replace`/`now + 7 days` would not raise (invalid day, 29 February in the previous year, year out of range). Any result lies in (now − 366 days, now + 7 days]. |
| Timestamps.ParseTimestamp | auth_analyzer.py:9-14 | It fails unless the month is a known `%b` name. Otherwise it is Resolve of the month number and of the values of the day and clock digits. Any result lies in (now − 366 days, now + 7 days]. |
| Timestamps.WithinItsYear | auth_analyzer.py:11 | A valid date-time's seconds lie inside its own year. |
| Timestamps.EarlierYearIsEarlier | auth_analyzer.py:12-13 | A date in an earlier year is strictly earlier. |
| Timestamps.YearEarlierShift | auth_analyzer.py:13 | Replacing the year by the previous one moves a time back by 365 or 366 days. |
| Timestamps.SameYearLowerBound | auth_analyzer.py:11-12 | A time in the current year is less than 366 days before `now`. |
| Timestamps.DaysInMonth | auth_analyzer.py:11 | Every month has 28 to 31 days. |
| Timestamps.MonthNumber | auth_analyzer.py:11 | A recognised `%b` name has three letters and gives a month number from 1 to 12. |
| Text.Strip | auth_analyzer.py:96 | The stripped line neither starts nor ends with white space. It is the part of the line that starts right after the leading white-space run, and only white space follows it. |
| Text.LeadingSpace | auth_analyzer.py:96 | It gives the length of the leading white-space run: every character before it is white space and the one at it is not. |
| Text.TrimStartRun | auth_analyzer.py:96 | Removing leading white space leaves exactly what follows the leading white-space run. |
| Text.StripParts | auth_analyzer.py:96 | A prefix of the rest after the leading run, followed only by white space, is the infix of the line at that position, and only white space follows it. |
| Text.TrimStart | auth_analyzer.py:96 | It removes exactly the leading run of white space. |
| Text.TrimEnd | auth_analyzer.py:96 | It removes exactly the trailing run of white space. |
| Text.DigitsValue | auth_analyzer.py:11 | The value of one or two decimal digits, as `%d`, `%H`, `%M` and `%S` read them. |
| Text.RunLength | auth_analyzer.py:81 | It gives the length of the longest prefix whose characters satisfy the class. That is the maximal munch of `\S+` and `[^,\s]+`. |
| Text.RunLengthExact | auth_analyzer.py:81 | Any length with that prefix property is the run length. |
| Text.LowerAll | auth_analyzer.py:11 | It lower-cases letter by letter. It is used to match month names without regard to case. |
| Text.RemoveAll | auth_analyzer.py:193 | `str.replace(p, '')` never lengthens the text. |
| LineShapes.Lit | auth_analyzer.py:81 | A literal matches exactly when the text starts with it, and the match consumes it. |
| LineShapes.Token | auth_analyzer.py:81 | `\S+` takes a non-empty space-free token, stopping only at white space or at the end. |
| LineShapes.Run1 | auth_analyzer.py:83 | A non-empty maximal run of a character class. |
| LineShapes.Spaces1 | auth_analyzer.py:81 | `\s+` consumes at least one character and leaves a suffix. |
| LineShapes.Spaces0 | auth_analyzer.py:88 | `\s*` leaves a suffix. |
| LineShapes.DayField | auth_analyzer.py:81 | `\d{1,2}` gives one or two digits. |
| LineShapes.ClockField | auth_analyzer.py:81 | `\d{2}:\d{2}:\d{2}` gives a clock text. |
| LineShapes.Prefix | auth_analyzer.py:81 | The shared prefix (month, day, time, host) is well formed. |
| LineShapes.PidColon | auth_analyzer.py:81 | `(?:\[\d+\])?:` starts at ':' or '['. |
| LineShapes.Program | auth_analyzer.py:81 | A program name matches only where the text starts with it. |
| LineShapes.ProgramTag | auth_analyzer.py:81-88 | The program tag read before ':' or '[' holds neither delimiter. |
| LineShapes.ReadHead | auth_analyzer.py:81-88 | The header read from a line is well formed. |
| LineShapes.Tagged | auth_analyzer.py:81-88 | A line carries a given program exactly when its head names that program. The header and rest are then those of the head. |
| ShapeFacts.ProgramTagAgrees | auth_analyzer.py:81-88 | Matching a literal program name agrees with reading the generic tag and comparing it. |
| ShapeFacts.TaggedAgrees | auth_analyzer.py:81-88 | Reading the head and comparing names agrees with matching the name literally. |
| LineShapes.MatchAccepted | auth_analyzer.py:81 | A match is an `sshd` line whose body starts "Accepted". The captured header is the line's header. |
| LineShapes.AcceptedBody | auth_analyzer.py:81 | The accepted body starts with white space followed by "Accepted". |
| LineShapes.MatchFailed | auth_analyzer.py:82 | A match is an `sshd` line whose body starts "Failed". The captured header is the line's header. |
| LineShapes.FailedBody | auth_analyzer.py:82 | The failed body starts with white space followed by "Failed". |
| LineShapes.OptionalField | auth_analyzer.py:83 | An optional `, KEY=value` field only consumes text. |
| LineShapes.MatchUserCreatedDetail | auth_analyzer.py:83 | A match is a `useradd` line with a user-creation detail, under the line's header. |
| LineShapes.MatchUserCreated | auth_analyzer.py:84 | A match is an `adduser` line with a user creation, under the line's header. |
| LineShapes.MatchGroupCreated | auth_analyzer.py:85 | A match is a `groupadd` line with a group creation, under the line's header. |
| LineShapes.MatchPasswordChanged | auth_analyzer.py:86 | A match is a `passwd` line with a password change, under the line's header. |
| LineShapes.MatchAddedToGroup | auth_analyzer.py:87 | A match is a `usermod` line with a group addition, under the line's header. |
| LineShapes.MatchSudoCommand | auth_analyzer.py:88 | A match is a `sudo` line with a command, under the line's header. |
| ShapeFacts.SshdExclusive | auth_analyzer.py:81-82 | No line is both an accepted and a failed login. |
| ShapeFacts.ShapesExclusive | auth_analyzer.py:81-88 | No line matches two of the eight patterns. |
| ShapeFacts.ShapeTag | auth_analyzer.py:81-88 | A pattern that matches has read its own program name from the line's head and yields an event of its own kind. |
| ShapeFacts.FirstFromFirst | auth_analyzer.py:93-138 | From any position in the cascade on, the result is the first pattern from there that matches, or nothing when none does. |
| ShapeFacts.FirstShapeWins | auth_analyzer.py:93-138 | The first-match cascade finds nothing exactly when no pattern matches. Otherwise it returns the pattern of the event's kind, and every earlier pattern failed. |
| ShapeFacts.MatchLineOrderFree | auth_analyzer.py:93-138 | Because the patterns are exclusive, the cascade returns a capture exactly when the pattern of that capture's kind does, whatever the order of the tests. |
| ShapeFacts.MatchLineHeader | auth_analyzer.py:93-138 | A recognised line's captured header is its own well-formed header. |
| Events.KindIndexValues | auth_analyzer.py:96-137 | The eight event types have the indices 0 to 7, in the order the source tests them. |
| Scanner.Classify | auth_analyzer.py:93-138 | A line is not recognised exactly when no pattern matches. A recognised line aborts the scan exactly when the timestamp of its captured header fails. Otherwise it gives the captured detail and host, the stripped raw text, and that timestamp, which lies in the range of Resolve. |
| Scanner.Stamp | auth_analyzer.py:9-14 | For a well-formed header it is parse_timestamp of the captured month, day and time. A result exists only for a well-formed header and lies in the range of Resolve. |
| Scanner.Outcome | auth_analyzer.py:94-96 | A recognised line never yields "no match". It is the error exactly when its timestamp fails; otherwise the event carries that timestamp, the host, the detail and the stripped line. |
| Scanner.ClassifyTimestamp | auth_analyzer.py:9-14 | A recognised line's header is well formed. The line aborts the scan exactly when parse_timestamp fails on its month, day and time, and otherwise its event carries parse_timestamp's value. |
| Scanner.ClassifyAll | auth_analyzer.py:91-138 | There is one classification per line. |
| Scanner.ParseLog | auth_analyzer.py:78-141 | The scan loop returns exactly the events of the specification, or the failure at the first bad line. It also returns the progress values. |
| Scanner.ScanLine | auth_analyzer.py:92-138 | The loop body for one classified line. It fails exactly on an unresolvable timestamp, leaving the progress as it was. Otherwise it adds the line's bytes, appends the line's event if any, and reports the percentage after a login when a callback is present and the size is non-zero. |
| Scanner.ScanMeaning | auth_analyzer.py:89-141 | The scan fails at the first line whose timestamp cannot be resolved. Otherwise it is the concatenation of each line's event, in file order. |
| Scanner.ScanStep | auth_analyzer.py:91-138 | One more line extends the events, the read bytes and the reports as the loop body does. |
| Scanner.ScanStops | auth_analyzer.py:95 | After a failing line nothing changes: the exception ends the scan. |
| Scanner.FirstBad | auth_analyzer.py:95 | It names the first line with an unresolvable timestamp, or states that there is none. |
| Scanner.LineEvents | auth_analyzer.py:89-138 | There are at most as many events as lines. |
| Scanner.LineEventsAppend | auth_analyzer.py:91 | The events of concatenated lines are the concatenated events. |
| Scanner.FirstBadAppend | auth_analyzer.py:91 | A line appended after a bad line does not move the first bad line. |
| Scanner.AtMostOneEventPerLine | auth_analyzer.py:99 | Each line contributes at most one event: every branch ends in `continue`. |
| Scanner.ReportsBounded | auth_analyzer.py:97-98 | No report is made without a callback or on an empty file. Every report lies between 0 and 99, and below the percentage of the whole file. |
| Scanner.ReportsNonDecreasing | auth_analyzer.py:92-105 | The progress values never decrease. |
| Scanner.ReportsCountLogins | auth_analyzer.py:97-105 | On a successful scan there is one report per login event, and none for the other kinds. |
| Scanner.PercentMonotone | auth_analyzer.py:98 | `min(99, int(read * 100 / size))` grows with the bytes read. |
| Scanner.CallsShape | auth_analyzer.py:139-140 | The last call is 100 exactly when a callback is present and the scan completes. All calls lie between 0 and 100 and never decrease. |
| Sorting.Insert | auth_analyzer.py:151 | Insertion adds exactly one element. |
| Sorting.Sort | auth_analyzer.py:151 | Sorting keeps the length. |
| Sorting.SortSorted | auth_analyzer.py:151 | The result is ordered by the key. |
| Sorting.SortPermutes | auth_analyzer.py:151 | The result is a permutation of the input. |
| Sorting.SortStable | auth_analyzer.py:151 | Elements with equal keys keep their relative order, as in Python's stable sort. |
| Sorting.InsertPermutes | auth_analyzer.py:151 | Insertion adds exactly the inserted element to the multiset. |
| Sorting.InsertSorted | auth_analyzer.py:151 | Insertion into an ordered sequence keeps it ordered. |
| Sorting.InsertWithKey | auth_analyzer.py:151 | An insertion appends to the elements with the same key. |
| Sorting.InsertAt | auth_analyzer.py:151 | Insertion places the element after the last element whose key is not larger. |
| Sorting.InsertInPlace | auth_analyzer.py:151 | The in-place shift loop computes Insert on the array's prefix and leaves the rest untouched. |
| Sorting.SortInPlace | auth_analyzer.py:151 | The in-place sort of `lst.sort` leaves the array as Sort of its old contents. |
| Counting.UniqueMeaning | auth_analyzer.py:144-147 | The dict keys in first-insertion order are exactly the distinct values, each once. |
| Counting.UniqueAppend | auth_analyzer.py:147 | A new value is appended to the key order. An old value leaves it unchanged. |
| Counting.BumpFacts | auth_analyzer.py:158 | Counting one more name raises its count by one and the total by one. It adds the name to the key order if new, and all counts stay positive. |
| Counting.TallyMeaning | auth_analyzer.py:158 | `Counter(names)` counts each name as often as it occurs. The counts sum to the number of names, the keys are the distinct names in first-occurrence order, and every count is positive. |
| Counting.TallyCounts | auth_analyzer.py:158 | `Counter(names)` counts each name as often as it occurs, and the counts sum to the number of names. |
| Counting.TallyKeys | auth_analyzer.py:158 | The keys of `Counter(names)` are the distinct names in first-occurrence order, and every count is positive. |
| Bruteforce.GroupByIp | auth_analyzer.py:144-147 | The loop gives the failed-login addresses in first-seen order, and for each the failed events from it in log order. |
| Bruteforce.FailedFromMeaning | auth_analyzer.py:144-147 | An address has a group exactly when it has a failed login. The group holds exactly its failed events. |
| Bruteforce.AllFailedFrom | auth_analyzer.py:146-147 | Every event of an address's group is a failed login from that address. |
| Bruteforce.FailedStep | auth_analyzer.py:145-147 | One more event extends the address list and the groups as the loop body does. |
| Bruteforce.FailedFromMembers | auth_analyzer.py:144-147 | A group holds exactly the failed events from its address. |
| Bruteforce.FailedFromNonEmpty | auth_analyzer.py:144-147 | An address has a failed event exactly when it appears in the list of failed-login addresses. |
| Bruteforce.GroupStep | auth_analyzer.py:145-147 | One pass of the loop body keeps the invariant. The keys stay the first-seen order of failed addresses, and each group stays that address's failed events. |
| Bruteforce.Group | auth_analyzer.py:151 | A sorted group holds failed logins from its address, ordered by timestamp. |
| Bruteforce.GroupFacts | auth_analyzer.py:151 | Sorting a group keeps it to that address and orders it by time. |
| Bruteforce.LeftFrom | auth_analyzer.py:154-155 | The advanced left edge never passes the right edge. |
| Bruteforce.LeftFromFacts | auth_analyzer.py:154-155 | Every skipped event is more than the window before `lst[j]`, and the edge event is not. |
| Bruteforce.LeftSkip | auth_analyzer.py:154-155 | Starting the search later, past events that are too old, finds the same edge. |
| Bruteforce.WindowMeaning | auth_analyzer.py:154-156 | On a time-ordered group, the window at `j` holds exactly the earlier events within `minutes` of `lst[j]`. |
| Bruteforce.RecentSuffix | auth_analyzer.py:156-158 | The events within the window form a suffix of the prefix up to `j`. |
| Bruteforce.WindowIsRecent | auth_analyzer.py:158 | `lst[i:j+1]` is exactly the events up to `j` that lie within the window of `lst[j]`. |
| Bruteforce.LeftEdgeMonotone | auth_analyzer.py:152-155 | The left edge never moves back, so `i` can be kept across iterations. |
| Bruteforce.LeftEdgeStep | auth_analyzer.py:153-155 | Events before the previous edge are still too old for the next `j`. |
| Bruteforce.LeftEdgeAt | auth_analyzer.py:154-155 | The edge is the first event within the window. |
| Bruteforce.SliceFailed | auth_analyzer.py:158 | A slice of a group is still all failed logins from its address. |
| Bruteforce.WindowFacts | auth_analyzer.py:156-159 | An incident at `j` has the group's address and a count equal to the window's length. Its start is the window's first time and its end is `lst[j]`'s time, at most the window apart. Its user counts count the window's users and sum to the count. |
| Bruteforce.UsersLength | auth_analyzer.py:158 | There is one user per failed event. |
| Bruteforce.IpIncidentsMeaning | auth_analyzer.py:153-159 | An address's incidents are exactly the windows whose size reaches the threshold, and there are at most as many as events. |
| Bruteforce.IpIncidentsOrdered | auth_analyzer.py:153-159 | An address's incidents come in non-decreasing end order and end no later than its last event. |
| Bruteforce.IpIncidentsSound | auth_analyzer.py:156-159 | Every incident of an address reaches the threshold and has 1 to `len(lst)` attempts. It spans at most the window, and its user counts sum to its count. |
| Bruteforce.IncidentsOverSound | auth_analyzer.py:150-159 | Over all addresses, every incident belongs to a listed address and is sound as above, with at most as many attempts as that address's failures. |
| Bruteforce.IncidentsOverOrdered | auth_analyzer.py:150-159 | Over distinct addresses, the incidents of any one address stay in end order. |
| Bruteforce.IncidentsSound | auth_analyzer.py:143-160 | Every incident names a failed-login address and reaches the threshold. Its attempts are bounded by that address's failures, its span is at most `minutes * 60` seconds, its user counts sum to its count, and per address the incidents are in end order. |
| Bruteforce.AdvanceLeft | auth_analyzer.py:154-155 | The `while` loop moves `i` to the left edge of the window at `j`. |
| Bruteforce.WindowScan | auth_analyzer.py:152-159 | The two-pointer loop over one sorted group yields exactly that address's incidents. |
| Bruteforce.ScanGroup | auth_analyzer.py:150-159 | For one address, sorting its failures in place and scanning them yields exactly that address's incidents. |
| Bruteforce.IncidentsOverStep | auth_analyzer.py:150 | Another address in the `by_ip` order appends that address's incidents. |
| Bruteforce.EndsOrderedAppend | auth_analyzer.py:150-159 | Appending the incidents of a new address keeps each address's incidents in end order. |
| Bruteforce.WindowTally | auth_analyzer.py:158 | A window's user breakdown counts each user's failures and sums to the window's size. |
| Bruteforce.DetectBruteforce | auth_analyzer.py:143-160 | The whole method returns exactly the specification's incidents: addresses in first-failure order, and per address the qualifying windows in order of `j`. |
| UserOps.CandidateOf | auth_analyzer.py:166-213 | An event offers an operation exactly when it is not a login. |
| UserOps.SeenMeaning | auth_analyzer.py:180-196 | An explanation or group norm has been seen for a subject exactly when an earlier operation of that subject recorded it. |
| UserOps.KeptBySeen | auth_analyzer.py:180-213 | An operation is kept exactly as the source decides. A `sudo` command is always kept. Other explanations are kept when not yet seen for that user. A group creation is kept when its norm is not yet seen for that group. |
| UserOps.SummaryStep | auth_analyzer.py:180-213 | One more event appends at most its own entry, and only to its own subject's list. It records its explanation or norm, and it adds its subject to the key order. |
| UserOps.DroppedSubjectKnown | auth_analyzer.py:180-196 | A dropped operation's subject already has a list. |
| UserOps.SummaryMeaning | auth_analyzer.py:163-214 | A subject's list is non-empty exactly when the subject occurs among the operations. |
| UserOps.SubjectsMeaning | auth_analyzer.py:166-213 | The key order mentions exactly the subjects of the operations. |
| UserOps.NoRepeats | auth_analyzer.py:180-196 | No two kept operations of a subject carry the same explanation or the same group norm. |
| UserOps.DroppedHasKeptTwin | auth_analyzer.py:180-196 | Every dropped operation has an earlier kept one with the same subject and the same explanation, or the same norm. |
| UserOps.CommandAppends | auth_analyzer.py:209-213 | A `sudo` command is appended to its user's list and to no other list. |
| UserOps.RepeatChangesNothing | auth_analyzer.py:180-196 | A repeated explanation or norm changes no list. |
| UserOps.CreationExplainPlain | auth_analyzer.py:169-178 | The explanation is the bare "创建用户" exactly when none of uid, gid, home and shell is present and non-empty. |
| UserOps.RemoveAllKeepsPlain | auth_analyzer.py:193 | `replace` leaves untouched a prefix that cannot start the pattern. |
| UserOps.RemoveAllSelf | auth_analyzer.py:193 | Removing a pattern from itself leaves nothing. |
| UserOps.SuffixRemoved | auth_analyzer.py:193 | After a space-free group name that does not start with '(', the `replace` removes exactly the " (GID=g)" suffix. |
| UserOps.GroupNormDropsGid | auth_analyzer.py:192-193 | For a group name without spaces that does not start with '(', the norm is "创建同名组 " followed by the name, whatever the GID. Creations of one group that differ only in GID are therefore duplicates. |
| UserOps.Offer | auth_analyzer.py:180-196 | The test-and-record step keeps exactly what has not been seen. It adds the explanation or norm to the subject's seen set and changes nothing else. |
| UserOps.KeptStep | auth_analyzer.py:180-213 | A kept operation appends to its subject's list only. A dropped one has a known subject. |
| UserOps.ListsUpdate | auth_analyzer.py:181 | Appending to a `defaultdict(list)` keeps the key order and the contents in step. |
| UserOps.EntriesStep | auth_analyzer.py:181 | After the append, each list equals the specification's list. |
| UserOps.ListsStep | auth_analyzer.py:180-213 | Both the key order and the lists follow the specification after one event. |
| UserOps.TracksStep | auth_analyzer.py:166-213 | One loop iteration preserves the correspondence between the state (`ops`, `seen`, `seen_norm`) and the specification. |
| UserOps.SummarizeUserOps | auth_analyzer.py:162-214 | The loop returns the subjects in first-insertion order, with one list per subject equal to the specification's de-duplicated summary. |
| StringOrder.BelowIrreflexive | auth_analyzer.py:223 | No string is below itself. |
| StringOrder.BelowTransitive | auth_analyzer.py:223 | Python's string order is transitive. |
| StringOrder.BelowTotal | auth_analyzer.py:223 | Python's string order is total and asymmetric. |
| StringOrder.InsertSortedFacts | auth_analyzer.py:223 | Inserting into a strictly sorted listing keeps it strictly sorted and adds exactly the new value. |
| StringOrder.SortedSetMeaning | auth_analyzer.py:223 | `sorted(set(xs))` is strictly ascending and has exactly the members of xs. |
| StringOrder.SortedListingUnique | auth_analyzer.py:223 | Two strictly sorted listings of the same members are equal, so the suspect list is determined by its set. |
| Geo.Get | auth_analyzer.py:54 | `dict.get(k, d)` gives the entry when the key is present and the default otherwise. |
| Geo.ToZh | auth_analyzer.py:48-55 | A place name in the table becomes its translation. Everything else comes back unchanged: absent, empty, Latin names outside the table and other names. |
| Geo.Resolve | auth_analyzer.py:63-76 | A location is stored exactly when there is an answer whose status is "success". Its latitude and longitude are copied, and its country, region and city are translated. |
| Geo.GeoCache.constructor | auth_analyzer.py:16 | The cache starts empty. |
| Geo.GeoCache.Lookup | auth_analyzer.py:56-76 | A cached address returns its entry without asking the service. A new address is resolved through the service once, and its result is cached (a failure as None). The cache keys are exactly the addresses asked about, none twice. |
| Analyzer.Basename | auth_analyzer.py:249 | `os.path.basename`: a slash-free suffix of the path, preceded by '/' when shorter than the path. |
| Analyzer.OfKind | auth_analyzer.py:227-228 | The list comprehension keeps exactly the events of one type. |
| Analyzer.OfKindCounts | auth_analyzer.py:227-228 | Each event of the type is kept as often as it occurs, and no other event is kept. So `accepted_total` and `failed_total` count the events of each type. |
| Analyzer.OfKindSnoc | auth_analyzer.py:227-228 | One more event at the end is appended exactly when it has the type. |
| Analyzer.OfKindAppend | auth_analyzer.py:227-228 | The filter keeps file order: the filter of a + b is the filter of a followed by the filter of b. |
| Analyzer.OfKindSingle | auth_analyzer.py:227-228 | A single event is kept exactly when it has the type. |
| Analyzer.TotalsCountLogins | auth_analyzer.py:255-256 | The accepted and failed totals add up to the number of login events. |
| Analyzer.SliceLength | auth_analyzer.py:230 | A slice is never longer than the list. |
| Analyzer.Take | auth_analyzer.py:230 | `accepted[:limit]` is a prefix whose length follows Python's slice rule: `limit` when within the length, the whole list when larger, `len + limit` for a negative limit, and nothing below `-len`. |
| Analyzer.AcceptedRows | auth_analyzer.py:229-231 | The loop builds one row per event of the slice, from that event's time, address, user and port. |
| Analyzer.IncidentIps | auth_analyzer.py:223 | The addresses of the incidents, in order. |
| Analyzer.AttemptsCover | auth_analyzer.py:224-226 | An address's summed attempts are at least any one of its incidents' counts. |
| Analyzer.AttemptsAbsent | auth_analyzer.py:241 | An address without incidents has 0 attempts, the `get(ip, 0)` default. |
| Analyzer.AttemptsByIp | auth_analyzer.py:224-226 | The accumulation loop has exactly the incident addresses as keys, each with the sum of its incidents' counts. |
| Analyzer.SortOps | auth_analyzer.py:233-235 | Every subject's list is replaced by its stable sort by timestamp, and the keys are unchanged. |
| Analyzer.CacheStep | auth_analyzer.py:237-238 | One lookup agrees with the first cache state, and the cache then holds the old entries and the suspects so far, each with its looked-up value. |
| Analyzer.AppendRow | auth_analyzer.py:239-247 | Appending the row of the next suspect keeps every row equal to its suspect's expected row. |
| Analyzer.SuspectDetails | auth_analyzer.py:236-247 | There is one row per suspect, in suspect order, with its attempts and the location the cache holds or the service gives. Afterwards the cache holds its old entries plus the suspects, each with its looked-up value. |
| Analyzer.Detection | auth_analyzer.py:222-226 | The incidents, the sorted distinct suspect addresses and the suspect rows are those of the specification. The cache grows by the suspects. |
| Analyzer.Logins | auth_analyzer.py:227-231 | The accepted rows and both totals are those of the specification. |
| Analyzer.Operations | auth_analyzer.py:232-235 | The user operations are the specification's summary, each list sorted by time. |
| Analyzer.BuildReport | auth_analyzer.py:222-269 | The report names the file's base name, flags a brute force exactly when there is an incident, and holds the detection, login and operation parts as specified. |
| Analyzer.AnalyzeFile | auth_analyzer.py:216-269 | A scan that fails returns the index of the bad line and leaves the cache alone. Otherwise the report describes the scanned events with the settings (5, 5 and 100 by default), and the progress calls are those of the scan. |
| Analyzer.SuspectsFacts | auth_analyzer.py:223 | The suspects are strictly ascending, and an address is a suspect exactly when some incident names it. |
| Analyzer.AttemptsFacts | auth_analyzer.py:236-241 | Each suspect row names its suspect and has at least `count` attempts. |
| Analyzer.TotalsFacts | auth_analyzer.py:253-257 | The two totals add up to the number of logins, and there are no more rows than accepted logins. |
| Analyzer.OpsFacts | auth_analyzer.py:232-235 | Each reported list is ordered by time and is a permutation of the de-duplicated summary. Operations with equal timestamps keep their log order. |

## Left out

- I/O: opening and reading the file, `os.path.getsize`, `datetime.now()`, the HTTP request and its JSON decoding, and UTF-8 decoding with `errors='ignore'`.
  - The model receives the lines with their encoded byte lengths, the file size, one clock reading `now`, and the lookup service as a function `fetch` from an address to an optional decoded answer.
  - A failed request, a timeout or a decoding error is `fetch` answering None.
- Scanner.ParseLog: the clock is read once for the whole scan. The source reads it once per matched line, so a scan across midnight of New Year may differ.
- Regular expressions are not interpreted. Each of the eight patterns is a hand-written matcher:
  - `\s` is the full set of characters for which `str.isspace()` holds, as in Python's `re`;
  - `\w` and `\d` are taken as their ASCII classes, where Python's `re` also accepts other Unicode letters and digits;
  - `%b` is the English three-letter month name, compared without regard to case.
- The login method (`method`) of an accepted login is matched but not stored in the event.
- Timestamps are integer seconds. The `strftime('%m-%d %H:%M:%S')` formatting of the report is not modelled.
- Progress is `min(99, read * 100 / size)` on integers. The source divides in floating point and truncates with `int()`. The two agree while the file is small enough for the quotient to be exact to well under one unit, which holds far past the 64 MB upload limit of app.py:9. For files beyond about 2^47 bytes, a quotient just below 99 can round up to 99.0, and the model does not capture that rounding.
- Dictionary order in the JSON output is not modelled:
  - `user_operations` and `incidents_by_ip` are maps;
  - the key order of `summarize_user_ops` is returned alongside them and proved.
  - A `Counter`'s users are a list of (user, count) pairs in first-occurrence order.
- The `int()` conversion of the settings is not modelled: settings are given as optional integers.
- Bruteforce.DetectBruteforce: it requires a non-negative window (`minutes >= 0`).
  - With a negative window the source raises `IndexError` as soon as an address has a failed login. At the last `j` the `while` loop moves `i` past `j` up to `len(lst)` and reads `lst[len(lst)]`.
  - With a negative window and no failed login at all, the source returns an empty incident list. The model excludes that input as well.
- Bruteforce.DetectBruteforce: it does not model the `OverflowError` of `timedelta(minutes=minutes)` (auth_analyzer.py:149). That error is raised for `minutes >= 1440000000000`, a window beyond 999999999 days, before any event is examined. For such windows the model returns the incidents of that window instead.
- Analyzer.Detection: it requires a non-negative window, and it does not model the `OverflowError` for `minutes >= 1440000000000`, both as for Bruteforce.DetectBruteforce.
- Analyzer.BuildReport: it requires a non-negative window and, for `minutes >= 1440000000000`, returns a report where the source raises `OverflowError`, as for Bruteforce.DetectBruteforce.
- Analyzer.AnalyzeFile: it requires a non-negative window, as for Bruteforce.DetectBruteforce. For a scan that completes and `minutes >= 1440000000000` it returns `Success` where the source raises `OverflowError`.
- UserOps.GroupNormDropsGid: it is stated for group names that do not start with '('. The norm is computed exactly as written, by removing every occurrence of " (GID=…)".
- Geo.ToZh: that translating twice changes nothing is not proved. The table's values are not in the table's keys, but quantifying over the 29-entry table is too costly.
- A lookup answer holds strings for its place fields and reals for its coordinates. Other JSON values in those fields are not modelled.
- `GEO_CACHE` is a module-level dictionary in the source. Here it is a `GeoCache` object passed in, which is the same thing for one process.
- The web front end (`app.py`, `static/app.js`) is not part of this model.
