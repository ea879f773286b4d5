/**
 * summarize_user_ops: the identity-management events become narrative
 * entries keyed by the account or group they concern. Each event proposes
 * one entry (a Candidate); whether it is kept depends on the rule of its
 * kind:
 *   - account creation, password change and group membership are dropped when
 *     the same subject already has an entry with the same explanation;
 *   - group creation is dropped when the same group already has an entry whose
 *     explanation, without its " (GID=g)" part, is the same;
 *   - sudo commands are always kept.
 */
module UserOps {
  import opened Wrappers
  import opened Text
  import opened Events
  import opened Counting

  datatype OpEntry = OpEntry(ts: int, raw: string, explain: string)

  datatype Rule = ByExplain | ByNorm(norm: string) | Always

  datatype Candidate = Candidate(subject: string, entry: OpEntry, rule: Rule)

  // ---------------------------------------------------------------------
  // Explanations

  /** Python truthiness of an optional captured field: present and non-empty. */
  predicate Truthy(o: Option<string>)
  {
    o.Some? && o.value != ""
  }

  function Join(parts: seq<string>, sep: string): string
  {
    if |parts| == 0 then "" else if |parts| == 1 then parts[0] else parts[0] + sep + Join(parts[1..], sep)
  }

  function Field(name: string, o: Option<string>): seq<string>
  {
    if Truthy(o) then [name + "=" + o.value] else []
  }

  /** The `vals` list of a detailed account creation. */
  function CreationFields(uid: Option<string>, gid: Option<string>, home: Option<string>, shell: Option<string>): seq<string>
  {
    Field("UID", uid) + Field("GID", gid) + Field("HOME", home) + Field("SHELL", shell)
  }

  const CreatedUser: string := "创建用户"
  const CreatedGroup: string := "创建同名组 "
  const ChangedPassword: string := "设置/更改密码"
  const JoinedGroup: string := "加入组 "
  const RanCommand: string := "sudo命令 "

  function CreationExplain(uid: Option<string>, gid: Option<string>, home: Option<string>, shell: Option<string>): string
  {
    var vals := CreationFields(uid, gid, home, shell);
    CreatedUser + (if |vals| > 0 then " (" + Join(vals, ", ") + ")" else "")
  }

  function GidSuffix(gid: string): (r: string)
    ensures |r| > 2 && r[0] == ' ' && r[1] == '('
  {
    " (GID=" + gid + ")"
  }

  function GroupExplain(group: string, gid: Option<string>): string
  {
    CreatedGroup + group + (if Truthy(gid) then GidSuffix(gid.value) else "")
  }

  /** The explanation compared for group creation: every " (GID=g)" removed when a GID is given. */
  function GroupNorm(group: string, gid: Option<string>): string
  {
    if Truthy(gid) then RemoveAll(GroupExplain(group, gid), GidSuffix(gid.value)) else GroupExplain(group, gid)
  }

  /** The entry an event proposes, with its subject and rule; logins propose none. */
  function CandidateOf(e: Event): (r: Option<Candidate>)
    ensures r.None? <==> IsLogin(e)
  {
    match e.detail
    case Accepted(_, _, _) => None
    case Failed(_, _, _) => None
    case UserCreatedDetail(user, uid, gid, home, shell) =>
      Some(Candidate(user, OpEntry(e.ts, e.raw, CreationExplain(uid, gid, home, shell)), ByExplain))
    case UserCreated(user) =>
      Some(Candidate(user, OpEntry(e.ts, e.raw, CreatedUser), ByExplain))
    case GroupCreated(group, gid) =>
      Some(Candidate(group, OpEntry(e.ts, e.raw, GroupExplain(group, gid)), ByNorm(GroupNorm(group, gid))))
    case PasswordChanged(user) =>
      Some(Candidate(user, OpEntry(e.ts, e.raw, ChangedPassword), ByExplain))
    case AddedToGroup(user, group) =>
      Some(Candidate(user, OpEntry(e.ts, e.raw, JoinedGroup + group), ByExplain))
    case SudoCommand(user, cmd) =>
      Some(Candidate(user, OpEntry(e.ts, e.raw, RanCommand + cmd), Always))
  }

  function Candidates(events: seq<Event>): seq<Candidate>
  {
    if |events| == 0 then []
    else
      var c := CandidateOf(events[|events| - 1]);
      Candidates(events[..|events| - 1]) + (if c.Some? then [c.value] else [])
  }

  // ---------------------------------------------------------------------
  // Which candidates are kept

  /**
   * Candidate m, earlier than k, makes k a repeat: same subject and, under k's
   * rule, the same explanation or the same normalised explanation.
   */
  predicate Repeats(cs: seq<Candidate>, m: nat, k: nat)
    requires m < k < |cs|
  {
    cs[m].subject == cs[k].subject &&
    match cs[k].rule
    case Always => false
    case ByExplain => cs[m].rule.ByExplain? && cs[m].entry.explain == cs[k].entry.explain
    case ByNorm(n) => cs[m].rule.ByNorm? && cs[m].rule.norm == n
  }

  /** The k-th candidate survives deduplication against the candidates before it. */
  predicate Kept(cs: seq<Candidate>, k: nat)
    requires k < |cs|
  {
    forall m :: 0 <= m < k ==> !Repeats(cs, m, k)
  }

  /** The entries of subject u: its kept candidates, in event order. */
  function Summary(cs: seq<Candidate>, u: string): seq<OpEntry>
  {
    if |cs| == 0 then []
    else
      var n := |cs| - 1;
      Summary(cs[..n], u) + (if cs[n].subject == u && Kept(cs, n) then [cs[n].entry] else [])
  }

  function Subjects(cs: seq<Candidate>): seq<string>
  {
    if |cs| == 0 then [] else Subjects(cs[..|cs| - 1]) + [cs[|cs| - 1].subject]
  }

  /** seen[u]: the explanations of u's exact-deduplicated candidates so far. */
  function SeenExplains(cs: seq<Candidate>, u: string): set<string>
  {
    if |cs| == 0 then {}
    else
      var c := cs[|cs| - 1];
      SeenExplains(cs[..|cs| - 1], u) + (if c.subject == u && c.rule.ByExplain? then {c.entry.explain} else {})
  }

  /** seen_norm[g]: the normalised explanations of g's group creations so far. */
  function SeenNorms(cs: seq<Candidate>, u: string): set<string>
  {
    if |cs| == 0 then {}
    else
      var c := cs[|cs| - 1];
      SeenNorms(cs[..|cs| - 1], u) + (if c.subject == u && c.rule.ByNorm? then {c.rule.norm} else {})
  }

  lemma {:induction false} SeenMeaning(cs: seq<Candidate>, u: string)
    ensures forall x :: x in SeenExplains(cs, u) <==>
      exists m :: 0 <= m < |cs| && cs[m].subject == u && cs[m].rule.ByExplain? && cs[m].entry.explain == x
    ensures forall x :: x in SeenNorms(cs, u) <==>
      exists m :: 0 <= m < |cs| && cs[m].subject == u && cs[m].rule.ByNorm? && cs[m].rule.norm == x
    decreases |cs|
  {
    if |cs| > 0 {
      var n := |cs| - 1;
      SeenMeaning(cs[..n], u);
      forall x | x in SeenExplains(cs, u)
        ensures exists m :: 0 <= m < |cs| && cs[m].subject == u && cs[m].rule.ByExplain? && cs[m].entry.explain == x
      {
        if x !in SeenExplains(cs[..n], u) {
          assert cs[n].subject == u && cs[n].rule.ByExplain? && cs[n].entry.explain == x;
        } else {
          var m :| 0 <= m < n && cs[..n][m].subject == u && cs[..n][m].rule.ByExplain? && cs[..n][m].entry.explain == x;
          assert cs[m] == cs[..n][m];
        }
      }
      forall x | exists m :: 0 <= m < |cs| && cs[m].subject == u && cs[m].rule.ByExplain? && cs[m].entry.explain == x
        ensures x in SeenExplains(cs, u)
      {
        var m :| 0 <= m < |cs| && cs[m].subject == u && cs[m].rule.ByExplain? && cs[m].entry.explain == x;
        if m < n {
          assert cs[..n][m] == cs[m];
        }
      }
      forall x | x in SeenNorms(cs, u)
        ensures exists m :: 0 <= m < |cs| && cs[m].subject == u && cs[m].rule.ByNorm? && cs[m].rule.norm == x
      {
        if x !in SeenNorms(cs[..n], u) {
          assert cs[n].subject == u && cs[n].rule.ByNorm? && cs[n].rule.norm == x;
        } else {
          var m :| 0 <= m < n && cs[..n][m].subject == u && cs[..n][m].rule.ByNorm? && cs[..n][m].rule.norm == x;
          assert cs[m] == cs[..n][m];
        }
      }
      forall x | exists m :: 0 <= m < |cs| && cs[m].subject == u && cs[m].rule.ByNorm? && cs[m].rule.norm == x
        ensures x in SeenNorms(cs, u)
      {
        var m :| 0 <= m < |cs| && cs[m].subject == u && cs[m].rule.ByNorm? && cs[m].rule.norm == x;
        if m < n {
          assert cs[..n][m] == cs[m];
        }
      }
    }
  }

  /** The membership tests against seen and seen_norm decide exactly which candidates are kept. */
  lemma KeptBySeen(cs: seq<Candidate>, c: Candidate)
    ensures var k := |cs|;
      Kept(cs + [c], k) <==>
        match c.rule
        case Always => true
        case ByExplain => c.entry.explain !in SeenExplains(cs, c.subject)
        case ByNorm(n) => n !in SeenNorms(cs, c.subject)
  {
    SeenMeaning(cs, c.subject);
    var all := cs + [c];
    var k := |cs|;
    if !Kept(all, k) {
      var m :| 0 <= m < k && Repeats(all, m, k);
      assert all[m] == cs[m];
    } else {
      match c.rule
      case Always =>
      case ByExplain =>
        if c.entry.explain in SeenExplains(cs, c.subject) {
          var m :| 0 <= m < k && cs[m].subject == c.subject && cs[m].rule.ByExplain? && cs[m].entry.explain == c.entry.explain;
          assert all[m] == cs[m];
          assert Repeats(all, m, k);
        }
      case ByNorm(n) =>
        if n in SeenNorms(cs, c.subject) {
          var m :| 0 <= m < k && cs[m].subject == c.subject && cs[m].rule.ByNorm? && cs[m].rule.norm == n;
          assert all[m] == cs[m];
          assert Repeats(all, m, k);
        }
    }
  }

  lemma SummaryStep(cs: seq<Candidate>, c: Candidate)
    ensures forall u :: (Summary(cs + [c], u) ==
      Summary(cs, u) + (if c.subject == u && Kept(cs + [c], |cs|) then [c.entry] else []))
    ensures forall u :: (SeenExplains(cs + [c], u) ==
      SeenExplains(cs, u) + (if c.subject == u && c.rule.ByExplain? then {c.entry.explain} else {}))
    ensures forall u :: (SeenNorms(cs + [c], u) ==
      SeenNorms(cs, u) + (if c.subject == u && c.rule.ByNorm? then {c.rule.norm} else {}))
    ensures Subjects(cs + [c]) == Subjects(cs) + [c.subject]
  {
    assert (cs + [c])[..|cs|] == cs;
  }

  /** A dropped candidate's subject has been met before. */
  lemma DroppedSubjectKnown(cs: seq<Candidate>, c: Candidate)
    requires !Kept(cs + [c], |cs|)
    ensures c.subject in Subjects(cs)
  {
    var all := cs + [c];
    var m :| 0 <= m < |cs| && Repeats(all, m, |cs|);
    assert all[m] == cs[m];
    SubjectsMeaning(cs, c.subject);
  }

  lemma {:induction false} SummaryMeaning(cs: seq<Candidate>, u: string)
    ensures Summary(cs, u) != [] <==> u in Subjects(cs)
    decreases |cs|
  {
    if |cs| > 0 {
      var n := |cs| - 1;
      SummaryMeaning(cs[..n], u);
      if cs[n].subject == u && u !in Subjects(cs[..n]) {
        // the first candidate of a subject is always kept
        SubjectsMeaning(cs[..n], u);
        assert Kept(cs, n);
      }
    }
  }

  lemma {:induction false} SubjectsMeaning(cs: seq<Candidate>, u: string)
    ensures u in Subjects(cs) <==> exists m :: 0 <= m < |cs| && cs[m].subject == u
    decreases |cs|
  {
    if |cs| > 0 {
      var n := |cs| - 1;
      SubjectsMeaning(cs[..n], u);
      if u in Subjects(cs[..n]) {
        var m :| 0 <= m < n && cs[..n][m].subject == u;
        assert cs[m] == cs[..n][m];
      }
      if exists m :: 0 <= m < |cs| && cs[m].subject == u {
        var m :| 0 <= m < |cs| && cs[m].subject == u;
        if m < n {
          assert cs[..n][m] == cs[m];
        }
      }
    }
  }

  // ---------------------------------------------------------------------
  // The promises of the deduplication

  /**
   * For the exactly deduplicated kinds, a subject never keeps two candidates
   * with the same explanation; for group creation, never two with the same
   * normalised explanation.
   */
  lemma NoRepeats(cs: seq<Candidate>, a: nat, b: nat)
    requires a < b < |cs| && cs[a].subject == cs[b].subject && Kept(cs, a) && Kept(cs, b)
    ensures cs[a].rule.ByExplain? && cs[b].rule.ByExplain? ==> cs[a].entry.explain != cs[b].entry.explain
    ensures cs[a].rule.ByNorm? && cs[b].rule.ByNorm? ==> cs[a].rule.norm != cs[b].rule.norm
  {
    assert !Repeats(cs, a, b);
  }

  /**
   * A dropped candidate is covered by the first one with the same subject and
   * the same (normalised) explanation, which is kept: the first wording wins.
   */
  lemma {:induction false} DroppedHasKeptTwin(cs: seq<Candidate>, b: nat)
    requires b < |cs| && !Kept(cs, b)
    ensures exists a :: (0 <= a < b && Kept(cs, a) && cs[a].subject == cs[b].subject
      && (cs[b].rule.ByExplain? ==> cs[a].rule.ByExplain? && cs[a].entry.explain == cs[b].entry.explain)
      && (cs[b].rule.ByNorm? ==> cs[a].rule.ByNorm? && cs[a].rule.norm == cs[b].rule.norm))
    decreases b
  {
    var m :| 0 <= m < b && Repeats(cs, m, b);
    if !Kept(cs, m) {
      DroppedHasKeptTwin(cs, m);
    }
  }

  /** Every sudo command appends an entry to its user's list and touches no other list. */
  lemma CommandAppends(cs: seq<Candidate>, c: Candidate)
    requires c.rule.Always?
    ensures Summary(cs + [c], c.subject) == Summary(cs, c.subject) + [c.entry]
    ensures forall u :: u != c.subject ==> Summary(cs + [c], u) == Summary(cs, u)
  {
    SummaryStep(cs, c);
  }

  /** A repeated explanation, or a repeated group creation, changes no list. */
  lemma RepeatChangesNothing(cs: seq<Candidate>, c: Candidate)
    requires c.rule.ByExplain? ==> c.entry.explain in SeenExplains(cs, c.subject)
    requires c.rule.ByNorm? ==> c.rule.norm in SeenNorms(cs, c.subject)
    requires !c.rule.Always?
    ensures forall u :: Summary(cs + [c], u) == Summary(cs, u)
  {
    SummaryStep(cs, c);
    KeptBySeen(cs, c);
  }

  // ---------------------------------------------------------------------
  // Facts about the explanations

  /** A detailed account creation reads just "创建用户" exactly when it has no non-empty field. */
  lemma CreationExplainPlain(uid: Option<string>, gid: Option<string>, home: Option<string>, shell: Option<string>)
    ensures CreationExplain(uid, gid, home, shell) == CreatedUser <==>
      !Truthy(uid) && !Truthy(gid) && !Truthy(home) && !Truthy(shell)
  {
    var vals := CreationFields(uid, gid, home, shell);
    if |vals| > 0 {
      assert |CreationExplain(uid, gid, home, shell)| > |CreatedUser|;
    }
  }

  lemma {:induction false} RemoveAllKeepsPlain(s: string, t: string, pattern: string)
    requires |pattern| > 0 && forall k :: 0 <= k < |s| ==> s[k] != pattern[0]
    ensures RemoveAll(s + t, pattern) == s + RemoveAll(t, pattern)
    decreases |s|
  {
    if |s| > 0 {
      assert (s + t)[0] == s[0];
      assert !StartsWith(s + t, pattern) by {
        if |pattern| <= |s + t| {
          assert (s + t)[..|pattern|][0] == (s + t)[0];
        }
      }
      assert (s + t)[1..] == s[1..] + t;
      assert forall k :: 0 <= k < |s[1..]| ==> s[1..][k] == s[k + 1];
      RemoveAllKeepsPlain(s[1..], t, pattern);
      assert s == [s[0]] + s[1..];
    } else {
      assert s + t == t;
    }
  }

  lemma RemoveAllSelf(pattern: string)
    requires |pattern| > 0
    ensures RemoveAll(pattern, pattern) == []
  {
    assert pattern[|pattern|..] == [];
  }

  /**
   * For a group name from the groupadd line (no whitespace) that does not
   * begin with '(', normalisation leaves the explanation without its GID:
   * "创建同名组 <group>", whether a GID is given or not.
   */
  lemma GroupNormDropsGid(group: string, gid: Option<string>)
    requires NoSpace(group) && (|group| > 0 ==> group[0] != '(')
    ensures GroupNorm(group, gid) == CreatedGroup + group
  {
    if Truthy(gid) {
      var p := GidSuffix(gid.value);
      var head := CreatedGroup[..5];
      assert CreatedGroup == head + " ";
      Regroup(head, " ", group, p);
      assert GroupExplain(group, gid) == head + (" " + (group + p));
      RemoveAllKeepsPlain(head, " " + (group + p), p);
      SuffixRemoved(group, gid.value);
      Regroup(head, " ", group, []);
    }
  }

  lemma Regroup(a: string, b: string, c: string, d: string)
    ensures a + b + c + d == a + (b + (c + d))
  {
  }

  /** The " (GID=g)" after a space-free group name is removed and the rest kept. */
  lemma SuffixRemoved(group: string, gid: string)
    requires NoSpace(group) && (|group| > 0 ==> group[0] != '(')
    ensures RemoveAll(" " + (group + GidSuffix(gid)), GidSuffix(gid)) == " " + group
  {
    var p := GidSuffix(gid);
    var w := " " + (group + p);
    assert !StartsWith(w, p) by {
      if |group| > 0 {
        assert w[1] == group[0];
      } else {
        assert w[1] == ' ';
      }
    }
    assert w[1..] == group + p;
    assert forall k :: 0 <= k < |group| ==> group[k] != p[0];
    RemoveAllKeepsPlain(group, p, p);
    RemoveAllSelf(p);
    assert group + [] == group;
  }

  // ---------------------------------------------------------------------
  // The algorithm

  function SeenOf(m: map<string, set<string>>, u: string): set<string>
  {
    if u in m then m[u] else {}
  }

  /**
   * The membership test of one candidate against `seen` or `seen_norm`, and
   * the set it adds to when the candidate is new.
   */
  method Offer(seen: map<string, set<string>>, seenNorm: map<string, set<string>>, c: Candidate)
    returns (keep: bool, seen': map<string, set<string>>, seenNorm': map<string, set<string>>)
    ensures keep <==> match c.rule
      case Always => true
      case ByExplain => c.entry.explain !in SeenOf(seen, c.subject)
      case ByNorm(n) => n !in SeenOf(seenNorm, c.subject)
    ensures forall u :: (SeenOf(seen', u) ==
      SeenOf(seen, u) + (if c.subject == u && c.rule.ByExplain? then {c.entry.explain} else {}))
    ensures forall u :: (SeenOf(seenNorm', u) ==
      SeenOf(seenNorm, u) + (if c.subject == u && c.rule.ByNorm? then {c.rule.norm} else {}))
  {
    var u := c.subject;
    seen', seenNorm' := seen, seenNorm;
    match c.rule {
      case ByExplain =>
        keep := c.entry.explain !in SeenOf(seen, u);
        if keep {
          seen' := seen[u := SeenOf(seen, u) + {c.entry.explain}];
        }
      case ByNorm(norm) =>
        keep := norm !in SeenOf(seenNorm, u);
        if keep {
          seenNorm' := seenNorm[u := SeenOf(seenNorm, u) + {norm}];
        }
      case Always =>
        keep := true;
    }
  }

  /** The loop state of summarize_user_ops after the candidates cs. */
  ghost predicate Tracks(cs: seq<Candidate>, order: seq<string>, ops: map<string, seq<OpEntry>>,
                   seen: map<string, set<string>>, seenNorm: map<string, set<string>>)
  {
    && order == Unique(Subjects(cs))
    && (forall u :: u in ops <==> u in order)
    && (forall u :: u in ops ==> ops[u] == Summary(cs, u))
    && (forall u :: SeenOf(seen, u) == SeenExplains(cs, u))
    && (forall u :: SeenOf(seenNorm, u) == SeenNorms(cs, u))
  }

  /** What one more candidate, kept or dropped, does to the entry lists. */
  lemma KeptStep(cs: seq<Candidate>, c: Candidate, keep: bool)
    requires keep == Kept(cs + [c], |cs|)
    ensures forall v :: (Summary(cs + [c], v) == Summary(cs, v) + (if v == c.subject && keep then [c.entry] else []))
    ensures !keep ==> c.subject in Subjects(cs)
    ensures c.subject !in Subjects(cs) ==> Summary(cs, c.subject) == []
    ensures Subjects(cs + [c]) == Subjects(cs) + [c.subject]
  {
    SummaryStep(cs, c);
    SummaryMeaning(cs, c.subject);
    if !keep {
      DroppedSubjectKnown(cs, c);
    }
  }

  /**
   * The dictionary update of summarize_user_ops: a kept entry e of u goes to
   * the end of u's list, and u goes last in the key order when it is new.
   */
  lemma ListsUpdate(subjects: seq<string>, u: string, e: OpEntry, keep: bool,
                    order: seq<string>, ops: map<string, seq<OpEntry>>,
                    order': seq<string>, ops': map<string, seq<OpEntry>>)
    requires order == Unique(subjects)
    requires forall v :: v in ops <==> v in order
    requires !keep ==> u in subjects
    requires order' == if keep && u !in ops then order + [u] else order
    requires ops' == if !keep then ops else if u in ops then ops[u := ops[u] + [e]] else ops[u := [e]]
    ensures order' == Unique(subjects + [u])
    ensures forall v :: v in ops' <==> v in order'
    ensures forall v :: v in ops' ==> v in ops || v == u
    ensures forall v :: v in ops' ==> ops'[v] == (if v in ops then ops[v] else []) + (if v == u && keep then [e] else [])
  {
    UniqueMeaning(subjects);
    UniqueAppend(subjects, u);
  }

  /** Each list after the step is the subject's entries over one more candidate. */
  lemma EntriesStep(cs: seq<Candidate>, c: Candidate, keep: bool,
                    ops: map<string, seq<OpEntry>>, ops': map<string, seq<OpEntry>>)
    requires forall u :: u in ops ==> ops[u] == Summary(cs, u)
    requires forall v :: (Summary(cs + [c], v) == Summary(cs, v) + (if v == c.subject && keep then [c.entry] else []))
    requires c.subject !in ops ==> Summary(cs, c.subject) == []
    requires forall v :: v in ops' ==> v in ops || v == c.subject
    requires forall v :: v in ops' ==> ops'[v] == (if v in ops then ops[v] else []) + (if v == c.subject && keep then [c.entry] else [])
    ensures forall v :: v in ops' ==> ops'[v] == Summary(cs + [c], v)
  {
    forall v | v in ops' ensures ops'[v] == Summary(cs + [c], v) {
      if v !in ops {
        assert v == c.subject;
      }
    }
  }

  /**
   * The entry lists and their key order after one more candidate whose fate is keep, given what
   * KeptStep says about that candidate.
   */
  lemma ListsStep(cs: seq<Candidate>, c: Candidate, keep: bool,
                  order: seq<string>, ops: map<string, seq<OpEntry>>,
                  order': seq<string>, ops': map<string, seq<OpEntry>>)
    requires order == Unique(Subjects(cs))
    requires forall u :: u in ops <==> u in order
    requires forall u :: u in ops ==> ops[u] == Summary(cs, u)
    requires forall v :: (Summary(cs + [c], v) == Summary(cs, v) + (if v == c.subject && keep then [c.entry] else []))
    requires !keep ==> c.subject in Subjects(cs)
    requires c.subject !in Subjects(cs) ==> Summary(cs, c.subject) == []
    requires Subjects(cs + [c]) == Subjects(cs) + [c.subject]
    requires order' == if keep && c.subject !in ops then order + [c.subject] else order
    requires ops' == if !keep then ops
      else if c.subject in ops then ops[c.subject := ops[c.subject] + [c.entry]]
      else ops[c.subject := [c.entry]]
    ensures order' == Unique(Subjects(cs + [c]))
    ensures forall v :: v in ops' <==> v in order'
    ensures forall v :: v in ops' ==> ops'[v] == Summary(cs + [c], v)
  {
    UniqueMeaning(Subjects(cs));
    ListsUpdate(Subjects(cs), c.subject, c.entry, keep, order, ops, order', ops');
    EntriesStep(cs, c, keep, ops, ops');
  }

  /** One candidate offered and, when kept, appended: the state tracks one more candidate. */
  lemma TracksStep(cs: seq<Candidate>, c: Candidate, keep: bool,
                   order: seq<string>, ops: map<string, seq<OpEntry>>,
                   seen: map<string, set<string>>, seenNorm: map<string, set<string>>,
                   order': seq<string>, ops': map<string, seq<OpEntry>>,
                   seen': map<string, set<string>>, seenNorm': map<string, set<string>>)
    requires Tracks(cs, order, ops, seen, seenNorm)
    requires keep <==> match c.rule
      case Always => true
      case ByExplain => c.entry.explain !in SeenOf(seen, c.subject)
      case ByNorm(n) => n !in SeenOf(seenNorm, c.subject)
    requires forall u :: (SeenOf(seen', u) ==
      SeenOf(seen, u) + (if c.subject == u && c.rule.ByExplain? then {c.entry.explain} else {}))
    requires forall u :: (SeenOf(seenNorm', u) ==
      SeenOf(seenNorm, u) + (if c.subject == u && c.rule.ByNorm? then {c.rule.norm} else {}))
    requires order' == if keep && c.subject !in ops then order + [c.subject] else order
    requires ops' == if !keep then ops
      else if c.subject in ops then ops[c.subject := ops[c.subject] + [c.entry]]
      else ops[c.subject := [c.entry]]
    ensures Tracks(cs + [c], order', ops', seen', seenNorm')
  {
    SummaryStep(cs, c);
    KeptBySeen(cs, c);
    assert keep == Kept(cs + [c], |cs|) by {
      assert SeenOf(seen, c.subject) == SeenExplains(cs, c.subject);
      assert SeenOf(seenNorm, c.subject) == SeenNorms(cs, c.subject);
    }
    KeptStep(cs, c, keep);
    ListsStep(cs, c, keep, order, ops, order', ops');
  }

  /**
   * The loop of summarize_user_ops: `ops` in key order, and per subject the
   * entries kept; `seen` and `seen_norm` hold the explanations met so far.
   */
  method SummarizeUserOps(events: seq<Event>) returns (order: seq<string>, ops: map<string, seq<OpEntry>>)
    ensures order == Unique(Subjects(Candidates(events)))
    ensures forall u :: u in ops <==> u in order
    ensures forall u :: u in ops ==> ops[u] == Summary(Candidates(events), u)
  {
    order := [];
    ops := map[];
    var seen: map<string, set<string>> := map[];
    var seenNorm: map<string, set<string>> := map[];
    for k := 0 to |events|
      invariant Tracks(Candidates(events[..k]), order, ops, seen, seenNorm)
    {
      ghost var cs := Candidates(events[..k]);
      assert events[..k + 1][..k] == events[..k];
      var candidate := CandidateOf(events[k]);
      if candidate.Some? {
        var c := candidate.value;
        var u := c.subject;
        assert Candidates(events[..k + 1]) == cs + [c];
        ghost var order0, ops0, seen0, seenNorm0 := order, ops, seen, seenNorm;
        var keep;
        keep, seen, seenNorm := Offer(seen, seenNorm, c);
        if keep {
          if u in ops {
            ops := ops[u := ops[u] + [c.entry]];
          } else {
            order := order + [u];
            ops := ops[u := [c.entry]];
          }
        }
        TracksStep(cs, c, keep, order0, ops0, seen0, seenNorm0, order, ops, seen, seenNorm);
      } else {
        assert Candidates(events[..k + 1]) == cs;
      }
    }
    assert events[..|events|] == events;
  }
}
