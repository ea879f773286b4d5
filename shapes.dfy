/**
 * The eight line shapes of parse_log, each a matcher that reads a log line
 * character by character the way its regular expression, anchored at the
 * start and searched once, reads it: whitespace runs, literals, maximal runs
 * of a character class, and for a greedy `.*` the rightmost position from
 * which the rest of the expression still matches. MatchLine tries them in the
 * source's order and the first that matches wins.
 */
module LineShapes {
  import opened Wrappers
  import opened Text
  import opened Events

  /** The groups every shape captures before the program name. */
  datatype Header = Header(month: string, day: string, time: string, host: string)

  datatype Capture = Capture(header: Header, detail: Detail)

  /** The day is one or two digits and the time HH:MM:SS, as the regular expressions demand. */
  predicate WellFormed(h: Header)
  {
    1 <= |h.day| <= 2 && AllDigits(h.day) && IsClockText(h.time)
  }

  predicate IsNameChar(c: char)
  {
    c != ',' && !IsSpace(c)
  }

  predicate NotSpace(c: char)
  {
    !IsSpace(c)
  }

  predicate NotQuote(c: char)
  {
    c != '\''
  }

  predicate NotNewline(c: char)
  {
    c != '\n'
  }

  // ---------------------------------------------------------------------
  // Building blocks

  /** `\s+` ahead of something that cannot start with whitespace: the whole run is consumed. */
  function Spaces1(s: string): (r: Option<string>)
    ensures r.Some? ==> |r.value| < |s| && r.value == s[|s| - |r.value|..]
  {
    var n := RunLength(s, IsSpace);
    if n == 0 then None else Some(s[n..])
  }

  /** `\s*` ahead of something that cannot start with whitespace. */
  function Spaces0(s: string): (r: string)
    ensures |r| <= |s| && r == s[|s| - |r|..]
  {
    s[RunLength(s, IsSpace)..]
  }

  function Lit(s: string, w: string): (r: Option<string>)
    ensures r.Some? <==> StartsWith(s, w)
    ensures r.Some? ==> r.value == s[|w|..]
  {
    if StartsWith(s, w) then Some(s[|w|..]) else None
  }

  /** `\S+` ahead of whitespace or the end: the maximal non-empty run of non-space characters. */
  function Token(s: string): (r: Option<(string, string)>)
    ensures r.Some? ==> |r.value.0| > 0 && NoSpace(r.value.0) && s == r.value.0 + r.value.1
    ensures r.Some? ==> |r.value.1| == 0 || IsSpace(r.value.1[0])
  {
    var n := RunLength(s, NotSpace);
    if n == 0 then None else Some((s[..n], s[n..]))
  }

  /** The maximal non-empty run of characters satisfying p, and what follows it. */
  function Run1(s: string, p: char -> bool): (r: Option<(string, string)>)
    ensures r.Some? ==> |r.value.0| > 0 && s == r.value.0 + r.value.1
    ensures r.Some? ==> |r.value.1| == 0 || !p(r.value.1[0])
  {
    var n := RunLength(s, p);
    if n == 0 then None else Some((s[..n], s[n..]))
  }

  /** The match of cont at the rightmost position q' <= q of s. */
  function RightmostFrom<T>(s: string, q: nat, cont: string -> Option<T>): (r: Option<T>)
    requires q <= |s|
    decreases q
  {
    match cont(s[q..])
    case Some(v) => Some(v)
    case None => if q == 0 then None else RightmostFrom(s, q - 1, cont)
  }

  /**
   * A greedy `.*` followed by cont: `.` does not cross a newline, and the
   * longest prefix after which cont matches is taken.
   */
  function DotStar<T>(s: string, cont: string -> Option<T>): Option<T>
  {
    RightmostFrom(s, RunLength(s, NotNewline), cont)
  }

  // ---------------------------------------------------------------------
  // The common start of every shape

  /** `(\d{1,2})\s+`: one or two digits, then whitespace. */
  function DayField(s: string): (r: Option<(string, string)>)
    ensures r.Some? ==> 1 <= |r.value.0| <= 2 && AllDigits(r.value.0)
  {
    var n := RunLength(s, IsDigit);
    if n < 1 || n > 2 then None
    else
      var rest :- Spaces1(s[n..]);
      Some((s[..n], rest))
  }

  /** `(\d{2}:\d{2}:\d{2})\s+` */
  function ClockField(s: string): (r: Option<(string, string)>)
    ensures r.Some? ==> IsClockText(r.value.0)
  {
    if |s| < 8 || !IsClockText(s[..8]) then None
    else
      var rest :- Spaces1(s[8..]);
      Some((s[..8], rest))
  }

  /**
   * `^(\w{3})\s+(\d{1,2})\s+(\d{2}:\d{2}:\d{2})\s+(\S+)\s+`: month, day,
   * time and host, and the text from the program name on.
   */
  function Prefix(s: string): (r: Option<(Header, string)>)
    ensures r.Some? ==> WellFormed(r.value.0)
  {
    if |s| < 3 || !(IsWordChar(s[0]) && IsWordChar(s[1]) && IsWordChar(s[2])) then None
    else
      var a :- Spaces1(s[3..]);
      var day :- DayField(a);
      var time :- ClockField(day.1);
      var host :- Token(time.1);
      var rest :- Spaces1(host.1);
      Some((Header(s[..3], day.0, time.0, host.0), rest))
  }

  predicate NotDelimiter(c: char)
  {
    c != ':' && c != '['
  }

  predicate NoDelimiter(name: string)
  {
    forall i :: 0 <= i < |name| ==> NotDelimiter(name[i])
  }

  /** `(?:\[\d+\])?:` — an optional bracketed pid, then a colon. */
  function PidColon(a: string): (r: Option<string>)
    ensures r.Some? ==> |a| > 0 && (a[0] == ':' || a[0] == '[') && |r.value| < |a|
  {
    if |a| > 0 && a[0] == ':' then Some(a[1..])
    else if |a| > 0 && a[0] == '[' then
      var n := RunLength(a[1..], IsDigit);
      if n >= 1 && n + 2 < |a| && a[n + 1] == ']' && a[n + 2] == ':' then Some(a[n + 3..]) else None
    else None
  }

  /** `NAME(?:\[\d+\])?:` — the program name as a literal, a pid and a colon. */
  function Program(s: string, name: string): (r: Option<string>)
    ensures r.Some? ==> StartsWith(s, name)
  {
    var a :- Lit(s, name);
    PidColon(a)
  }

  /**
   * The program tag read without knowing the name: the run of characters up
   * to the first ':' or '[', then the pid and the colon. Every shape's literal
   * program name is free of both, so a shape's tag matches exactly when this
   * run is its name (ProgramTagAgrees).
   */
  function ProgramTag(s: string): (r: Option<(string, string)>)
    ensures r.Some? ==> NoDelimiter(r.value.0)
  {
    var n := RunLength(s, NotDelimiter);
    var rest :- PidColon(s[n..]);
    Some((s[..n], rest))
  }

  /** What every shape reads before its own body: the header and the program tag. */
  datatype Head = Head(header: Header, program: string, rest: string)

  function ReadHead(s: string): (r: Option<Head>)
    ensures r.Some? ==> WellFormed(r.value.header)
  {
    var h :- Prefix(s);
    var t :- ProgramTag(h.1);
    Some(Head(h.0, t.0, t.1))
  }

  /** The header and the text after the tag, when the program is `name`. */
  function Tagged(s: string, name: string): (r: Option<(Header, string)>)
    ensures r.Some? <==> ReadHead(s).Some? && ReadHead(s).value.program == name
    ensures r.Some? ==> r.value == (ReadHead(s).value.header, ReadHead(s).value.rest)
  {
    var t :- ReadHead(s);
    if t.program == name then Some((t.header, t.rest)) else None
  }

  // ---------------------------------------------------------------------
  // 1. Accepted login (auth_analyzer.py:81)

  /** `(\S+)\s+from\s+(\S+)\s+port\s+(\d+)\b`: user, address and port. */
  function LoginTail(s: string): Option<(string, string, string)>
  {
    var user :- Token(s);
    var a :- Spaces1(user.1);
    var b :- Lit(a, "from");
    var c :- Spaces1(b);
    var ip :- Token(c);
    var d :- Spaces1(ip.1);
    var e :- Lit(d, "port");
    var f :- Spaces1(e);
    var port :- Run1(f, IsDigit);
    if |port.1| > 0 && IsWordChar(port.1[0]) then None
    else Some((user.0, ip.0, port.0))
  }

  /** `\s+Accepted\s+(\S+)\s+for\s+` and the login tail, after the sshd tag. */
  function AcceptedBody(s: string): (r: Option<Detail>)
    ensures r.Some? ==> r.value.Accepted?
    ensures r.Some? ==> Spaces1(s).Some? && StartsWith(Spaces1(s).value, "Accepted")
  {
    var a :- Spaces1(s);
    var b :- Lit(a, "Accepted");
    var c :- Spaces1(b);
    var authMethod :- Token(c);
    var d :- Spaces1(authMethod.1);
    var e :- Lit(d, "for");
    var f :- Spaces1(e);
    var login :- LoginTail(f);
    Some(Accepted(login.0, login.1, login.2))
  }

  function MatchAccepted(s: string): (r: Option<Capture>)
    ensures r.Some? ==> ReadHead(s).Some? && ReadHead(s).value.program == "sshd"
                        && r.value.header == ReadHead(s).value.header
    ensures r.Some? ==> r.value.detail.Accepted? && AcceptedBody(ReadHead(s).value.rest).Some?
  {
    var t :- Tagged(s, "sshd");
    var d :- AcceptedBody(t.1);
    Some(Capture(t.0, d))
  }

  // ---------------------------------------------------------------------
  // 2. Failed login (auth_analyzer.py:82)

  /** `invalid\s+user\s+` tried first, then the user straight away. */
  function FailedTail(s: string): Option<(string, string, string)>
  {
    var viaInvalid :=
      var a :- Lit(s, "invalid");
      var b :- Spaces1(a);
      var c :- Lit(b, "user");
      var d :- Spaces1(c);
      LoginTail(d);
    if viaInvalid.Some? then viaInvalid else LoginTail(s)
  }

  /** `\s+Failed\s+password\s+for\s+` and the login tail, after the sshd tag. */
  function FailedBody(s: string): (r: Option<Detail>)
    ensures r.Some? ==> r.value.Failed?
    ensures r.Some? ==> Spaces1(s).Some? && StartsWith(Spaces1(s).value, "Failed")
  {
    var a :- Spaces1(s);
    var b :- Lit(a, "Failed");
    var c :- Spaces1(b);
    var d :- Lit(c, "password");
    var e :- Spaces1(d);
    var f :- Lit(e, "for");
    var g :- Spaces1(f);
    var login :- FailedTail(g);
    Some(Failed(login.0, login.1, login.2))
  }

  function MatchFailed(s: string): (r: Option<Capture>)
    ensures r.Some? ==> ReadHead(s).Some? && ReadHead(s).value.program == "sshd"
                        && r.value.header == ReadHead(s).value.header
    ensures r.Some? ==> r.value.detail.Failed? && FailedBody(ReadHead(s).value.rest).Some?
  {
    var t :- Tagged(s, "sshd");
    var d :- FailedBody(t.1);
    Some(Capture(t.0, d))
  }

  // ---------------------------------------------------------------------
  // 3. Detailed account creation (auth_analyzer.py:83)

  /** `(?:, KEY=(value))?` where value is a maximal run of p. */
  function OptionalField(s: string, key: string, p: char -> bool): (r: (Option<string>, string))
    ensures |r.1| <= |s|
  {
    var lead := ", " + key + "=";
    if StartsWith(s, lead) then
      match Run1(s[|lead|..], p)
      case Some(v) => (Some(v.0), v.1)
      case None => (None, s)
    else (None, s)
  }

  function MatchUserCreatedDetail(s: string): (r: Option<Capture>)
    ensures r.Some? ==> ReadHead(s).Some? && ReadHead(s).value.program == "useradd"
                        && r.value.header == ReadHead(s).value.header
    ensures r.Some? ==> r.value.detail.UserCreatedDetail?
  {
    var t :- Tagged(s, "useradd");
    var a :- Spaces1(t.1);
    var b :- Lit(a, "new");
    var c :- Spaces1(b);
    var d :- Lit(c, "user:");
    var e :- Spaces1(d);
    var f :- Lit(e, "name=");
    var user :- Run1(f, IsNameChar);
    var uid := OptionalField(user.1, "UID", IsDigit);
    var gid := OptionalField(uid.1, "GID", IsDigit);
    var home := OptionalField(gid.1, "home", IsNameChar);
    var shell := OptionalField(home.1, "shell", IsNameChar);
    Some(Capture(t.0, UserCreatedDetail(user.0, uid.0, gid.0, home.0, shell.0)))
  }

  // ---------------------------------------------------------------------
  // 4. Generic account creation (auth_analyzer.py:84)

  /** `(?:added|adding)\s+user\s+(\S+)` */
  function AddedUserTail(s: string): Option<string>
  {
    var a :- if StartsWith(s, "added") then Some(s[5..])
             else if StartsWith(s, "adding") then Some(s[6..]) else None;
    var b :- Spaces1(a);
    var c :- Lit(b, "user");
    var d :- Spaces1(c);
    var user :- Token(d);
    Some(user.0)
  }

  function MatchUserCreated(s: string): (r: Option<Capture>)
    ensures r.Some? ==> ReadHead(s).Some? && ReadHead(s).value.program == "adduser"
                        && r.value.header == ReadHead(s).value.header
    ensures r.Some? ==> r.value.detail.UserCreated?
  {
    var t :- Tagged(s, "adduser");
    var a :- Spaces1(t.1);
    var user :- DotStar(a, AddedUserTail);
    Some(Capture(t.0, UserCreated(user)))
  }

  // ---------------------------------------------------------------------
  // 5. Group creation, two phrasings (auth_analyzer.py:85)

  /** `name=([^,\s]+)(?:, GID=(\d+))?` */
  function GroupName(s: string): Option<(string, Option<string>)>
  {
    var a :- Lit(s, "name=");
    var group :- Run1(a, IsNameChar);
    var gid := OptionalField(group.1, "GID", IsDigit);
    Some((group.0, gid.0))
  }

  function GroupPhrasing(s: string): Option<(string, Option<string>)>
  {
    if StartsWith(s, "group added to /etc/") then
      var a := s[|"group added to /etc/"|..];
      var b :- if StartsWith(a, "group") then Some(a[5..])
               else if StartsWith(a, "gshadow") then Some(a[7..]) else None;
      var c :- Lit(b, ": ");
      GroupName(c)
    else
      var a :- Lit(s, "new group: ");
      GroupName(a)
  }

  function MatchGroupCreated(s: string): (r: Option<Capture>)
    ensures r.Some? ==> ReadHead(s).Some? && ReadHead(s).value.program == "groupadd"
                        && r.value.header == ReadHead(s).value.header
    ensures r.Some? ==> r.value.detail.GroupCreated?
  {
    var t :- Tagged(s, "groupadd");
    var a :- Spaces1(t.1);
    var g :- GroupPhrasing(a);
    Some(Capture(t.0, GroupCreated(g.0, g.1)))
  }

  // ---------------------------------------------------------------------
  // 6. Password change (auth_analyzer.py:86)

  /** `password\s+changed\s+for\s+(\S+)` */
  function PasswordTail(s: string): Option<string>
  {
    var a :- Lit(s, "password");
    var b :- Spaces1(a);
    var c :- Lit(b, "changed");
    var d :- Spaces1(c);
    var e :- Lit(d, "for");
    var f :- Spaces1(e);
    var user :- Token(f);
    Some(user.0)
  }

  function MatchPasswordChanged(s: string): (r: Option<Capture>)
    ensures r.Some? ==> ReadHead(s).Some? && ReadHead(s).value.program == "passwd"
                        && r.value.header == ReadHead(s).value.header
    ensures r.Some? ==> r.value.detail.PasswordChanged?
  {
    var t :- Tagged(s, "passwd");
    var user :- DotStar(t.1, PasswordTail);
    Some(Capture(t.0, PasswordChanged(user)))
  }

  // ---------------------------------------------------------------------
  // 7. Group membership (auth_analyzer.py:87)

  /** `'([^']+)'` */
  function Quoted(s: string): Option<(string, string)>
  {
    var a :- Lit(s, "'");
    var name :- Run1(a, NotQuote);
    var rest :- Lit(name.1, "'");
    Some((name.0, rest))
  }

  function MatchAddedToGroup(s: string): (r: Option<Capture>)
    ensures r.Some? ==> ReadHead(s).Some? && ReadHead(s).value.program == "usermod"
                        && r.value.header == ReadHead(s).value.header
    ensures r.Some? ==> r.value.detail.AddedToGroup?
  {
    var t :- Tagged(s, "usermod");
    var a :- Spaces1(t.1);
    var b :- Lit(a, "add");
    var c :- Spaces1(b);
    var user :- Quoted(c);
    var d :- Spaces1(user.1);
    var e :- Lit(d, "to");
    var f :- Spaces1(e);
    var shadow :=
      var x :- Lit(f, "shadow");
      Spaces1(x);
    var g := if shadow.Some? then shadow.value else f;
    var h :- Lit(g, "group");
    var i :- Spaces1(h);
    var group :- Quoted(i);
    Some(Capture(t.0, AddedToGroup(user.0, group.0)))
  }

  // ---------------------------------------------------------------------
  // 8. Privileged command (auth_analyzer.py:88)

  /** `;\s*COMMAND=(.+)$` */
  function CommandField(s: string): Option<string>
  {
    var a :- Lit(s, ";");
    var b :- Lit(Spaces0(a), "COMMAND=");
    var cmd :- Run1(b, NotNewline);
    if cmd.1 == "" || cmd.1 == "\n" then Some(cmd.0) else None
  }

  /** `;\s*USER=.*` and the command field. */
  function UserField(s: string): Option<string>
  {
    var a :- Lit(s, ";");
    var b :- Lit(Spaces0(a), "USER=");
    DotStar(b, CommandField)
  }

  /** `;\s*PWD=.*` and what follows. */
  function PwdField(s: string): Option<string>
  {
    var a :- Lit(s, ";");
    var b :- Lit(Spaces0(a), "PWD=");
    DotStar(b, UserField)
  }

  /** `\s*:\s*TTY=.*` and what follows, right after the user. */
  function SudoFields(s: string): Option<string>
  {
    var a :- Lit(Spaces0(s), ":");
    var b :- Lit(Spaces0(a), "TTY=");
    DotStar(b, PwdField)
  }

  /**
   * `(\S+)` followed by the sudo fields: the longest non-empty prefix of the
   * leading non-space run (at most k characters) after which they match.
   */
  function SudoUser(s: string, k: nat): (r: Option<(string, string)>)
    requires k <= |s|
    decreases k
  {
    if k == 0 then None
    else match SudoFields(s[k..])
      case Some(cmd) => Some((s[..k], cmd))
      case None => SudoUser(s, k - 1)
  }

  function MatchSudoCommand(s: string): (r: Option<Capture>)
    ensures r.Some? ==> ReadHead(s).Some? && ReadHead(s).value.program == "sudo"
                        && r.value.header == ReadHead(s).value.header
    ensures r.Some? ==> r.value.detail.SudoCommand?
  {
    var t :- Tagged(s, "sudo");
    var a :- Spaces1(t.1);
    var uc :- SudoUser(a, RunLength(a, NotSpace));
    Some(Capture(t.0, SudoCommand(uc.0, uc.1)))
  }

  // ---------------------------------------------------------------------
  // Dispatch

  /** The k-th of the eight shapes, in the order parse_log tries them. */
  function Shape(k: nat, s: string): Option<Capture>
    requires k < 8
  {
    if k < 4 then
      if k < 2 then (if k == 0 then MatchAccepted(s) else MatchFailed(s))
      else (if k == 2 then MatchUserCreatedDetail(s) else MatchUserCreated(s))
    else
      if k < 6 then (if k == 4 then MatchGroupCreated(s) else MatchPasswordChanged(s))
      else (if k == 6 then MatchAddedToGroup(s) else MatchSudoCommand(s))
  }

  /**
   * The chain of `m = X.search(line); if m: ...; continue` in parse_log:
   * the shapes from the k-th on are tried in order and the first match wins.
   */
  function FirstFrom(k: nat, s: string): Option<Capture>
    requires k <= 8
    decreases 8 - k
  {
    if k == 8 then None
    else if Shape(k, s).Some? then Shape(k, s)
    else FirstFrom(k + 1, s)
  }

  function MatchLine(s: string): Option<Capture>
  {
    FirstFrom(0, s)
  }
}

/**
 * What the dispatch guarantees: the line shapes are mutually exclusive (the
 * program names differ, and the two sshd shapes differ in the word after the
 * tag), so the first match in the source's order is also the only one.
 */
module ShapeFacts {
  import opened Wrappers
  import opened Text
  import opened Events
  import opened LineShapes

  /**
   * Reading the tag as a literal name, the way each regular expression does,
   * gives the same result as reading the run up to ':' or '[' and comparing.
   */
  lemma ProgramTagAgrees(s: string, name: string)
    requires NoDelimiter(name)
    ensures Program(s, name) ==
      if ProgramTag(s).Some? && ProgramTag(s).value.0 == name then Some(ProgramTag(s).value.1) else None
  {
    var n := RunLength(s, NotDelimiter);
    if Program(s, name).Some? {
      assert s[..|name|] == name;
      forall k | 0 <= k < |name| ensures NotDelimiter(s[k]) {
        assert s[k] == name[k];
      }
      RunLengthExact(s, NotDelimiter, |name|);
    }
  }

  /** The regular expressions' own reading of the common start, with the tag as a literal. */
  function LiteralTagged(s: string, name: string): Option<(Header, string)>
  {
    var h :- Prefix(s);
    var rest :- Program(h.1, name);
    Some((h.0, rest))
  }

  lemma TaggedAgrees(s: string, name: string)
    requires NoDelimiter(name)
    ensures Tagged(s, name) == LiteralTagged(s, name)
  {
    if Prefix(s).Some? {
      ProgramTagAgrees(Prefix(s).value.1, name);
    }
  }

  lemma StartsWithHead(w: string, p: string)
    requires StartsWith(w, p) && |p| > 0
    ensures |w| > 0 && w[0] == p[0]
  {
    assert w[..|p|][0] == w[0];
  }

  /** The two sshd shapes differ in the word that follows the tag. */
  lemma SshdExclusive(s: string)
    ensures MatchAccepted(s).None? || MatchFailed(s).None?
  {
    if MatchAccepted(s).Some? && MatchFailed(s).Some? {
      var w := Spaces1(ReadHead(s).value.rest).value;
      StartsWithHead(w, "Accepted");
      StartsWithHead(w, "Failed");
    }
  }

  /** The program name each shape's regular expression demands. */
  function ProgName(k: nat): string
    requires k < 8
  {
    if k < 4 then
      if k < 2 then "sshd" else if k == 2 then "useradd" else "adduser"
    else
      if k < 6 then (if k == 4 then "groupadd" else "passwd")
      else (if k == 6 then "usermod" else "sudo")
  }

  /** A shape that matches has read its own program name, and yields its own kind. */
  lemma ShapeTag(s: string, k: nat)
    requires k < 8
    ensures Shape(k, s).Some? ==>
      ReadHead(s).Some? && ReadHead(s).value.program == ProgName(k)
      && Shape(k, s).value.header == ReadHead(s).value.header
      && KindIndex(Shape(k, s).value.detail) == k
  {
    if Shape(k, s).Some? {
      KindIndexValues(Shape(k, s).value.detail);
    }
    if k < 4 {
      if k < 2 {
        if k == 0 {
          assert Shape(k, s) == MatchAccepted(s) && ProgName(k) == "sshd";
        } else {
          assert Shape(k, s) == MatchFailed(s) && ProgName(k) == "sshd";
        }
      } else {
        if k == 2 {
          assert Shape(k, s) == MatchUserCreatedDetail(s) && ProgName(k) == "useradd";
        } else {
          assert Shape(k, s) == MatchUserCreated(s) && ProgName(k) == "adduser";
        }
      }
    } else {
      if k < 6 {
        if k == 4 {
          assert Shape(k, s) == MatchGroupCreated(s) && ProgName(k) == "groupadd";
        } else {
          assert Shape(k, s) == MatchPasswordChanged(s) && ProgName(k) == "passwd";
        }
      } else {
        if k == 6 {
          assert Shape(k, s) == MatchAddedToGroup(s) && ProgName(k) == "usermod";
        } else {
          assert Shape(k, s) == MatchSudoCommand(s) && ProgName(k) == "sudo";
        }
      }
    }
  }

  lemma ProgNamesDistinct(j: nat, k: nat)
    requires j < k < 8 && 2 <= k
    ensures ProgName(j) != ProgName(k)
  {
    var a, b := ProgName(j), ProgName(k);
    assert |a| != |b| || a[0] != b[0] || a[1] != b[1] || (|a| > 4 && a[4] != b[4]);
  }

  /** At most one of the eight shapes matches any line. */
  lemma ShapesExclusive(s: string, j: nat, k: nat)
    requires j < k < 8
    ensures Shape(j, s).None? || Shape(k, s).None?
  {
    ShapeTag(s, j);
    ShapeTag(s, k);
    if k == 1 {
      assert Shape(0, s) == MatchAccepted(s) && Shape(1, s) == MatchFailed(s);
      SshdExclusive(s);
    } else {
      ProgNamesDistinct(j, k);
    }
  }

  /** What FirstFrom returns is the match of the first shape, from k on, that matches. */
  lemma {:induction false} FirstFromFirst(s: string, k: nat)
    requires k <= 8
    ensures FirstFrom(k, s).None? <==> forall i :: k <= i < 8 ==> Shape(i, s).None?
    ensures FirstFrom(k, s).Some? ==>
      var i := KindIndex(FirstFrom(k, s).value.detail);
      k <= i && FirstFrom(k, s) == Shape(i, s) && forall j :: k <= j < i ==> Shape(j, s).None?
    decreases 8 - k
  {
    if k < 8 {
      FirstFromFirst(s, k + 1);
      if Shape(k, s).Some? {
        ShapeTag(s, k);
        assert FirstFrom(k, s) == Shape(k, s);
      } else {
        assert FirstFrom(k, s) == FirstFrom(k + 1, s);
      }
    }
  }

  /**
   * MatchLine returns the first shape, in the source's order, that matches,
   * and nothing when none does.
   */
  lemma FirstShapeWins(s: string)
    ensures MatchLine(s).None? <==> forall i :: 0 <= i < 8 ==> Shape(i, s).None?
    ensures MatchLine(s).Some? ==>
      var i := KindIndex(MatchLine(s).value.detail);
      MatchLine(s) == Shape(i, s) && forall j :: 0 <= j < i ==> Shape(j, s).None?
  {
    FirstFromFirst(s, 0);
  }

  /**
   * Because the shapes exclude each other, the order in which they are tried
   * does not change the result: a capture is what MatchLine returns exactly
   * when the shape of its kind produces it.
   */
  lemma MatchLineOrderFree(s: string, c: Capture)
    ensures MatchLine(s) == Some(c) <==> Shape(KindIndex(c.detail), s) == Some(c)
  {
    FirstShapeWins(s);
    var k := KindIndex(c.detail);
    if Shape(k, s) == Some(c) {
      assert MatchLine(s).Some?;
      var i := KindIndex(MatchLine(s).value.detail);
      assert MatchLine(s) == Shape(i, s);
      if i < k {
        ShapesExclusive(s, i, k);
      }
      assert i == k;
    }
  }

  /** The header MatchLine returns is the common start of the line, so it is well formed. */
  lemma MatchLineHeader(s: string)
    ensures MatchLine(s).Some? ==>
      ReadHead(s).Some? && MatchLine(s).value.header == ReadHead(s).value.header
      && WellFormed(MatchLine(s).value.header)
  {
    FirstShapeWins(s);
    if MatchLine(s).Some? {
      ShapeTag(s, KindIndex(MatchLine(s).value.detail));
    }
  }
}
