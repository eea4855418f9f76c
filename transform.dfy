/** What one Trac ticket becomes on GitHub: the issue's title, labels, body
    and milestone, the comments posted after it and whether it is closed.
    Both scripts share these rules; they differ only where `Variant` says. */
module Transform {
  import opened Seqs
  import opened Text
  import opened GitHub

  /** The two scripts. `Migrate` is migrate.py with its command-line
      arguments and options; `RosPkg` is trac-tickets-to-gh.py, whose only
      option is `-q/--quiet` (logging, not modelled) and which always
      migrates milestones. */
  datatype Variant =
    | Migrate(tracUrl: string, tracComponent: string, milestones: bool, onlyOpen: bool, componentName: bool)
    | RosPkg

  /** The date renderers, opaque: `reportedAt` renders a ticket's `time`
      column with `ctime()`, `dueOn` a milestone's `due` column with
      `isoformat()`. migrate.py reads both as microseconds after 1970,
      trac-tickets-to-gh.py as seconds in local time. */
  datatype Clock = Clock(reportedAt: int -> string, dueOn: int -> string)

  /** One row of the ticket query. `component` is read by migrate.py only to
      log it. */
  datatype Ticket = Ticket(
    id: int,
    priority: Option<string>,
    ticketType: Option<string>,
    summary: string,
    description: Option<string>,
    owner: Option<string>,
    reporter: Option<string>,
    milestone: Option<string>,
    time: int,
    status: string,
    component: string)

  /** One row of the comment query for a ticket. */
  datatype Comment = Comment(author: Option<string>, body: string)

  /** Milestones are synchronised, and issues given one, only with
      `--milestones` in migrate.py, always in trac-tickets-to-gh.py. */
  predicate SyncsMilestones(v: Variant)
  {
    v.RosPkg? || v.milestones
  }

  /** `--open` skips every closed ticket before anything is sent for it. */
  predicate Skipped(v: Variant, t: Ticket)
  {
    v.Migrate? && v.onlyOpen && t.status == "closed"
  }

  predicate ShouldClose(t: Ticket)
  {
    t.status == "closed"
  }

  // ---------------------------------------------------------------- title

  function TitlePrefix(v: Variant): string
  {
    if v.Migrate? && v.componentName then v.tracComponent + ": " else ""
  }

  function TicketMarker(v: Variant): string
  {
    if v.RosPkg? then "  (ros-pkg ticket #" else "  (ticket #"
  }

  /** The issue title: the optional component prefix (the command-line
      component, not the row's), the summary, then the ticket marker. */
  function Title(v: Variant, t: Ticket): string
  {
    TitlePrefix(v) + t.summary + TicketMarker(v) + IntToString(t.id) + ")"
  }

  /** The number of decimal digits at the end of `s`. */
  function TrailingDigits(s: string): (k: nat)
    ensures k <= |s|
    ensures AllDigits(s[|s| - k..])
    ensures k < |s| ==> !IsDigit(s[|s| - k - 1])
  {
    if s != [] && IsDigit(s[|s| - 1]) then
      var k' := TrailingDigits(s[..|s| - 1]);
      DigitsExtend(s, k');
      k' + 1
    else 0
  }

  lemma DigitsExtend(s: string, k: nat)
    requires k < |s| && IsDigit(s[|s| - 1])
    requires AllDigits(s[..|s| - 1][|s| - 1 - k..])
    ensures AllDigits(s[|s| - (k + 1)..])
  {
    var t := s[..|s| - 1][|s| - 1 - k..];
    var u := s[|s| - (k + 1)..];
    forall i | 0 <= i < |u|
      ensures IsDigit(u[i])
    {
      if i < k {
        assert u[i] == t[i];
      }
    }
  }

  /** The number `n` read after `rest`: as is after `#`, negated after `#-`. */
  function MarkedNumber(rest: string, n: int): Option<int>
  {
    if rest != [] && rest[|rest| - 1] == '#' then Some(n)
    else if |rest| >= 2 && rest[|rest| - 2] == '#' && rest[|rest| - 1] == '-' then Some(-n)
    else None
  }

  /** Reads a ticket number back from the end of an issue title: `#<digits>)`
      or `#-<digits>)`. */
  function TicketIdOfTitle(title: string): Option<int>
  {
    if title == [] || title[|title| - 1] != ')' then None
    else
      var head := title[..|title| - 1];
      var k := TrailingDigits(head);
      if k == 0 then None
      else MarkedNumber(head[..|head| - k], ParseDigits(head[|head| - k..]))
  }

  lemma {:induction false} TrailingDigitsAfter(p: string, d: string)
    requires p != [] && !IsDigit(p[|p| - 1])
    requires AllDigits(d)
    ensures TrailingDigits(p + d) == |d|
    decreases |d|
  {
    if d == [] {
      assert p + d == p;
    } else {
      assert (p + d)[..|p + d| - 1] == p + d[..|d| - 1];
      TrailingDigitsAfter(p, d[..|d| - 1]);
    }
  }

  /** A title that ends in a marker, a non-empty run of digits and `)`
      names the number the digits denote, negated after a minus sign. */
  lemma DigitsAfterMarker(p: string, d: string)
    requires p != [] && (p[|p| - 1] == '#' || (|p| >= 2 && p[|p| - 2] == '#' && p[|p| - 1] == '-'))
    requires d != [] && AllDigits(d)
    ensures TicketIdOfTitle(p + d + ")") == MarkedNumber(p, ParseDigits(d))
  {
    var title := p + d + ")";
    assert title[|title| - 1] == ')';
    var head := title[..|title| - 1];
    assert head == p + d;
    TrailingDigitsAfter(p, d);
    assert head[..|head| - |d|] == p;
    assert head[|head| - |d|..] == d;
  }

  /** A title that ends in a marker, the digits of `n` and `)` names `n`,
      or `-n` when the marker ends in a minus sign. */
  lemma IdAfterMarker(p: string, n: nat)
    requires p != [] && (p[|p| - 1] == '#' || (|p| >= 2 && p[|p| - 2] == '#' && p[|p| - 1] == '-'))
    ensures p[|p| - 1] == '#' ==> TicketIdOfTitle(p + NatToString(n) + ")") == Some(n)
    ensures p[|p| - 1] == '-' ==> TicketIdOfTitle(p + NatToString(n) + ")") == Some(-(n as int))
  {
    DigitsAfterMarker(p, NatToString(n));
    ParseNatToString(n);
    assert p[|p| - 1] == '#' || p[|p| - 1] == '-';
  }

  /** A marker ending in `#`, `"%d" % id` and `)` read back as `id`. */
  lemma MarkerThenId(p0: string, id: int)
    requires p0 != [] && p0[|p0| - 1] == '#'
    ensures TicketIdOfTitle(p0 + IntToString(id) + ")") == Some(id)
  {
    if id >= 0 {
      IdAfterMarker(p0, id);
      SameTitle(p0 + IntToString(id) + ")", p0 + NatToString(id) + ")");
    } else {
      var p := p0 + "-";
      var d := NatToString(-id);
      assert p[|p| - 2] == '#' && p[|p| - 1] == '-';
      IdAfterMarker(p, -id);
      assert IntToString(id) == "-" + d;
      ConcatAssoc(p0, "-", d);
      SameTitle(p0 + IntToString(id) + ")", p + d + ")");
    }
  }

  /** Equal titles read back the same id; stated apart so that the solver
      compares the titles without unfolding `TicketIdOfTitle`. */
  lemma SameTitle(a: string, b: string)
    requires a == b
    ensures TicketIdOfTitle(a) == TicketIdOfTitle(b)
  {
  }

  /** Every issue title names its ticket: the ticket id can be read back from
      its end, whatever the summary and the prefix hold. */
  lemma TitleNamesTicket(v: Variant, t: Ticket)
    ensures TicketIdOfTitle(Title(v, t)) == Some(t.id)
  {
    var m := TicketMarker(v);
    assert m[|m| - 1] == '#';
    var p0 := TitlePrefix(v) + t.summary + m;
    assert p0[|p0| - 1] == '#';
    MarkerThenId(p0, t.id);
  }

  /** A title starts with the prefix and the summary, unchanged, and ends
      with the closing parenthesis of the ticket marker. */
  lemma TitleShape(v: Variant, t: Ticket)
    ensures var title := Title(v, t);
            var p := TitlePrefix(v) + t.summary;
            |p| < |title| && title[..|p|] == p && title[|title| - 1] == ')'
  {
    var p := TitlePrefix(v) + t.summary;
    var m := TicketMarker(v);
    var d := IntToString(t.id);
    PrefixOfConcat(p + m + d, ")", |p|);
    PrefixOfConcat(p + m, d, |p|);
    ConcatParts(p, m);
  }

  /** The prefix comes from the command line: two rows that differ only in
      their `component` column get the same title. */
  lemma TitleIgnoresRowComponent(v: Variant, t: Ticket, component: string)
    ensures Title(v, t.(component := component)) == Title(v, t)
  {
  }

  // --------------------------------------------------------------- labels

  /** The type `defect` is renamed `bug`; every other type is kept. */
  function NormalisedType(ticketType: Option<string>): (r: Option<string>)
    ensures r != Some("defect")
    ensures r == Some("bug") <==> ticketType == Some("defect") || ticketType == Some("bug")
    ensures ticketType != Some("defect") ==> r == ticketType
  {
    if ticketType == Some("defect") then Some("bug") else ticketType
  }

  /** The issue's labels: the normalised type if truthy, then the priority
      if truthy; the two are not deduplicated. */
  function IssueLabels(t: Ticket): (r: seq<string>)
    ensures var ty := NormalisedType(t.ticketType);
            |r| == (if Truthy(ty) then 1 else 0) + (if Truthy(t.priority) then 1 else 0) &&
            (Truthy(ty) ==> r[0] == ty.value) &&
            (Truthy(t.priority) ==> r[|r| - 1] == t.priority.value)
    ensures forall i :: 0 <= i < |r| ==> r[i] != ""
    ensures t.ticketType == Some("defect") ==> r[0] == "bug"
    ensures "defect" in r ==> t.priority == Some("defect")
  {
    var ty := NormalisedType(t.ticketType);
    (if Truthy(ty) then [ty.value] else []) + (if Truthy(t.priority) then [t.priority.value] else [])
  }

  // ----------------------------------------------------------------- body

  function TicketUrl(v: Variant, id: int): string
  {
    match v
    case Migrate(tracUrl, _, _, _, _) => tracUrl + "/ticket/" + IntToString(id)
    case RosPkg => "http://code.ros.org/trac/ros-pkg/ticket/" + IntToString(id)
  }

  function OwnerLine(t: Ticket): string { " * Owner: **" + Render(t.owner) + "**" }
  function ReporterLine(t: Ticket): string { " * Reporter: **" + Render(t.reporter) + "**" }
  function ReportedAtLine(clock: Clock, t: Ticket): string { " * Reported at: **" + clock.reportedAt(t.time) + "**" }
  function UrlLine(v: Variant, t: Ticket): string { " * URL: " + TicketUrl(v, t.id) }

  /** The issue body: the stripped description, a blank line and the
      "trac data:" block, with no newline at the end; no body at all when the
      description is None or only white space. */
  function Body(v: Variant, clock: Clock, t: Ticket): (r: Option<string>)
    ensures r.Some? <==> t.description.Some? && !AllSpace(t.description.value)
  {
    match t.description
    case None => None
    case Some(d) =>
      StripEnds(d);
      if Strip(d) != "" then
        Some(JoinLines([Strip(d), "", "trac data:", OwnerLine(t), ReporterLine(t),
                        ReportedAtLine(clock, t), UrlLine(v, t)]))
      else None
  }

  /** `"\n".join(ls)`. */
  function JoinLines(ls: seq<string>): string
    requires ls != []
  {
    if |ls| == 1 then ls[0] else ls[0] + "\n" + JoinLines(ls[1..])
  }

  /** Where the first newline of `s` is. */
  function FirstNewline(s: string): (i: nat)
    requires '\n' in s
    ensures i < |s| && s[i] == '\n'
    ensures forall j :: 0 <= j < i ==> s[j] != '\n'
  {
    if s[0] == '\n' then 0
    else
      assert '\n' in s[1..] by {
        var k :| 0 <= k < |s| && s[k] == '\n';
        assert s[1..][k - 1] == '\n';
      }
      1 + FirstNewline(s[1..])
  }

  /** `s.split('\n')`. */
  function Lines(s: string): (r: seq<string>)
    ensures r != []
    decreases |s|
  {
    if '\n' in s then
      var i := FirstNewline(s);
      [s[..i]] + Lines(s[i + 1..])
    else [s]
  }

  /** Splitting at a newline splits the lines. */
  lemma {:induction false} LinesJoin(a: string, b: string)
    ensures Lines(a + "\n" + b) == Lines(a) + Lines(b)
    decreases |a|
  {
    var s := a + "\n" + b;
    assert '\n' in s by { assert s[|a|] == '\n'; }
    var i := FirstNewline(s);
    if '\n' in a {
      var j := FirstNewline(a);
      assert s[j] == '\n';
      assert i == j;
      assert s[..i] == a[..j];
      assert s[i + 1..] == a[j + 1..] + "\n" + b;
      LinesJoin(a[j + 1..], b);
      ConcatAssoc([a[..j]], Lines(a[j + 1..]), Lines(b));
    } else {
      assert s[|a|] == '\n';
      assert i == |a|;
      assert s[..i] == a;
      assert s[i + 1..] == b;
    }
  }

  /** Reading the lines back: the first piece's own lines, then the others. */
  lemma {:induction false} LinesOfJoin(ls: seq<string>)
    requires ls != []
    requires forall i :: 1 <= i < |ls| ==> '\n' !in ls[i]
    ensures Lines(JoinLines(ls)) == Lines(ls[0]) + ls[1..]
  {
    if |ls| > 1 {
      LinesJoin(ls[0], JoinLines(ls[1..]));
      LinesOfJoin(ls[1..]);
      assert Lines(ls[1]) == [ls[1]];
      assert ls[1..][1..] == ls[2..];
      assert [ls[1]] + ls[2..] == ls[1..];
    }
  }

  /** Read line by line, a body is the stripped description's lines, an
      empty line, then "trac data:" and the Owner, Reporter, Reported-at and
      URL bullets in that order, the URL line last. */
  lemma BodyLines(v: Variant, clock: Clock, t: Ticket)
    requires Body(v, clock, t).Some?
    requires '\n' !in OwnerLine(t) && '\n' !in ReporterLine(t)
    requires '\n' !in ReportedAtLine(clock, t) && '\n' !in UrlLine(v, t)
    ensures Lines(Body(v, clock, t).value)
         == Lines(Strip(t.description.value))
            + ["", "trac data:", OwnerLine(t), ReporterLine(t), ReportedAtLine(clock, t), UrlLine(v, t)]
  {
    var ls := [Strip(t.description.value), "", "trac data:", OwnerLine(t), ReporterLine(t),
               ReportedAtLine(clock, t), UrlLine(v, t)];
    LinesOfJoin(ls);
  }

  // ------------------------------------------------------------ milestone

  /** The issue's milestone: the number the map holds for the stripped
      milestone name, attached only when that name is non-empty, milestones
      are migrated and the number is truthy. */
  function IssueMilestone(v: Variant, t: Ticket, milestoneId: map<string, int>): (r: Option<int>)
    ensures r.Some? <==>
              SyncsMilestones(v) && t.milestone.Some? && !AllSpace(t.milestone.value)
              && Strip(t.milestone.value) in milestoneId && milestoneId[Strip(t.milestone.value)] != 0
    ensures r.Some? ==> r.value == milestoneId[Strip(t.milestone.value)]
  {
    match t.milestone
    case None => None
    case Some(m) =>
      StripEnds(m);
      var name := Strip(m);
      if name != "" && SyncsMilestones(v) && name in milestoneId && milestoneId[name] != 0
      then Some(milestoneId[name])
      else None
  }

  function BuildIssue(v: Variant, clock: Clock, t: Ticket, milestoneId: map<string, int>): IssuePayload
  {
    IssuePayload(Title(v, t), IssueLabels(t), Body(v, clock, t), IssueMilestone(v, t, milestoneId))
  }

  // ------------------------------------------------------------- comments

  /** A comment whose body is only white space (`body.strip()` is empty). */
  predicate Blank(c: Comment)
  {
    Strip(c.body) == ""
  }

  /** A kept comment: its stripped body, after `[<author>] ` when the author
      is truthy. */
  function CommentText(c: Comment): (r: string)
    requires !Blank(c)
    ensures r != ""
    ensures |Strip(c.body)| <= |r| && r[|r| - |Strip(c.body)|..] == Strip(c.body)
    ensures Truthy(c.author) ==> |r| == |c.author.value| + 3 + |Strip(c.body)| && r[..|c.author.value| + 3] == "[" + c.author.value + "] "
    ensures !Truthy(c.author) ==> r == Strip(c.body)
  {
    if Truthy(c.author) then
      var tag := "[" + c.author.value + "] ";
      ConcatParts(tag, Strip(c.body));
      assert (tag + Strip(c.body))[|tag|..] == Strip(c.body);
      tag + Strip(c.body)
    else Strip(c.body)
  }

  /** The comment bodies posted for a ticket, in the order of the rows:
      blank comments are dropped, none of the posted ones is empty. */
  function CommentBodies(cs: seq<Comment>): (r: seq<string>)
    ensures |r| <= |cs|
    ensures forall i :: 0 <= i < |r| ==> r[i] != ""
    ensures r == [] <==> forall i :: 0 <= i < |cs| ==> Blank(cs[i])
  {
    if cs == [] then []
    else
      var c := cs[|cs| - 1];
      var front := CommentBodies(cs[..|cs| - 1]);
      assert forall i :: 0 <= i < |cs| - 1 ==> cs[..|cs| - 1][i] == cs[i];
      front + (if !Blank(c) then [CommentText(c)] else [])
  }

  lemma CommentBodiesSnoc(cs: seq<Comment>, c: Comment)
    ensures CommentBodies(cs + [c]) == CommentBodies(cs) + (if Blank(c) then [] else [CommentText(c)])
  {
    assert (cs + [c])[..|cs|] == cs;
  }

  /** A last comment that is not blank adds its text after the others'. */
  lemma CommentBodiesLast(cs: seq<Comment>)
    requires cs != [] && !Blank(cs[|cs| - 1])
    ensures CommentBodies(cs) == CommentBodies(cs[..|cs| - 1]) + [CommentText(cs[|cs| - 1])]
  {
  }

  /** When no comment is blank, every one is posted, each as its own text. */
  lemma {:induction false} CommentBodiesAllKept(cs: seq<Comment>)
    requires forall i :: 0 <= i < |cs| ==> !Blank(cs[i])
    ensures |CommentBodies(cs)| == |cs|
    ensures forall i :: 0 <= i < |cs| ==> CommentBodies(cs)[i] == CommentText(cs[i])
  {
    if cs != [] {
      var front := cs[..|cs| - 1];
      assert forall i :: 0 <= i < |front| ==> front[i] == cs[i];
      CommentBodiesAllKept(front);
      CommentBodiesLast(cs);
      AppendLast(CommentBodies(cs), CommentBodies(front), CommentText(cs[|cs| - 1]));
      forall i | 0 <= i < |cs| ensures CommentBodies(cs)[i] == CommentText(cs[i]) {
        if i < |front| {
          assert CommentBodies(cs)[i] == CommentBodies(front)[i];
          assert CommentBodies(front)[i] == CommentText(front[i]);
          assert front[i] == cs[i];
        } else {
          assert i == |front|;
        }
      }
    }
  }

  /** Comments are handled one by one: the bodies of two runs of rows are
      the bodies of the first, then those of the second. */
  lemma {:induction false} CommentBodiesAppend(a: seq<Comment>, b: seq<Comment>)
    ensures CommentBodies(a + b) == CommentBodies(a) + CommentBodies(b)
    decreases |b|
  {
    if b == [] {
      assert a + b == a;
    } else {
      assert (a + b)[..|a + b| - 1] == a + b[..|b| - 1];
      CommentBodiesAppend(a, b[..|b| - 1]);
    }
  }

  /** Ticket 42 ("Crash on save", a blocker defect without description,
      still open, no component prefix). */
  lemma CrashOnSaveExample(url: string, component: string, milestones: bool, clock: Clock, owner: Option<string>, m: map<string, int>)
    ensures var t := Ticket(42, Some("blocker"), Some("defect"), "Crash on save", Some(""), owner, owner, None, 0, "new", component);
            var v := Migrate(url, component, milestones, false, false);
            BuildIssue(v, clock, t, m) == IssuePayload("Crash on save  (ticket #42)", ["bug", "blocker"], None, None)
            && !ShouldClose(t)
  {
    var t := Ticket(42, Some("blocker"), Some("defect"), "Crash on save", Some(""), owner, owner, None, 0, "new", component);
    var v := Migrate(url, component, milestones, false, false);
    assert Title(v, t) == "Crash on save  (ticket #42)" by {
      assert NatToString(42) == "42" by { assert NatToString(4) == "4"; }
    }
    assert IssueLabels(t) == ["bug", "blocker"];
    assert Body(v, clock, t) == None;
    assert IssueMilestone(v, t, m) == None;
  }
}
