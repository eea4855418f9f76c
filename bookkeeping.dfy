/** The bookkeeping of one run, as functions of the state before a step:
    the label cache `gh_labels`, the milestone map `milestone_id` and the
    requests sent to GitHub so far. The `Migration` class runs the same
    steps in place; these functions are its specification. */
module Bookkeeping {
  import opened Seqs
  import opened Text
  import opened GitHub
  import opened Transform

  /** What a run keeps: the label names known to exist on GitHub (the keys
      of `gh_labels`, whose values are all True), the milestone map and the
      log of requests. */
  datatype RunState = RunState(labels: set<Option<string>>, milestoneId: map<string, int>, log: seq<Call>)

  /** One row of the milestone query. */
  datatype TracMilestone = TracMilestone(name: string, description: Option<string>, due: Option<int>, completed: Option<int>)

  // ------------------------------------------------------------ label cache

  /** The cache seeded from GitHub's label listing. */
  function ListedLabels(listing: seq<string>): set<Option<string>>
  {
    set i | 0 <= i < |listing| :: Some(listing[i])
  }

  /** `if name not in gh_labels`: create the label and remember it. There is
      no guard against None or "": such a name is created like any other. */
  function EnsureLabel(st: RunState, name: Option<string>): RunState
  {
    if name in st.labels then st
    else st.(labels := st.labels + {name}, log := st.log + [CreateLabel(name)])
  }

  // ---------------------------------------------------------- milestone map

  /** The titles a milestone listing holds. */
  function Titles(listing: seq<ListedMilestone>): set<string>
  {
    set i | 0 <= i < |listing| :: listing[i].title
  }

  /** No later entry of the listing has the same title as entry `i`. */
  predicate LastOfTitle(listing: seq<ListedMilestone>, i: int)
    requires 0 <= i < |listing|
  {
    forall j :: i < j < |listing| ==> listing[j].title != listing[i].title
  }

  /** `for m in listing: milestone_id[m['title']] = m['number']`. */
  function RecordListing(m: map<string, int>, listing: seq<ListedMilestone>): map<string, int>
  {
    if listing == [] then m
    else
      var last := listing[|listing| - 1];
      RecordListing(m, listing[..|listing| - 1])[last.title := last.number]
  }

  lemma TitlesOfFront(listing: seq<ListedMilestone>)
    requires listing != []
    ensures Titles(listing) == Titles(listing[..|listing| - 1]) + {listing[|listing| - 1].title}
  {
    var front := listing[..|listing| - 1];
    assert forall i :: 0 <= i < |front| ==> front[i] == listing[i];
  }

  /** Recording a listing: every title of the listing maps to the number of
      its last entry; other keys keep their number. */
  lemma {:induction false} RecordListingEffect(m: map<string, int>, listing: seq<ListedMilestone>)
    ensures var r := RecordListing(m, listing);
            && r.Keys == m.Keys + Titles(listing)
            && (forall i :: 0 <= i < |listing| && LastOfTitle(listing, i) ==>
                  listing[i].title in r && r[listing[i].title] == listing[i].number)
            && (forall k :: k in m && k !in Titles(listing) ==> r[k] == m[k])
    decreases |listing|
  {
    if listing != [] {
      var front := listing[..|listing| - 1];
      RecordListingEffect(m, front);
      TitlesOfFront(listing);
      forall i | 0 <= i < |listing| - 1 && LastOfTitle(listing, i)
        ensures LastOfTitle(front, i)
      {
      }
    }
  }

  /** The map built from the open listing, then the closed one. */
  function ListedMilestones(openListing: seq<ListedMilestone>, closedListing: seq<ListedMilestone>): map<string, int>
  {
    RecordListing(RecordListing(map[], openListing), closedListing)
  }

  /** The request for a Trac milestone: its stripped name, closed exactly
      when `completed` is truthy, `due_on` exactly when `due` is truthy. */
  function MilestoneFor(clock: Clock, tm: TracMilestone): (p: MilestonePayload)
    ensures p.title == Strip(tm.name) && p.description == tm.description
    ensures p.state == Closed <==> TruthyInt(tm.completed)
    ensures p.dueOn.Some? <==> TruthyInt(tm.due)
  {
    MilestonePayload(
      Strip(tm.name),
      if TruthyInt(tm.completed) then Closed else Open,
      tm.description,
      if TruthyInt(tm.due) then Some(clock.dueOn(tm.due.value)) else None)
  }

  /** One Trac milestone: created when its stripped name is non-empty and not
      a key yet; the number GitHub answers is recorded under the key "name",
      as the scripts write it, not under the milestone's title. */
  function CreateMissingMilestone(clock: Clock, server: Server, st: RunState, tm: TracMilestone): RunState
  {
    var name := Strip(tm.name);
    if name != "" && name !in st.milestoneId then
      var log := st.log + [CreateMilestone(MilestoneFor(clock, tm))];
      st.(milestoneId := st.milestoneId["name" := server(log)], log := log)
    else st
  }

  function CreateMissingMilestones(clock: Clock, server: Server, st: RunState, tms: seq<TracMilestone>): RunState
    decreases |tms|
  {
    if tms == [] then st
    else CreateMissingMilestones(clock, server, CreateMissingMilestone(clock, server, st, tms[0]), tms[1..])
  }

  /** The milestone stage: skipped without `--milestones` in migrate.py;
      otherwise the map is rebuilt from both listings and the missing Trac
      milestones are created. */
  function SyncMilestones(v: Variant, clock: Clock, server: Server, st: RunState,
                          openListing: seq<ListedMilestone>, closedListing: seq<ListedMilestone>,
                          tms: seq<TracMilestone>): RunState
  {
    if SyncsMilestones(v) then
      CreateMissingMilestones(clock, server, st.(milestoneId := ListedMilestones(openListing, closedListing)), tms)
    else st
  }

  /** Reference definition of which Trac milestones get created, given the
      keys the map starts with: a row whose stripped name is non-empty and
      not a key; after the first creation "name" is a key too. */
  function ToCreate(keys: set<string>, tms: seq<TracMilestone>): (r: seq<TracMilestone>)
    ensures |r| <= |tms|
    ensures forall i :: 0 <= i < |r| ==> Strip(r[i].name) != "" && Strip(r[i].name) !in keys
    ensures forall i :: 0 <= i < |tms| && Strip(tms[i].name) != "" && Strip(tms[i].name) !in keys && Strip(tms[i].name) != "name"
              ==> tms[i] in r
    decreases |tms|
  {
    if tms == [] then []
    else
      var name := Strip(tms[0].name);
      var rest := if name != "" && name !in keys then ToCreate(keys + {"name"}, tms[1..]) else ToCreate(keys, tms[1..]);
      assert forall i :: 1 <= i < |tms| ==> tms[i] == tms[1..][i - 1];
      if name != "" && name !in keys then [tms[0]] + rest else rest
  }

  function MilestoneCalls(clock: Clock, rows: seq<TracMilestone>): seq<Call>
  {
    if rows == [] then [] else [CreateMilestone(MilestoneFor(clock, rows[0]))] + MilestoneCalls(clock, rows[1..])
  }

  /** Creating the missing milestones sends one request per row `ToCreate`
      picks, in order, and leaves the label cache alone. */
  lemma {:induction false} CreateMissingMilestonesLog(clock: Clock, server: Server, st: RunState, tms: seq<TracMilestone>)
    ensures var r := CreateMissingMilestones(clock, server, st, tms);
            r.labels == st.labels && r.log == st.log + MilestoneCalls(clock, ToCreate(st.milestoneId.Keys, tms))
    decreases |tms|
  {
    if tms != [] {
      var keys := st.milestoneId.Keys;
      var st1 := CreateMissingMilestone(clock, server, st, tms[0]);
      CreateMissingMilestonesLog(clock, server, st1, tms[1..]);
      var name := Strip(tms[0].name);
      if name != "" && name !in st.milestoneId {
        var c := CreateMilestone(MilestoneFor(clock, tms[0]));
        var rest := ToCreate(keys + {"name"}, tms[1..]);
        assert st1.milestoneId.Keys == keys + {"name"};
        assert ToCreate(keys, tms) == [tms[0]] + rest;
        assert ([tms[0]] + rest)[1..] == rest;
        assert MilestoneCalls(clock, [tms[0]] + rest) == [c] + MilestoneCalls(clock, rest);
        assert st1.log == st.log + [c];
      } else {
        assert ToCreate(keys, tms) == ToCreate(keys, tms[1..]);
      }
    }
  }

  /** Creating the missing milestones changes no key but "name": the
      created milestones' titles are never recorded. */
  lemma {:induction false} CreateMissingMilestonesKeys(clock: Clock, server: Server, st: RunState, tms: seq<TracMilestone>)
    ensures var r := CreateMissingMilestones(clock, server, st, tms);
            && (forall k :: k != "name" ==> (k in r.milestoneId <==> k in st.milestoneId))
            && (forall k :: k in st.milestoneId && k != "name" ==> r.milestoneId[k] == st.milestoneId[k])
            && ("name" in r.milestoneId <==> "name" in st.milestoneId || ToCreate(st.milestoneId.Keys, tms) != [])
    decreases |tms|
  {
    if tms != [] {
      var keys := st.milestoneId.Keys;
      var st1 := CreateMissingMilestone(clock, server, st, tms[0]);
      CreateMissingMilestonesKeys(clock, server, st1, tms[1..]);
      var name := Strip(tms[0].name);
      if name != "" && name !in st.milestoneId {
        assert st1.milestoneId.Keys == keys + {"name"};
        assert ToCreate(keys, tms) != [];
      } else {
        assert ToCreate(keys, tms) == ToCreate(keys, tms[1..]);
      }
    }
  }

  /** The milestone stage as a whole: the open listing is overridden by the
      closed one; a Trac milestone with a non-empty stripped name that is
      neither listed nor "name" is always created; no created title becomes
      a key; the label cache is untouched. */
  lemma SyncMilestonesEffect(v: Variant, clock: Clock, server: Server, st: RunState,
                             openListing: seq<ListedMilestone>, closedListing: seq<ListedMilestone>,
                             tms: seq<TracMilestone>)
    requires SyncsMilestones(v)
    ensures var r := SyncMilestones(v, clock, server, st, openListing, closedListing, tms);
            var listed := ListedMilestones(openListing, closedListing);
            var created := ToCreate(listed.Keys, tms);
            && r.labels == st.labels
            && r.log == st.log + MilestoneCalls(clock, created)
            && (forall i :: 0 <= i < |closedListing| && LastOfTitle(closedListing, i) && closedListing[i].title != "name"
                  ==> closedListing[i].title in r.milestoneId
                      && r.milestoneId[closedListing[i].title] == closedListing[i].number)
            && (forall i :: (0 <= i < |openListing| && LastOfTitle(openListing, i)
                             && openListing[i].title !in Titles(closedListing) && openListing[i].title != "name")
                  ==> openListing[i].title in r.milestoneId
                      && r.milestoneId[openListing[i].title] == openListing[i].number)
            && (forall i :: (0 <= i < |tms| && Strip(tms[i].name) != "" && Strip(tms[i].name) !in listed
                             && Strip(tms[i].name) != "name")
                  ==> tms[i] in created && Strip(tms[i].name) !in r.milestoneId)
  {
    var listed := ListedMilestones(openListing, closedListing);
    var open := RecordListing(map[], openListing);
    RecordListingEffect(map[], openListing);
    RecordListingEffect(open, closedListing);
    CreateMissingMilestonesLog(clock, server, st.(milestoneId := listed), tms);
    CreateMissingMilestonesKeys(clock, server, st.(milestoneId := listed), tms);
    forall i | 0 <= i < |closedListing| ensures closedListing[i].title in Titles(closedListing) { }
    forall i | 0 <= i < |openListing| ensures openListing[i].title in Titles(openListing) { }
  }

  /** The key defect, on two Trac milestones whose names strip to the same
      title: both are created, because the first was recorded under "name". */
  lemma DuplicateTitleExample(clock: Clock, server: Server, st: RunState)
    requires "1.0" !in st.milestoneId
    ensures var rows := [TracMilestone("1.0", None, None, None), TracMilestone("1.0 ", None, None, None)];
            var r := CreateMissingMilestones(clock, server, st, rows);
            r.log == st.log + [CreateMilestone(MilestonePayload("1.0", Open, None, None)),
                               CreateMilestone(MilestonePayload("1.0", Open, None, None))]
  {
    var rows := [TracMilestone("1.0", None, None, None), TracMilestone("1.0 ", None, None, None)];
    var c := CreateMilestone(MilestonePayload("1.0", Open, None, None));
    StripUnique([], "1.0", []);
    StripUnique([], "1.0", " ");
    assert [] + "1.0" + [] == "1.0" && [] + "1.0" + " " == "1.0 ";
    var st1 := CreateMissingMilestone(clock, server, st, rows[0]);
    assert st1.log == st.log + [c];
    assert "1.0" !in st1.milestoneId;
    var st2 := CreateMissingMilestone(clock, server, st1, rows[1]);
    assert st2.log == st1.log + [c];
    assert rows[1..] == [rows[1]] && rows[1..][1..] == [];
    assert CreateMissingMilestones(clock, server, st, rows) == st2;
    ConcatAssoc(st.log, [c], [c]);
  }

  // ---------------------------------------------------------------- tickets

  /** The comment requests for an issue, in order. */
  function CommentCalls(n: int, bodies: seq<string>): (r: seq<Call>)
    ensures |r| == |bodies|
    ensures forall i :: 0 <= i < |r| ==> r[i] == CreateComment(n, bodies[i])
  {
    if bodies == [] then [] else CommentCalls(n, bodies[..|bodies| - 1]) + [CreateComment(n, bodies[|bodies| - 1])]
  }

  lemma CommentCallsSnoc(n: int, bodies: seq<string>, b: string)
    ensures CommentCalls(n, bodies + [b]) == CommentCalls(n, bodies) + [CreateComment(n, b)]
  {
    assert (bodies + [b])[..|bodies|] == bodies;
  }

  /** One more comment row adds its request, unless it is blank. */
  lemma CommentCallsStep(n: int, cs: seq<Comment>, i: nat)
    requires i < |cs|
    ensures CommentCalls(n, CommentBodies(cs[..i + 1]))
         == CommentCalls(n, CommentBodies(cs[..i])) + (if Blank(cs[i]) then [] else [CreateComment(n, CommentText(cs[i]))])
  {
    TakeOneMore(cs, i);
    CommentBodiesSnoc(cs[..i], cs[i]);
    var bodies := CommentBodies(cs[..i]);
    if Blank(cs[i]) {
      AppendNothing(bodies);
      AppendNothing(CommentCalls(n, bodies));
    } else {
      CommentCallsSnoc(n, bodies, CommentText(cs[i]));
    }
  }

  /** The labels ensured for a ticket: its normalised type, then its priority. */
  function EnsureTicketLabels(st: RunState, t: Ticket): RunState
  {
    EnsureLabel(EnsureLabel(st, NormalisedType(t.ticketType)), t.priority)
  }

  /** The label requests `EnsureTicketLabels` sends from a cache holding
      `labels`: the type's when it is missing, then the priority's when it
      is missing and differs from the type. */
  function LabelCalls(labels: set<Option<string>>, t: Ticket): seq<Call>
  {
    var ty := NormalisedType(t.ticketType);
    (if ty in labels then [] else [CreateLabel(ty)])
    + (if t.priority in labels || t.priority == ty then [] else [CreateLabel(t.priority)])
  }

  lemma EnsureTicketLabelsLog(st: RunState, t: Ticket)
    ensures var r := EnsureTicketLabels(st, t);
            && r.log == st.log + LabelCalls(st.labels, t)
            && r.labels == st.labels + {NormalisedType(t.ticketType), t.priority}
            && r.milestoneId == st.milestoneId
  {
  }

  /** Label requests name no ticket. */
  lemma LabelCallsIssueNothing(labels: set<Option<string>>, t: Ticket)
    ensures IssuedTitles(LabelCalls(labels, t)) == []
  {
    var c := LabelCalls(labels, t);
    assert forall i :: 0 <= i < |c| ==> c[i].CreateLabel?;
    NoIssueNoTitles(c);
  }

  /** The issue number GitHub answers to the creation of a ticket's issue. */
  function IssueNumber(v: Variant, clock: Clock, server: Server, st: RunState, t: Ticket): int
  {
    var st1 := EnsureTicketLabels(st, t);
    server(st1.log + [CreateIssue(BuildIssue(v, clock, t, st1.milestoneId))])
  }

  /** The requests that follow a ticket's labels: the issue, the comments
      on issue `n`, and the close request when `close` holds. */
  function IssueCalls(issue: IssuePayload, n: int, bodies: seq<string>, close: bool): seq<Call>
  {
    [CreateIssue(issue)] + (CommentCalls(n, bodies) + (if close then [CloseIssue(n)] else []))
  }

  /** One ticket: nothing when `--open` skips it; otherwise its labels, then
      its issue, then its comments, then the close request when it is closed. */
  function MigrateTicket(v: Variant, clock: Clock, server: Server, st: RunState, t: Ticket, comments: seq<Comment>): RunState
  {
    if Skipped(v, t) then st
    else
      var st1 := EnsureTicketLabels(st, t);
      var n := IssueNumber(v, clock, server, st, t);
      st1.(log := st1.log + IssueCalls(BuildIssue(v, clock, t, st1.milestoneId), n, CommentBodies(comments), ShouldClose(t)))
  }

  /** The ticket loop, in the order of the rows (ascending id). */
  function MigrateTickets(v: Variant, clock: Clock, server: Server, st: RunState,
                          tickets: seq<Ticket>, commentsOf: int -> seq<Comment>): RunState
    decreases |tickets|
  {
    if tickets == [] then st
    else MigrateTickets(v, clock, server, MigrateTicket(v, clock, server, st, tickets[0], commentsOf(tickets[0].id)),
                        tickets[1..], commentsOf)
  }
  lemma MigrateTicketsStep(v: Variant, clock: Clock, server: Server, st: RunState,
                           tickets: seq<Ticket>, commentsOf: int -> seq<Comment>)
    requires tickets != []
    ensures MigrateTickets(v, clock, server, st, tickets, commentsOf)
         == MigrateTickets(v, clock, server, MigrateTicket(v, clock, server, st, tickets[0], commentsOf(tickets[0].id)),
                           tickets[1..], commentsOf)
  {
  }


  /** The label requests of one ticket: exactly the ones for its type and
      priority that the cache lacked, each once. */
  lemma LabelCallsEffect(labels: set<Option<string>>, t: Ticket)
    ensures var c := LabelCalls(labels, t);
            var missing := {NormalisedType(t.ticketType), t.priority} - labels;
            && |c| == |missing|
            && (forall i :: 0 <= i < |c| ==> c[i].CreateLabel? && c[i].name in missing)
            && (forall i, j :: 0 <= i < j < |c| ==> c[i] != c[j])
  {
    var ty, pr := NormalisedType(t.ticketType), t.priority;
    if ty == pr {
      assert {ty, pr} == {ty};
    } else if ty in labels && pr in labels {
      assert {ty, pr} - labels == {};
    } else if ty in labels {
      assert {ty, pr} - labels == {pr};
    } else if pr in labels {
      assert {ty, pr} - labels == {ty};
    } else {
      assert {ty, pr} - labels == {ty, pr};
    }
  }

  /** The requests of one migrated ticket, in order: the missing labels,
      then its issue, then its kept comments in row order, then the close
      request exactly when its status is "closed"; the comments and the close
      request go to the number GitHub answered to the issue creation. */
  lemma TicketCallOrder(v: Variant, clock: Clock, server: Server, st: RunState, t: Ticket, comments: seq<Comment>)
    requires !Skipped(v, t)
    ensures RequestsInOrder(MigrateTicket(v, clock, server, st, t, comments).log, st.log,
                            |{NormalisedType(t.ticketType), t.priority} - st.labels|,
                            BuildIssue(v, clock, t, st.milestoneId), CommentBodies(comments), ShouldClose(t), server)
  {
    var labels := LabelCalls(st.labels, t);
    LabelCallsEffect(st.labels, t);
    EnsureTicketLabelsLog(st, t);
    RequestLayout(MigrateTicket(v, clock, server, st, t, comments).log, st.log, labels,
                  |{NormalisedType(t.ticketType), t.priority} - st.labels|,
                  BuildIssue(v, clock, t, st.milestoneId), CommentBodies(comments), ShouldClose(t), server);
  }

  /** `log` extends `before` with `k` label requests, then the issue
      request, then one comment request per body, in order, then the close
      request when `close` holds; the comments and the close request go to
      the number GitHub answered to the issue creation. */
  predicate RequestsInOrder(log: seq<Call>, before: seq<Call>, k: nat, issue: IssuePayload,
                            bodies: seq<string>, close: bool, server: Server)
  {
    var m := |before| + k + 1;
    && |log| == m + |bodies| + (if close then 1 else 0)
    && log[..|before|] == before
    && (forall i :: |before| <= i < m - 1 ==> log[i].CreateLabel?)
    && log[m - 1] == CreateIssue(issue)
    && (forall i :: m <= i < m + |bodies| ==> log[i] == CreateComment(server(log[..m]), bodies[i - m]))
    && (close ==> log[|log| - 1] == CloseIssue(server(log[..m])))
  }

  /** Where each request of a ticket lands in the log, for any label
      requests, issue, comment bodies and close flag. */
  lemma RequestLayout(log: seq<Call>, before: seq<Call>, labels: seq<Call>, k: nat, issue: IssuePayload,
                      bodies: seq<string>, close: bool, server: Server)
    requires forall i :: 0 <= i < |labels| ==> labels[i].CreateLabel?
    requires |labels| == k
    requires log == before + labels + IssueCalls(issue, server(before + labels + [CreateIssue(issue)]), bodies, close)
    ensures RequestsInOrder(log, before, k, issue, bodies, close, server)
  {
    var n := server(before + labels + [CreateIssue(issue)]);
    var calls := IssueCalls(issue, n, bodies, close);
    IssueCallsLayout(issue, n, bodies, close);
    ThreeParts(log, before, labels, calls);
    var m := |before| + k + 1;
    assert log[m - 1] == CreateIssue(issue);
    forall i | m <= i < m + |bodies|
      ensures log[i] == CreateComment(server(log[..m]), bodies[i - m])
    {
      assert log[i] == calls[i - (m - 1)];
    }
  }

  /** The layout of the requests after a ticket's labels. */
  lemma IssueCallsLayout(issue: IssuePayload, n: int, bodies: seq<string>, close: bool)
    ensures var c := IssueCalls(issue, n, bodies, close);
            && |c| == 1 + |bodies| + (if close then 1 else 0)
            && c[0] == CreateIssue(issue)
            && (forall i :: 1 <= i <= |bodies| ==> c[i] == CreateComment(n, bodies[i - 1]))
            && (close ==> c[|c| - 1] == CloseIssue(n))
  {
    var comm := CommentCalls(n, bodies);
    var closing := if close then [CloseIssue(n)] else [];
    ConcatParts(comm, closing);
    ConcatParts([CreateIssue(issue)], comm + closing);
  }

  /** A ticket that `--open` skips sends nothing and changes nothing; any
      other ticket sends at least its issue. */
  lemma SkippedTicketSendsNothing(v: Variant, clock: Clock, server: Server, st: RunState, t: Ticket, comments: seq<Comment>)
    ensures var r := MigrateTicket(v, clock, server, st, t, comments);
            (r == st <==> Skipped(v, t)) && (r.log == st.log <==> Skipped(v, t))
  {
    if !Skipped(v, t) {
      TicketCallOrder(v, clock, server, st, t, comments);
    }
  }

  /** No label is requested twice in a run, and none that was seeded from
      GitHub's listing: every requested name is cached, none is seeded, and
      no two label requests carry the same name. */
  ghost predicate LabelsCreatedOnce(st: RunState, seed: set<Option<string>>)
  {
    && seed <= st.labels
    && (forall i :: 0 <= i < |st.log| && st.log[i].CreateLabel? ==> st.log[i].name in st.labels && st.log[i].name !in seed)
    && (forall i, j :: 0 <= i < j < |st.log| && st.log[i].CreateLabel? && st.log[j].CreateLabel? ==> st.log[i].name != st.log[j].name)
  }

  lemma EnsureLabelKeepsCreatedOnce(st: RunState, seed: set<Option<string>>, name: Option<string>)
    requires LabelsCreatedOnce(st, seed)
    ensures LabelsCreatedOnce(EnsureLabel(st, name), seed)
  {
  }

  lemma AppendKeepsCreatedOnce(st: RunState, seed: set<Option<string>>, calls: seq<Call>)
    requires LabelsCreatedOnce(st, seed)
    requires forall i :: 0 <= i < |calls| ==> !calls[i].CreateLabel?
    ensures LabelsCreatedOnce(st.(log := st.log + calls), seed)
  {
    var log := st.log + calls;
    assert forall i :: |st.log| <= i < |log| ==> log[i] == calls[i - |st.log|];
  }

  /** The requests after a ticket's labels hold one issue request, for
      the given issue, and no label request. */
  lemma IssueCallsContent(issue: IssuePayload, n: int, bodies: seq<string>, close: bool)
    ensures var calls := IssueCalls(issue, n, bodies, close);
            && (forall i :: 0 <= i < |calls| ==> !calls[i].CreateLabel?)
            && IssuedTitles(calls) == [issue.title]
  {
    var calls := IssueCalls(issue, n, bodies, close);
    IssueCallsLayout(issue, n, bodies, close);
    forall i | 0 <= i < |calls|
      ensures !calls[i].CreateLabel?
    {
      if 1 <= i <= |bodies| {
        assert calls[i] == CreateComment(n, bodies[i - 1]);
      }
    }
    IssueCallsTitles(issue, n, bodies, close);
  }

  lemma IssueCallsTitles(issue: IssuePayload, n: int, bodies: seq<string>, close: bool)
    ensures IssuedTitles(IssueCalls(issue, n, bodies, close)) == [issue.title]
  {
    var tail := CommentCalls(n, bodies) + (if close then [CloseIssue(n)] else []);
    IssueCallsLayout(issue, n, bodies, close);
    assert forall i :: 0 <= i < |tail| ==> !tail[i].CreateIssue? by {
      forall i | 0 <= i < |tail|
        ensures !tail[i].CreateIssue?
      {
        assert tail[i] == IssueCalls(issue, n, bodies, close)[i + 1];
      }
    }
    NoIssueNoTitles(tail);
    IssuedTitlesAppend([CreateIssue(issue)], tail);
    assert IssuedTitles([CreateIssue(issue)]) == [issue.title] by {
      assert [CreateIssue(issue)][..0] == [];
      PrependNothing([issue.title]);
    }
    AppendNothing([issue.title]);
  }

  lemma MigrateTicketKeepsCreatedOnce(v: Variant, clock: Clock, server: Server, st: RunState, t: Ticket,
                                      comments: seq<Comment>, seed: set<Option<string>>)
    requires LabelsCreatedOnce(st, seed)
    ensures LabelsCreatedOnce(MigrateTicket(v, clock, server, st, t, comments), seed)
  {
    if !Skipped(v, t) {
      var st0 := EnsureLabel(st, NormalisedType(t.ticketType));
      EnsureLabelKeepsCreatedOnce(st, seed, NormalisedType(t.ticketType));
      EnsureLabelKeepsCreatedOnce(st0, seed, t.priority);
      var st1 := EnsureTicketLabels(st, t);
      var n := IssueNumber(v, clock, server, st, t);
      var issue := BuildIssue(v, clock, t, st1.milestoneId);
      IssueCallsContent(issue, n, CommentBodies(comments), ShouldClose(t));
      AppendKeepsCreatedOnce(st1, seed, IssueCalls(issue, n, CommentBodies(comments), ShouldClose(t)));
    }
  }

  lemma {:induction false} MigrateTicketsKeepCreatedOnce(v: Variant, clock: Clock, server: Server, st: RunState,
                                                        tickets: seq<Ticket>, commentsOf: int -> seq<Comment>,
                                                        seed: set<Option<string>>)
    requires LabelsCreatedOnce(st, seed)
    ensures LabelsCreatedOnce(MigrateTickets(v, clock, server, st, tickets, commentsOf), seed)
    decreases |tickets|
  {
    if tickets != [] {
      var t := tickets[0];
      MigrateTicketKeepsCreatedOnce(v, clock, server, st, t, commentsOf(t.id), seed);
      MigrateTicketsKeepCreatedOnce(v, clock, server, MigrateTicket(v, clock, server, st, t, commentsOf(t.id)),
                                    tickets[1..], commentsOf, seed);
    }
  }

  lemma MigrateTicketCachesLabels(v: Variant, clock: Clock, server: Server, st: RunState, t: Ticket, comments: seq<Comment>)
    ensures var r := MigrateTicket(v, clock, server, st, t, comments);
            && r.labels == (if Skipped(v, t) then st.labels else st.labels + {NormalisedType(t.ticketType), t.priority})
            && r.milestoneId == st.milestoneId
  {
    if !Skipped(v, t) {
      EnsureTicketLabelsLog(st, t);
    }
  }

  lemma {:induction false} MigrateTicketsCachesLabels(v: Variant, clock: Clock, server: Server, st: RunState,
                                                     tickets: seq<Ticket>, commentsOf: int -> seq<Comment>)
    ensures var r := MigrateTickets(v, clock, server, st, tickets, commentsOf);
            && st.labels <= r.labels
            && r.milestoneId == st.milestoneId
            && (forall i :: 0 <= i < |tickets| && !Skipped(v, tickets[i]) ==>
                  NormalisedType(tickets[i].ticketType) in r.labels && tickets[i].priority in r.labels)
    decreases |tickets|
  {
    if tickets != [] {
      var t := tickets[0];
      var st1 := MigrateTicket(v, clock, server, st, t, commentsOf(t.id));
      MigrateTicketCachesLabels(v, clock, server, st, t, commentsOf(t.id));
      MigrateTicketsCachesLabels(v, clock, server, st1, tickets[1..], commentsOf);
      var r := MigrateTickets(v, clock, server, st1, tickets[1..], commentsOf);
      assert MigrateTickets(v, clock, server, st, tickets, commentsOf) == r;
      forall i | 0 <= i < |tickets| && !Skipped(v, tickets[i])
        ensures NormalisedType(tickets[i].ticketType) in r.labels && tickets[i].priority in r.labels
      {
        if i > 0 {
          assert tickets[i] == tickets[1..][i - 1];
        }
      }
    }
  }

  /** Over the ticket loop the cache only grows, every migrated ticket's
      type and priority end up cached, the milestone map is untouched, and
      no label is requested twice or after it was seeded. */
  lemma MigrateTicketsLabelCache(v: Variant, clock: Clock, server: Server, st: RunState,
                                 tickets: seq<Ticket>, commentsOf: int -> seq<Comment>,
                                 seed: set<Option<string>>)
    requires LabelsCreatedOnce(st, seed)
    ensures var r := MigrateTickets(v, clock, server, st, tickets, commentsOf);
            && st.labels <= r.labels
            && r.milestoneId == st.milestoneId
            && (forall i :: 0 <= i < |tickets| && !Skipped(v, tickets[i]) ==>
                  NormalisedType(tickets[i].ticketType) in r.labels && tickets[i].priority in r.labels)
            && LabelsCreatedOnce(r, seed)
  {
    MigrateTicketsCachesLabels(v, clock, server, st, tickets, commentsOf);
    MigrateTicketsKeepCreatedOnce(v, clock, server, st, tickets, commentsOf, seed);
  }

  // ----------------------------------------------------- one issue per ticket

  /** The titles of the issue requests of a log, in order. */
  function IssuedTitles(calls: seq<Call>): seq<string>
  {
    if calls == [] then []
    else
      IssuedTitles(calls[..|calls| - 1])
      + (match calls[|calls| - 1] case CreateIssue(p) => [p.title] case _ => [])
  }

  lemma {:induction false} IssuedTitlesAppend(a: seq<Call>, b: seq<Call>)
    ensures IssuedTitles(a + b) == IssuedTitles(a) + IssuedTitles(b)
    decreases |b|
  {
    if b == [] {
      assert a + b == a;
    } else {
      assert (a + b)[..|a + b| - 1] == a + b[..|b| - 1];
      IssuedTitlesAppend(a, b[..|b| - 1]);
    }
  }

  lemma {:induction false} NoIssueNoTitles(calls: seq<Call>)
    requires forall i :: 0 <= i < |calls| ==> !calls[i].CreateIssue?
    ensures IssuedTitles(calls) == []
    decreases |calls|
  {
    if calls != [] {
      NoIssueNoTitles(calls[..|calls| - 1]);
    }
  }

  /** The titles of the tickets the loop migrates, in order. */
  function MigratedTitles(v: Variant, tickets: seq<Ticket>): seq<string>
    decreases |tickets|
  {
    if tickets == [] then []
    else (if Skipped(v, tickets[0]) then [] else [Title(v, tickets[0])]) + MigratedTitles(v, tickets[1..])
  }

  /** The ids of the tickets the loop migrates, in order. */
  function MigratedIds(v: Variant, tickets: seq<Ticket>): seq<Option<int>>
    decreases |tickets|
  {
    if tickets == [] then []
    else (if Skipped(v, tickets[0]) then [] else [Some(tickets[0].id)]) + MigratedIds(v, tickets[1..])
  }

  /** The ticket ids a sequence of titles names. */
  function TitleIds(titles: seq<string>): seq<Option<int>>
    decreases |titles|
  {
    if titles == [] then [] else [TicketIdOfTitle(titles[0])] + TitleIds(titles[1..])
  }

  lemma {:induction false} TitleIdsAppend(a: seq<string>, b: seq<string>)
    ensures TitleIds(a + b) == TitleIds(a) + TitleIds(b)
    decreases |a|
  {
    if a == [] {
      assert a + b == b;
    } else {
      assert (a + b)[1..] == a[1..] + b;
      TitleIdsAppend(a[1..], b);
    }
  }

  lemma TicketIssuesOnce(v: Variant, clock: Clock, server: Server, st: RunState, t: Ticket, comments: seq<Comment>)
    ensures IssuedTitles(MigrateTicket(v, clock, server, st, t, comments).log)
         == IssuedTitles(st.log) + (if Skipped(v, t) then [] else [Title(v, t)])
  {
    if !Skipped(v, t) {
      var st1 := EnsureTicketLabels(st, t);
      EnsureTicketLabelsLog(st, t);
      var labelCalls := LabelCalls(st.labels, t);
      var issue := BuildIssue(v, clock, t, st1.milestoneId);
      var n := IssueNumber(v, clock, server, st, t);
      var calls := IssueCalls(issue, n, CommentBodies(comments), ShouldClose(t));
      IssueCallsContent(issue, n, CommentBodies(comments), ShouldClose(t));
      LabelCallsIssueNothing(st.labels, t);
      IssuedTitlesAppend(st.log, labelCalls);
      AppendNothing(IssuedTitles(st.log));
      assert IssuedTitles(st1.log) == IssuedTitles(st.log);
      IssuedTitlesAppend(st1.log, calls);
      assert MigrateTicket(v, clock, server, st, t, comments).log == st1.log + calls;
    }
  }

  /** The ticket loop sends one issue request per migrated ticket, in
      ticket order, with that ticket's title; a skipped ticket gets none. */
  lemma {:induction false} TicketsIssuedInOrder(v: Variant, clock: Clock, server: Server, st: RunState,
                                                tickets: seq<Ticket>, commentsOf: int -> seq<Comment>)
    ensures IssuedTitles(MigrateTickets(v, clock, server, st, tickets, commentsOf).log)
         == IssuedTitles(st.log) + MigratedTitles(v, tickets)
    decreases |tickets|
  {
    if tickets != [] {
      var t := tickets[0];
      var st1 := MigrateTicket(v, clock, server, st, t, commentsOf(t.id));
      TicketIssuesOnce(v, clock, server, st, t, commentsOf(t.id));
      TicketsIssuedInOrder(v, clock, server, st1, tickets[1..], commentsOf);
      var x := if Skipped(v, t) then [] else [Title(v, t)];
      var rest := MigratedTitles(v, tickets[1..]);
      assert MigratedTitles(v, tickets) == x + rest;
      ConcatAssoc(IssuedTitles(st.log), x, rest);
    } else {
      assert IssuedTitles(st.log) + [] == IssuedTitles(st.log);
    }
  }

  /** The migrated titles name the migrated tickets, in order. */
  lemma {:induction false} MigratedTitlesNameTickets(v: Variant, tickets: seq<Ticket>)
    ensures TitleIds(MigratedTitles(v, tickets)) == MigratedIds(v, tickets)
    decreases |tickets|
  {
    if tickets != [] {
      var t := tickets[0];
      MigratedTitlesNameTickets(v, tickets[1..]);
      var x := if Skipped(v, t) then [] else [Title(v, t)];
      TitleIdsAppend(x, MigratedTitles(v, tickets[1..]));
      if !Skipped(v, t) {
        TitleNamesTicket(v, t);
        assert TitleIds(x) == [Some(t.id)] by {
          assert x[1..] == [];
        }
      }
    }
  }

  /** Every migrated ticket gets exactly one issue, in ticket order, and
      reading the ticket ids back from the issue titles the loop sends
      gives the ids of the migrated tickets. */
  lemma TicketIdsIssuedInOrder(v: Variant, clock: Clock, server: Server, st: RunState,
                               tickets: seq<Ticket>, commentsOf: int -> seq<Comment>)
    ensures TitleIds(IssuedTitles(MigrateTickets(v, clock, server, st, tickets, commentsOf).log))
         == TitleIds(IssuedTitles(st.log)) + MigratedIds(v, tickets)
  {
    TicketsIssuedInOrder(v, clock, server, st, tickets, commentsOf);
    TitleIdsAppend(IssuedTitles(st.log), MigratedTitles(v, tickets));
    MigratedTitlesNameTickets(v, tickets);
  }

  // ------------------------------------------------------------- whole run

  /** The milestone requests are all milestone creations. */
  lemma {:induction false} MilestoneCallsOnlyMilestones(clock: Clock, rows: seq<TracMilestone>)
    ensures var c := MilestoneCalls(clock, rows);
            |c| == |rows| && forall i :: 0 <= i < |c| ==> c[i] == CreateMilestone(MilestoneFor(clock, rows[i]))
    decreases |rows|
  {
    if rows != [] {
      MilestoneCallsOnlyMilestones(clock, rows[1..]);
      var c := MilestoneCalls(clock, rows);
      forall i | 1 <= i < |c| ensures c[i] == CreateMilestone(MilestoneFor(clock, rows[i])) {
        assert rows[i] == rows[1..][i - 1];
      }
    }
  }

  /** `'/' in github_repo`: any repository argument holding a slash is
      accepted, however many slashes it holds and wherever they are. */
  predicate RepoAccepted(repo: string)
  {
    '/' in repo
  }

  /** The exit status of a rejected repository argument: `sys.exit(1)` in
      migrate.py, `parser.error` (status 2) in trac-tickets-to-gh.py. */
  function RejectStatus(v: Variant): int
  {
    if v.Migrate? then 1 else 2
  }

  datatype Outcome = Outcome(exitCode: int, log: seq<Call>)

  /** The state a run ends in: labels seeded from the listing, then the
      milestone stage, then the ticket loop. */
  function FinalState(v: Variant, clock: Clock, server: Server, labelListing: seq<string>,
                      openListing: seq<ListedMilestone>, closedListing: seq<ListedMilestone>,
                      tms: seq<TracMilestone>, tickets: seq<Ticket>, commentsOf: int -> seq<Comment>): RunState
  {
    var seeded := RunState(ListedLabels(labelListing), map[], []);
    MigrateTickets(v, clock, server, SyncMilestones(v, clock, server, seeded, openListing, closedListing, tms),
                   tickets, commentsOf)
  }

  /** A whole run: a repository argument without a slash stops it before
      any request; so does a missing database file, with status 1 (migrate.py
      checks for the file; trac-tickets-to-gh.py lets SQLite create an empty
      one and its first query raises); otherwise it ends with status 0 and
      the requests of `FinalState`. */
  function RunOutcome(v: Variant, clock: Clock, server: Server, repo: string, dbExists: bool,
                      labelListing: seq<string>, openListing: seq<ListedMilestone>,
                      closedListing: seq<ListedMilestone>, tms: seq<TracMilestone>,
                      tickets: seq<Ticket>, commentsOf: int -> seq<Comment>): Outcome
  {
    if !RepoAccepted(repo) then Outcome(RejectStatus(v), [])
    else if !dbExists then Outcome(1, [])
    else Outcome(0, FinalState(v, clock, server, labelListing, openListing, closedListing, tms, tickets, commentsOf).log)
  }

  /** The repository check: a run sends requests only when the argument
      holds a slash; without one it exits with the script's usage status. */
  lemma RepoCheck(v: Variant, clock: Clock, server: Server, repo: string, dbExists: bool,
                  labelListing: seq<string>, openListing: seq<ListedMilestone>,
                  closedListing: seq<ListedMilestone>, tms: seq<TracMilestone>,
                  tickets: seq<Ticket>, commentsOf: int -> seq<Comment>)
    ensures var o := RunOutcome(v, clock, server, repo, dbExists, labelListing, openListing, closedListing, tms, tickets, commentsOf);
            && (!RepoAccepted(repo) ==> o == Outcome(if v.Migrate? then 1 else 2, []))
            && (o.exitCode == 0 <==> RepoAccepted(repo) && dbExists)
            && (o.exitCode != 0 ==> o.log == [])
  {
  }

  /** Every `owner/name` form is accepted, including names that hold
      further slashes; an argument with no slash never is. */
  lemma OwnerSlashNameAccepted(owner: string, name: string)
    ensures RepoAccepted(owner + "/" + name)
    ensures forall s: string :: (forall i :: 0 <= i < |s| ==> s[i] != '/') ==> !RepoAccepted(s)
  {
    assert (owner + "/" + name)[|owner|] == '/';
  }

  /** No label is requested twice in a run, and none GitHub already listed. */
  lemma RunCreatesLabelsOnce(v: Variant, clock: Clock, server: Server, labelListing: seq<string>,
                             openListing: seq<ListedMilestone>, closedListing: seq<ListedMilestone>,
                             tms: seq<TracMilestone>, tickets: seq<Ticket>, commentsOf: int -> seq<Comment>)
    ensures LabelsCreatedOnce(FinalState(v, clock, server, labelListing, openListing, closedListing, tms, tickets, commentsOf),
                              ListedLabels(labelListing))
  {
    var seed := ListedLabels(labelListing);
    var seeded := RunState(seed, map[], []);
    var synced := SyncMilestones(v, clock, server, seeded, openListing, closedListing, tms);
    SyncLogOnlyMilestones(v, clock, server, seeded, openListing, closedListing, tms);
    MigrateTicketsLabelCache(v, clock, server, synced, tickets, commentsOf, seed);
  }

  /** The milestone stage leaves the labels alone and sends only milestone
      creations. */
  lemma SyncLogOnlyMilestones(v: Variant, clock: Clock, server: Server, st: RunState,
                              openListing: seq<ListedMilestone>, closedListing: seq<ListedMilestone>,
                              tms: seq<TracMilestone>)
    ensures var r := SyncMilestones(v, clock, server, st, openListing, closedListing, tms);
            && r.labels == st.labels
            && |st.log| <= |r.log|
            && r.log[..|st.log|] == st.log
            && (forall i :: |st.log| <= i < |r.log| ==> r.log[i].CreateMilestone?)
  {
    if SyncsMilestones(v) {
      var listed := ListedMilestones(openListing, closedListing);
      var created := ToCreate(listed.Keys, tms);
      CreateMissingMilestonesLog(clock, server, st.(milestoneId := listed), tms);
      MilestoneCallsOnlyMilestones(clock, created);
      ConcatParts(st.log, MilestoneCalls(clock, created));
    }
  }

  /** A run sends one issue request per migrated ticket, in ticket order,
      and the ticket ids read back from the issue titles are exactly the ids
      of the tickets `--open` did not skip. */
  lemma RunIssuesTickets(v: Variant, clock: Clock, server: Server, labelListing: seq<string>,
                         openListing: seq<ListedMilestone>, closedListing: seq<ListedMilestone>,
                         tms: seq<TracMilestone>, tickets: seq<Ticket>, commentsOf: int -> seq<Comment>)
    ensures var r := FinalState(v, clock, server, labelListing, openListing, closedListing, tms, tickets, commentsOf);
            && IssuedTitles(r.log) == MigratedTitles(v, tickets)
            && TitleIds(IssuedTitles(r.log)) == MigratedIds(v, tickets)
  {
    var seeded := RunState(ListedLabels(labelListing), map[], []);
    var synced := SyncMilestones(v, clock, server, seeded, openListing, closedListing, tms);
    SyncLogOnlyMilestones(v, clock, server, seeded, openListing, closedListing, tms);
    NoIssueNoTitles(synced.log);
    TicketsIssuedInOrder(v, clock, server, synced, tickets, commentsOf);
    TicketIdsIssuedInOrder(v, clock, server, synced, tickets, commentsOf);
    assert TitleIds([]) == [];
  }
}
