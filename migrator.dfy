/** The migration as the scripts run it: one object holding the label cache
    `gh_labels`, the milestone map `milestone_id` and the requests sent so
    far, updated in place by loops over the listings and the Trac rows.
    Each method is proved to end in the state the `Bookkeeping` function of
    the same step computes from the state it started in. */
module Migrator {
  import opened Seqs
  import opened Text
  import opened GitHub
  import opened Transform
  import opened Bookkeeping

  class Migration {
    const variant: Variant
    const clock: Clock
    const server: Server
    /** The keys of `gh_labels`. */
    var ghLabels: set<Option<string>>
    var milestoneId: map<string, int>
    /** The requests sent to GitHub so far, oldest first. */
    var log: seq<Call>

    function State(): RunState
      reads this
    {
      RunState(ghLabels, milestoneId, log)
    }

    /** `gh_labels = {}` then `gh_labels[label['name']] = True` for every
        label GitHub lists; nothing has been sent yet. */
    constructor (variant: Variant, clock: Clock, server: Server, labelListing: seq<string>)
      ensures this.variant == variant && this.clock == clock && this.server == server
      ensures State() == RunState(ListedLabels(labelListing), map[], [])
    {
      var labels: set<Option<string>> := {};
      var i := 0;
      while i < |labelListing|
        invariant 0 <= i <= |labelListing|
        invariant labels == ListedLabels(labelListing[..i])
      {
        assert labelListing[..i + 1] == labelListing[..i] + [labelListing[i]];
        labels := labels + {Some(labelListing[i])};
        i := i + 1;
      }
      assert labelListing[..i] == labelListing;
      this.variant := variant;
      this.clock := clock;
      this.server := server;
      ghLabels := labels;
      milestoneId := map[];
      log := [];
    }

    /** `if name not in gh_labels`: request the label and cache it. */
    method EnsureLabel(name: Option<string>)
      modifies this
      ensures State() == Bookkeeping.EnsureLabel(old(State()), name)
    {
      if name !in ghLabels {
        log := log + [CreateLabel(name)];
        ghLabels := ghLabels + {name};
      }
    }

    /** `for m in listing: milestone_id[m['title']] = m['number']`. */
    method RecordListing(listing: seq<ListedMilestone>)
      modifies this
      ensures State() == old(State()).(milestoneId := Bookkeeping.RecordListing(old(milestoneId), listing))
    {
      var i := 0;
      while i < |listing|
        invariant 0 <= i <= |listing|
        invariant State() == old(State()).(milestoneId := Bookkeeping.RecordListing(old(milestoneId), listing[..i]))
      {
        assert listing[..i + 1][..i] == listing[..i];
        milestoneId := milestoneId[listing[i].title := listing[i].number];
        i := i + 1;
      }
      assert listing[..i] == listing;
    }

    /** One Trac milestone row: requested when its stripped name is
        non-empty and not a key, the answer stored under "name". */
    method CreateMissingMilestone(tm: TracMilestone)
      modifies this
      ensures State() == Bookkeeping.CreateMissingMilestone(clock, server, old(State()), tm)
    {
      var name := Strip(tm.name);
      if name != "" && name !in milestoneId {
        log := log + [CreateMilestone(MilestoneFor(clock, tm))];
        var number := server(log);
        milestoneId := milestoneId["name" := number];
      }
    }

    /** The milestone stage: when milestones are migrated, the map is
        rebuilt from the open, then the closed listing, and every Trac
        milestone row is handled in turn. */
    method SyncMilestones(openListing: seq<ListedMilestone>, closedListing: seq<ListedMilestone>,
                          tms: seq<TracMilestone>)
      modifies this
      ensures State() == Bookkeeping.SyncMilestones(variant, clock, server, old(State()), openListing, closedListing, tms)
    {
      if SyncsMilestones(variant) {
        milestoneId := map[];
        RecordListing(openListing);
        RecordListing(closedListing);
        var i := 0;
        while i < |tms|
          invariant 0 <= i <= |tms|
          invariant CreateMissingMilestones(clock, server, State(), tms[i..])
                 == Bookkeeping.SyncMilestones(variant, clock, server, old(State()), openListing, closedListing, tms)
        {
          assert tms[i..][1..] == tms[i + 1..];
          CreateMissingMilestone(tms[i]);
          i := i + 1;
        }
      }
    }

    /** One comment row: `body.strip()`, and when that is non-empty the
        comment is posted to issue `number`, prefixed with its author. */
    method PostComment(number: int, c: Comment)
      modifies this
      ensures State() == old(State()).(log := old(log) + if Blank(c) then [] else [CreateComment(number, CommentText(c))])
    {
      if !Blank(c) {
        log := log + [CreateComment(number, CommentText(c))];
      }
    }

    /** The comment rows of one ticket: every non-blank one is posted to
        issue `number`, in row order. */
    method PostComments(number: int, comments: seq<Comment>)
      modifies this
      ensures State() == old(State()).(log := old(log) + CommentCalls(number, CommentBodies(comments)))
    {
      var i := 0;
      while i < |comments|
        invariant 0 <= i <= |comments|
        invariant ghLabels == old(ghLabels) && milestoneId == old(milestoneId)
        invariant log == old(log) + CommentCalls(number, CommentBodies(comments[..i]))
      {
        CommentCallsStep(number, comments, i);
        ConcatAssoc(old(log), CommentCalls(number, CommentBodies(comments[..i])),
                    if Blank(comments[i]) then [] else [CreateComment(number, CommentText(comments[i]))]);
        PostComment(number, comments[i]);
        i := i + 1;
      }
      TakeAll(comments);
    }

    /** One ticket row: skipped under `--open` when closed; otherwise its
        type and priority labels, its issue, its comments, and the close
        request when its status is "closed". */
    method MigrateTicket(t: Ticket, comments: seq<Comment>)
      modifies this
      ensures State() == Bookkeeping.MigrateTicket(variant, clock, server, old(State()), t, comments)
    {
      if Skipped(variant, t) {
        return;
      }
      EnsureLabel(NormalisedType(t.ticketType));
      EnsureLabel(t.priority);
      var issue := BuildIssue(variant, clock, t, milestoneId);
      log := log + [CreateIssue(issue)];
      var number := server(log);
      ghost var labelled := log;
      PostComments(number, comments);
      if ShouldClose(t) {
        log := log + [CloseIssue(number)];
      }
      ghost var close := if ShouldClose(t) then [CloseIssue(number)] else [];
      assert log == labelled + CommentCalls(number, CommentBodies(comments)) + close;
      ConcatAssoc(labelled[..|labelled| - 1], [CreateIssue(issue)], CommentCalls(number, CommentBodies(comments)) + close);
      ConcatAssoc(labelled, CommentCalls(number, CommentBodies(comments)), close);
      assert labelled == labelled[..|labelled| - 1] + [CreateIssue(issue)];
    }

    /** The ticket loop, in row order; the comments of ticket `id` are
        `commentsOf(id)`. */
    method MigrateTickets(tickets: seq<Ticket>, commentsOf: int -> seq<Comment>)
      modifies this
      ensures State() == Bookkeeping.MigrateTickets(variant, clock, server, old(State()), tickets, commentsOf)
    {
      var i := 0;
      while i < |tickets|
        invariant 0 <= i <= |tickets|
        invariant Bookkeeping.MigrateTickets(variant, clock, server, State(), tickets[i..], commentsOf)
               == Bookkeeping.MigrateTickets(variant, clock, server, old(State()), tickets, commentsOf)
      {
        MigrateTicketsStep(variant, clock, server, State(), tickets[i..], commentsOf);
        assert tickets[i..][1..] == tickets[i + 1..];
        MigrateTicket(tickets[i], commentsOf(tickets[i].id));
        i := i + 1;
      }
    }
  }

  /** A whole run of either script: the repository check, the database
      file check, then the label listing, the milestone stage and the ticket
      loop. `dbExists` stands for `os.path.exists(trac_db_path)` in
      migrate.py; in trac-tickets-to-gh.py a missing file makes the first
      query raise before any request, which ends the run the same way. */
  method Run(variant: Variant, clock: Clock, server: Server, repo: string, dbExists: bool,
             labelListing: seq<string>, openListing: seq<ListedMilestone>,
             closedListing: seq<ListedMilestone>, tms: seq<TracMilestone>,
             tickets: seq<Ticket>, commentsOf: int -> seq<Comment>)
    returns (exitCode: int, log: seq<Call>)
    ensures Outcome(exitCode, log)
         == RunOutcome(variant, clock, server, repo, dbExists, labelListing, openListing, closedListing, tms, tickets, commentsOf)
  {
    if '/' !in repo {
      return RejectStatus(variant), [];
    }
    if !dbExists {
      return 1, [];
    }
    var m := new Migration(variant, clock, server, labelListing);
    m.SyncMilestones(openListing, closedListing, tms);
    m.MigrateTickets(tickets, commentsOf);
    return 0, m.log;
  }
}
