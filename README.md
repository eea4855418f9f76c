# Trac to GitHub ticket migration, modelled in Dafny

The repository holds two near-identical Python 2 scripts that copy the
tickets of one Trac component, with their milestones and comments, into a
GitHub repository through the GitHub v3 API:

- `migrate.py` takes the Trac URL, the component, and the options
  `--milestones`, `--open` and `--component-name`;
- `trac-tickets-to-gh.py` is the ros-pkg script, whose only option is
  `-q/--quiet` and which always migrates milestones.

A run checks the repository argument. It then seeds a label cache
(`gh_labels`) from GitHub's label listing and builds the milestone map
(`milestone_id`) from GitHub's open and closed milestone listings. It creates
the Trac milestones that are missing, and finally walks the ticket rows in
id order. For each ticket it:

1. creates the missing type and priority labels;
2. creates the issue;
3. posts the non-blank comments;
4. closes the issue when the ticket is closed.

The model keeps this in the scripts' own terms. Both scripts are one model
with a `Variant` flag:
`Migrate(tracUrl, tracComponent, milestones, onlyOpen, componentName)` is
`migrate.py` and `RosPkg` is `trac-tickets-to-gh.py`. Every request a run sends
to GitHub is an entry of a call log (`GitHub.Call`). The number GitHub
answers to a creation is given by a `Server` function of the log sent so far.

Modules, one per file:

- `seqs.dfy` (`Seqs`): facts about concatenation and slicing, generic in the
  element type.
- `text.dfy` (`Text`): Python values as the scripts see them. This covers
  NULL columns (`Option`), truthiness, `unicode.strip()` with Python 2's
  white space, and `"%d"` formatting with its read-back.
- `github.dfy` (`GitHub`): the milestone and issue payloads and the requests
  (`Call`).
- `transform.dfy` (`Transform`): what one ticket row becomes. It builds the
  title, the `defect`→`bug` label rule and the label list, the body and its
  "trac data:" block, the issue milestone and the comment texts. It also
  decides when a ticket is skipped or closed.
- `bookkeeping.dfy` (`Bookkeeping`): the state of a run (label cache,
  milestone map, request log) and each step of the run as a function of the
  state before it. These functions are the specification of the class below.
  The lemmas about whole runs are here too.
- `migrator.dfy` (`Migrator`): the class `Migration`. Its fields `ghLabels`,
  `milestoneId` and `log` are updated in place by looping methods, as the
  scripts' top-level loops do. Each method is proved to end in the state the
  matching `Bookkeeping` function gives. `Run` is a whole invocation.

The model follows the code as written; points a reader might not expect:

- A created milestone's number is stored under the literal key `'name'`, not
  under its title. This is modelled as written, and `DuplicateTitleExample`
  and `SyncMilestonesEffect` show what follows from it.
- There is no guard against an empty or `None` label name. Such a name is
  requested once, like any other.
- The repository argument is accepted as soon as it holds a `/`, however many
  slashes there are.
- A description or milestone that is only white space counts as absent, since
  the value is stripped before the truth test.
- `completed` and `due` go through Python's truth test, so a value of 0 counts as
  absent.

## Model

| member | source | states |
|---|---|---|
| Text.Strip | migrate.py:120 | `s.strip()`, defined as trimming white space from both ends; `StripEnds`, `StripUnique` and `StripIdempotent` state what it returns |
| Text.StripEnds | migrate.py:169-172 | `s.strip()` is empty exactly when `s` is all white space; otherwise it begins and ends with a non-space character and is no longer than `s` |
| Text.StripUnique | migrate.py:198-200 | stripping white space around a core that starts and ends with a non-space character gives exactly that core |
| Text.StripIdempotent | migrate.py:120 | stripping a stripped name changes nothing |
| Text.NatToString | migrate.py:150 | `"%d"` of a non-negative number is a non-empty run of decimal digits without a leading zero |
| Text.IntToString | migrate.py:150 | `"%d"` of any integer is non-empty, starts with `-` exactly when the number is negative, and is otherwise decimal digits, as is everything after the sign |
| Text.ParseNatToString | migrate.py:150 | reading back the digits `"%d"` prints gives the number again |
| Transform.Title | migrate.py:147-150 | the issue title, defined as the optional component prefix, the summary and the ticket marker with the id; `TitleShape`, `TitleNamesTicket` and `TitleIgnoresRowComponent` state its shape and that it names the ticket |
| Transform.TitleShape | migrate.py:147-150 | the title starts with the optional `"<component>: "` prefix and the summary, unchanged, and ends with `)` |
| Transform.TitleNamesTicket | migrate.py:150 | the ticket id can be read back from the end of every issue title, for either script's marker and any summary, negative ids included |
| Transform.TitleIgnoresRowComponent | migrate.py:147-148 | the title prefix is the command-line component: rows differing only in their `component` column get the same title |
| Transform.NormalisedType | migrate.py:152-153 | exactly `"defect"` becomes `"bug"`, every other type (None and "" included) is kept; the result is `"bug"` iff the type was `"defect"` or `"bug"` |
| Transform.IssueLabels | migrate.py:151-157 | the labels are the normalised type if truthy, then the priority if truthy, in that order, not deduplicated; none is empty; `"defect"` appears only as a priority |
| Transform.Body | migrate.py:169-186 | a body is present iff the description is not NULL and not all white space |
| Transform.BodyLines | migrate.py:175-186 | line by line, the body is the stripped description, an empty line, `trac data:`, then the Owner, Reporter, Reported-at and URL bullets, with nothing after the URL line |
| Transform.IssueMilestone | migrate.py:187-190 | the milestone is attached iff milestones are migrated, the stripped milestone is non-empty, and the map holds a non-zero number for it; that number is the one attached |
| Transform.BuildIssue | migrate.py:173-190 | the issue request, defined as the title, labels, body and milestone; `TitleShape`, `IssueLabels`, `Body`, `BodyLines` and `IssueMilestone` state each part, `CrashOnSaveExample` a whole one |
| Transform.CommentText | migrate.py:199-203 | a kept comment's text is never empty and ends with the stripped body; it is `"[<author>] "` followed by that body when the author is truthy, and the stripped body alone otherwise |
| Transform.CommentBodies | migrate.py:197-205 | the posted bodies are at most as many as the rows, none is empty, and there are none exactly when every row is blank |
| Transform.CommentBodiesAllKept | migrate.py:198-205 | when no row is blank every row is posted, in row order, as its own text |
| Transform.CommentBodiesAppend | migrate.py:198-205 | rows are handled one by one: the bodies of two runs of rows are the first run's, then the second's |
| Transform.CrashOnSaveExample | migrate.py:141-195 | ticket 42 "Crash on save", a blocker defect with an empty description, becomes the issue "Crash on save  (ticket #42)" with labels `bug`, `blocker`, no body and no milestone, and is not closed |
| Bookkeeping.EnsureLabel | migrate.py:159-166 | one `if label not in gh_labels` step, defined on the run state; `EnsureTicketLabelsLog` and `LabelCallsEffect` state which requests it sends and what it caches |
| Bookkeeping.MilestoneFor | migrate.py:120-133 | the milestone request has the stripped name as title and the Trac description; it is closed iff `completed` is truthy and has `due_on` iff `due` is truthy |
| Bookkeeping.RecordListing | migrate.py:107-112 | the listing loop over the milestone map, defined as a fold; `RecordListingEffect` states the map it leaves |
| Bookkeeping.RecordListingEffect | migrate.py:107-112 | recording a listing adds every listed title as a key, mapped to the number of its last entry, and leaves other keys alone |
| Bookkeeping.CreateMissingMilestone | migrate.py:119-136 | one pass of the Trac milestone loop, defined on the run state; `ToCreate`, `CreateMissingMilestonesLog` and `CreateMissingMilestonesKeys` state what the loop sends and which keys it changes |
| Bookkeeping.SyncMilestones | migrate.py:99-136 | the whole milestone stage, defined on the run state; `SyncMilestonesEffect`, `SyncLogOnlyMilestones` and `DuplicateTitleExample` state what it leaves and sends |
| Bookkeeping.ToCreate | migrate.py:119-122 | only rows whose stripped name is non-empty and not a key are created; every such row whose name is not "name" is created |
| Bookkeeping.CreateMissingMilestonesLog | migrate.py:119-135 | the milestone loop sends one creation per row `ToCreate` picks, in row order, and leaves the label cache alone |
| Bookkeeping.CreateMissingMilestonesKeys | migrate.py:136 | the milestone loop changes no key except "name", which exists afterwards iff it did before or something was created |
| Bookkeeping.SyncMilestonesEffect | migrate.py:99-136 | the closed listing overrides the open one; a Trac milestone with a non-empty stripped name that is neither listed nor "name" is created and its title never becomes a key; labels are untouched |
| Bookkeeping.DuplicateTitleExample | migrate.py:119-136 | two Trac milestones named "1.0" and "1.0 " are both created, because the first was recorded under "name" |
| Bookkeeping.SyncLogOnlyMilestones | migrate.py:99-136 | the milestone stage keeps the labels and the earlier log, and appends only milestone creations |
| Bookkeeping.MilestoneCallsOnlyMilestones | migrate.py:135 | the milestone requests are one creation per picked row, in order |
| Bookkeeping.EnsureTicketLabelsLog | migrate.py:159-166 | ensuring a ticket's labels appends exactly its label requests, adds the type and priority to the cache, and keeps the milestone map |
| Bookkeeping.LabelCallsEffect | migrate.py:159-166 | one label request per name in {type, priority} that is not yet cached, each for such a name, no two the same (one request when type equals priority) |
| Bookkeeping.CommentCalls | migrate.py:205 | one comment request per body, in order, addressed to the issue's number |
| Bookkeeping.MigrateTicket | migrate.py:141-211 | one pass of the ticket loop, defined on the run state; `TicketCallOrder`, `SkippedTicketSendsNothing`, `IssueCallsContent`, `TicketIssuesOnce` and `MigrateTicketCachesLabels` state its requests and its cache update |
| Bookkeeping.MigrateTickets | migrate.py:140-211 | the ticket loop, defined as a fold over the rows; `MigrateTicketsLabelCache`, `TicketsIssuedInOrder` and `TicketIdsIssuedInOrder` state what it caches and sends |
| Bookkeeping.TicketCallOrder | migrate.py:159-211 | a migrated ticket appends its label requests, then its issue, then its comments in row order, then the close request iff its status is "closed"; comments and close go to the number answered to the issue creation |
| Bookkeeping.SkippedTicketSendsNothing | migrate.py:143-144 | a ticket changes nothing and sends nothing, not even labels, exactly when `--open` skips it |
| Bookkeeping.IssueCallsContent | migrate.py:195-211 | after the labels, a ticket's requests hold no label request and exactly one issue request, with the ticket's title |
| Bookkeeping.MigrateTicketCachesLabels | migrate.py:159-166 | after a migrated ticket both its type and its priority are cached; a skipped one adds nothing; the milestone map is untouched |
| Bookkeeping.MigrateTicketsLabelCache | migrate.py:159-166 | over the ticket loop the cache only grows, every migrated ticket's type and priority end up cached, and no label is requested twice or after it was listed |
| Bookkeeping.TicketIssuesOnce | migrate.py:195 | a ticket adds one issue request with its title, or none when skipped |
| Bookkeeping.TicketsIssuedInOrder | migrate.py:140-195 | the ticket loop sends one issue request per migrated ticket, in ticket order, with that ticket's title |
| Bookkeeping.MigratedTitlesNameTickets | migrate.py:150 | the ticket ids read back from the migrated titles are the migrated tickets' ids, in order |
| Bookkeeping.TicketIdsIssuedInOrder | migrate.py:140-195 | reading ids back from the issue titles the loop sends gives the ids of the tickets not skipped, in order |
| Bookkeeping.RunOutcome | migrate.py:60-72 | a whole run's exit status and requests, defined from the argument and database checks and `FinalState`; `RepoCheck`, `RunCreatesLabelsOnce` and `RunIssuesTickets` state its properties |
| Bookkeeping.RepoCheck | migrate.py:67-72 | without a `/` in the repository argument a run sends nothing and exits with 1 (2 in the ros-pkg script, whose option parser rejects it at trac-tickets-to-gh.py:52-53); it exits with 0 iff the argument holds a `/` and the database file exists (in the ros-pkg script SQLite creates a missing file empty and the first query, trac-tickets-to-gh.py:67, raises); every non-zero exit sends nothing |
| Bookkeeping.OwnerSlashNameAccepted | trac-tickets-to-gh.py:53-54 | every `owner/name`, further slashes included, is accepted; an argument without a slash never is |
| Bookkeeping.RunCreatesLabelsOnce | migrate.py:94-166 | in a whole run no label is requested twice, and none that GitHub listed |
| Bookkeeping.RunIssuesTickets | migrate.py:99-211 | a whole run sends one issue per ticket not skipped, in ticket order, and the ids read back from their titles are exactly those tickets' ids |
| Migrator.Migration.constructor | migrate.py:94-96 | the cache starts as the set of listed label names, with an empty map and nothing sent |
| Migrator.Migration.EnsureLabel | migrate.py:159-166 | a label is requested and cached exactly when it is not cached yet |
| Migrator.Migration.RecordListing | migrate.py:107-112 | the listing loop leaves the map `RecordListing` gives and changes nothing else |
| Migrator.Migration.CreateMissingMilestone | migrate.py:119-136 | one Trac milestone row is created when its stripped name is non-empty and not a key, its number stored under "name" |
| Migrator.Migration.SyncMilestones | migrate.py:99-136 | the milestone stage ends in the state `SyncMilestones` gives: nothing without `--milestones`, else the map rebuilt open then closed and the missing milestones created |
| Migrator.Migration.PostComment | migrate.py:198-205 | a comment row is posted to the issue, prefixed with its truthy author, exactly when its stripped body is non-empty |
| Migrator.Migration.PostComments | migrate.py:197-205 | the comment loop appends the requests for the kept bodies, in row order, and touches neither the cache nor the map |
| Migrator.Migration.MigrateTicket | migrate.py:141-211 | one ticket row ends in the state `MigrateTicket` gives, whose request order `TicketCallOrder` states |
| Migrator.Migration.MigrateTickets | migrate.py:140-211 | the ticket loop ends in the state `MigrateTickets` gives, tickets in row order |
| Migrator.Run | migrate.py:60-213 | a whole run's exit status and requests are those `RunOutcome` gives |

## Left out

- The SQLite layer and the SQL text are not modelled. The rows come in as sequences: the tickets already filtered by component (`LIKE` in migrate.py, `=` in the ros-pkg script) and in id order, and the comments of a ticket from a `commentsOf` function.
- The GitHub client (`github.py`, not part of this model) is not modelled. Listings are inputs, each request is a log entry, and the number answered to a creation comes from the `Server` parameter. Transport errors, which abort a real run, are not modelled.
- Date rendering is not modelled: `ctime()` of the ticket time and `isoformat()` of the due date are opaque `Clock` functions. migrate.py reads microseconds since 1970 and the ros-pkg script reads seconds in local time; that difference lives inside the renderer.
- Argument parsing is not modelled: the option parser, the argument-count check and the help output. The database-file check is the `dbExists` parameter of `Run`.
- Logging, the informational owner listing and the commented-out assignee code are left out, because they send nothing to GitHub.
- A NULL in a column the scripts call a string method on (milestone name, summary, comment body) makes Python raise and abort the run. The model takes these columns as non-NULL strings, so that crash is not modelled. Its ticket `time` is likewise non-NULL. A NULL `status` does not crash a run: it only fails the comparison with `"closed"`, so any string other than `"closed"` stands for it.
- Python 2's mixing of byte and unicode strings is not modelled: text is a sequence of characters, and `strip()` removes the characters `unicode.isspace()` accepts.
