/** The GitHub v3 requests the migration issues, as entries of a call log.
    The client library itself is not modelled: a listing is an input, and the
    number GitHub assigns to a created milestone or issue comes from a
    `Server` function of the calls made so far. */
module GitHub {
  import opened Text

  /** One entry of `github.milestones()`: its title and number. */
  datatype ListedMilestone = ListedMilestone(title: string, number: int)

  datatype MilestoneState = Open | Closed

  /** The `data` of `github.milestones(data=...)`; `dueOn` absent means no
      `due_on` key in the request. */
  datatype MilestonePayload = MilestonePayload(
    title: string,
    state: MilestoneState,
    description: Option<string>,
    dueOn: Option<string>)

  /** The `data` of `github.issues(data=...)`; an absent `body` or `milestone`
      means the key is not in the request at all. */
  datatype IssuePayload = IssuePayload(
    title: string,
    labels: seq<string>,
    body: Option<string>,
    milestone: Option<int>)

  datatype Call =
    | CreateLabel(name: Option<string>)             // github.labels(data={'name': ...})
    | CreateMilestone(milestone: MilestonePayload)  // github.milestones(data=...)
    | CreateIssue(issue: IssuePayload)              // github.issues(data=...)
    | CreateComment(issueNumber: int, body: string) // github.issue_comments(n, data={'body': ...})
    | CloseIssue(issueNumber: int)                  // github.issues(id_=n, data={'state': 'closed'})

  /** GitHub's answer to the last call of a log: the `number` of what it created. */
  type Server = seq<Call> -> int
}
