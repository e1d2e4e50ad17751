/** The records the application passes around: its settings, a ticket as
    the rest of the UI sees it, and the running-timer record. */
module Types {
  import opened Wrappers

  /** JavaScript truthiness of an optional string: present and not "". */
  predicate Truthy(text: Option<string>) {
    text.Some? && text.value != ""
  }

  /** JavaScript's `text || fallback` for an optional string. */
  function OrElse(text: Option<string>, fallback: string): (r: string)
    ensures Truthy(text) ==> r == text.value
    ensures !Truthy(text) ==> r == fallback
  {
    if Truthy(text) then text.value else fallback
  }

  datatype Theme = Light | Dark | System

  /** Stored configuration. The two filters are comma-separated lists and
      may be absent (`undefined`); everything else is always present. */
  datatype AppSettings = AppSettings(
    jiraHost: string,
    jiraEmail: string,
    jiraPat: string,
    theme: Theme,
    pinnedTicketKeys: seq<string>,
    filterStatuses: Option<string>,
    filterIssueTypes: Option<string>)

  datatype IssueType = IssueType(name: string, iconUrl: string)

  /** `categoryKey` is declared optional here because the search mapping
      never fills it in. */
  datatype TicketStatus = TicketStatus(name: string, categoryColor: string, categoryKey: Option<string>)

  datatype Ticket = Ticket(
    id: string,
    key: string,
    summary: string,
    timeSpentSeconds: int,
    issueType: IssueType,
    status: TicketStatus)

  /** The single running timer: which ticket, and since when (milliseconds
      since the epoch). */
  datatype ActiveTimer = ActiveTimer(ticketId: string, startTime: int)
}
