/** The settings record in the browser's synchronised storage area
    (src/lib/storage.ts). */
module Storage {
  import opened Wrappers
  import opened Types

  /** The synchronised area restricted to the settings keys; a key holds
      `None` when nothing is stored under it. */
  datatype SyncArea = SyncArea(
    jiraHost: Option<string>,
    jiraEmail: Option<string>,
    jiraPat: Option<string>,
    theme: Option<Theme>,
    pinnedTicketKeys: Option<seq<string>>,
    filterStatuses: Option<string>,
    filterIssueTypes: Option<string>)

  const EmptyArea := SyncArea(None, None, None, None, None, None, None)

  /** `saveSettings`: a merging write. Every field of the settings is
      stored; an absent (`undefined`) filter writes nothing, so whatever
      was stored under that key stays. */
  function SaveSettings(area: SyncArea, settings: AppSettings): (stored: SyncArea)
    ensures stored.jiraHost == Some(settings.jiraHost)
    ensures stored.jiraEmail == Some(settings.jiraEmail)
    ensures stored.jiraPat == Some(settings.jiraPat)
    ensures stored.theme == Some(settings.theme)
    ensures stored.pinnedTicketKeys == Some(settings.pinnedTicketKeys)
    ensures stored.filterStatuses == (if settings.filterStatuses.Some? then settings.filterStatuses else area.filterStatuses)
    ensures stored.filterIssueTypes == (if settings.filterIssueTypes.Some? then settings.filterIssueTypes else area.filterIssueTypes)
  {
    SyncArea(
      Some(settings.jiraHost), Some(settings.jiraEmail), Some(settings.jiraPat),
      Some(settings.theme), Some(settings.pinnedTicketKeys),
      if settings.filterStatuses.Some? then settings.filterStatuses else area.filterStatuses,
      if settings.filterIssueTypes.Some? then settings.filterIssueTypes else area.filterIssueTypes)
  }

  /** `getSettings`: nothing unless both host and PAT are stored and
      non-empty. Stored fields come back unchanged; a missing email or
      filter reads as "", a missing theme as System, missing pinned keys as
      the empty list. Loaded filters are therefore always present. */
  function GetSettings(area: SyncArea): (loaded: Option<AppSettings>)
    ensures loaded.Some? <==> Truthy(area.jiraHost) && Truthy(area.jiraPat)
    ensures loaded.Some? ==>
              && loaded.value.jiraHost == area.jiraHost.value
              && loaded.value.jiraPat == area.jiraPat.value
              && loaded.value.jiraEmail == area.jiraEmail.GetOr("")
              && loaded.value.theme == area.theme.GetOr(System)
              && loaded.value.pinnedTicketKeys == area.pinnedTicketKeys.GetOr([])
              && loaded.value.filterStatuses == Some(area.filterStatuses.GetOr(""))
              && loaded.value.filterIssueTypes == Some(area.filterIssueTypes.GetOr(""))
  {
    if Truthy(area.jiraHost) && Truthy(area.jiraPat) then
      Some(AppSettings(
        area.jiraHost.value,
        OrElse(area.jiraEmail, ""),
        area.jiraPat.value,
        if area.theme.Some? then area.theme.value else System,
        if area.pinnedTicketKeys.Some? then area.pinnedTicketKeys.value else [],
        Some(OrElse(area.filterStatuses, "")),
        Some(OrElse(area.filterIssueTypes, ""))))
    else None
  }

  /** `hasSettings`: settings load exactly when host and PAT are set. */
  function HasSettings(area: SyncArea): (has: bool)
    ensures has <==> GetSettings(area).Some?
  {
    var s := GetSettings(area);
    s.Some? && s.value.jiraHost != "" && s.value.jiraPat != ""
  }

  /** Saving then loading returns the saved settings exactly when host and
      PAT are non-empty and both filters are present; whatever the area
      held before does not matter. */
  lemma SaveLoadRoundTrip(area: SyncArea, settings: AppSettings)
    ensures GetSettings(SaveSettings(area, settings)) == Some(settings)
        <==> && settings.jiraHost != "" && settings.jiraPat != ""
             && settings.filterStatuses.Some? && settings.filterIssueTypes.Some?
  {
  }

  /** Saving settings with an empty host or PAT makes them unloadable. */
  lemma SaveWithoutCredentials(area: SyncArea, settings: AppSettings)
    requires settings.jiraHost == "" || settings.jiraPat == ""
    ensures GetSettings(SaveSettings(area, settings)).None?
    ensures !HasSettings(SaveSettings(area, settings))
  {
  }

  /** Before anything is saved, no settings load. */
  lemma NothingStored()
    ensures GetSettings(EmptyArea).None?
    ensures !HasSettings(EmptyArea)
  {
  }
}
