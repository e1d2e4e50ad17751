/** The settings form's submit handler (src/components/Settings.tsx):
    validation, host normalisation, cleaning and the merging save. */
module SettingsForm {
  import opened Wrappers
  import opened Strings
  import opened Types
  import opened Storage

  /** The form's partial settings; a field is `None` while unset. */
  datatype FormData = FormData(
    jiraHost: Option<string>,
    jiraEmail: Option<string>,
    jiraPat: Option<string>,
    theme: Option<Theme>,
    pinnedTicketKeys: Option<seq<string>>,
    filterStatuses: Option<string>,
    filterIssueTypes: Option<string>)

  /** The form before stored settings are loaded. */
  const InitialForm := FormData(Some(""), Some(""), Some(""), Some(System), None, None, None)

  const RequiredMessage := "Host, Email and PAT fields are required"
  const InvalidEmailMessage := "Invalid email format"

  // ---------------------------------------------------------------------
  // The e-mail pattern ^[^\s@]+@[^\s@]+\.[^\s@]+$

  predicate EmailChar(c: char) {
    !IsWhitespace(c) && c != '@'
  }

  /** A non-empty run of `[^\s@]`. */
  predicate EmailRun(s: string) {
    |s| >= 1 && forall k :: 0 <= k < |s| ==> EmailChar(s[k])
  }

  /** The pattern matches `e` with its `@` at `at` and the `.` it needs at
      `dot`. */
  predicate MatchesAt(e: string, at: nat, dot: nat) {
    && at < dot < |e|
    && e[at] == '@' && e[dot] == '.'
    && EmailRun(e[..at]) && EmailRun(e[at + 1..dot]) && EmailRun(e[dot + 1..])
  }

  /** The regular expression, read as "some split of `e` fits it". */
  ghost predicate MatchesEmailPattern(e: string) {
    exists at: nat, dot: nat :: MatchesAt(e, at, dot)
  }

  /** The test the handler runs: no white space, exactly one `@` with
      something before it, and a `.` after at least one character past the
      `@` that is not the last character. It agrees with the pattern. */
  function IsValidEmail(e: string): (valid: bool)
    ensures valid <==> MatchesEmailPattern(e)
    ensures valid ==> NoWhitespace(e)
  {
    if '@' !in e || !NoWhitespace(e) then
      NotValidEmail(e);
      false
    else
      var at := IndexOf(e, '@');
      var valid := at >= 1 && at + 2 < |e| && '@' !in e[at + 1..] && '.' in e[at + 2..|e| - 1];
      if valid then
        var i :| 0 <= i < |e[at + 2..|e| - 1]| && e[at + 2..|e| - 1][i] == '.';
        ValidEmail(e, at, at + 2 + i);
        true
      else
        NotValidEmailAt(e, at);
        false
  }

  lemma ValidEmail(e: string, at: nat, dot: nat)
    requires NoWhitespace(e) && at < |e| && e[at] == '@'
    requires forall k :: 0 <= k < at ==> e[k] != '@'
    requires '@' !in e[at + 1..]
    requires at >= 1 && at + 2 <= dot < |e| - 1 && e[dot] == '.'
    ensures MatchesEmailPattern(e)
  {
    assert forall k :: at < k < |e| ==> e[k] == e[at + 1..][k - at - 1];
    assert MatchesAt(e, at, dot);
  }

  /** In a match, every character other than the `@` and the `.` lies in
      one of the three runs. */
  lemma RunsCover(e: string, at: nat, dot: nat)
    requires MatchesAt(e, at, dot)
    ensures forall k :: 0 <= k < |e| && k != at && k != dot ==> EmailChar(e[k])
  {
    forall k | 0 <= k < |e| && k != at && k != dot
      ensures EmailChar(e[k])
    {
      if k < at {
        assert e[..at][k] == e[k];
      } else if k < dot {
        assert e[at + 1..dot][k - at - 1] == e[k];
      } else {
        assert e[dot + 1..][k - dot - 1] == e[k];
      }
    }
  }

  /** What any match of the pattern implies: no white space, the match's
      `@` is the first and only one, there is a character before it, and a
      `.` follows it at distance two or more without ending the address. */
  lemma MatchFacts(e: string, at: nat, dot: nat)
    requires MatchesAt(e, at, dot)
    ensures NoWhitespace(e)
    ensures '@' in e && IndexOf(e, '@') == at
    ensures at >= 1 && at + 2 < |e|
    ensures '@' !in e[at + 1..]
    ensures '.' in e[at + 2..|e| - 1]
  {
    RunsCover(e, at, dot);
    MatchNoWhitespace(e, at, dot);
    MatchFirstAt(e, at, dot);
    MatchOnlyAt(e, at, dot);
    assert e[at + 2..|e| - 1][dot - at - 2] == '.';
  }

  lemma MatchNoWhitespace(e: string, at: nat, dot: nat)
    requires at < dot < |e| && e[at] == '@' && e[dot] == '.'
    requires forall k :: 0 <= k < |e| && k != at && k != dot ==> EmailChar(e[k])
    ensures NoWhitespace(e)
  {
    assert !IsWhitespace('@') && !IsWhitespace('.');
  }

  lemma MatchFirstAt(e: string, at: nat, dot: nat)
    requires at < dot < |e| && e[at] == '@' && e[dot] == '.'
    requires forall k :: 0 <= k < |e| && k != at && k != dot ==> EmailChar(e[k])
    ensures '@' in e && IndexOf(e, '@') == at
  {
    assert e[at] in e;
  }

  lemma MatchOnlyAt(e: string, at: nat, dot: nat)
    requires at < dot < |e| && e[at] == '@' && e[dot] == '.'
    requires forall k :: 0 <= k < |e| && k != at && k != dot ==> EmailChar(e[k])
    ensures '@' !in e[at + 1..]
  {
    var after := e[at + 1..];
    forall j | 0 <= j < |after|
      ensures after[j] != '@'
    {
      assert after[j] == e[at + 1 + j];
    }
  }

  lemma NotValidEmail(e: string)
    requires '@' !in e || !NoWhitespace(e)
    ensures !MatchesEmailPattern(e)
  {
    if MatchesEmailPattern(e) {
      var at: nat, dot: nat :| MatchesAt(e, at, dot);
      MatchFacts(e, at, dot);
    }
  }

  lemma NotValidEmailAt(e: string, at: nat)
    requires '@' in e && at == IndexOf(e, '@')
    requires !(at >= 1 && at + 2 < |e| && '@' !in e[at + 1..] && '.' in e[at + 2..|e| - 1])
    ensures !MatchesEmailPattern(e)
  {
    if MatchesEmailPattern(e) {
      var a: nat, dot: nat :| MatchesAt(e, a, dot);
      MatchFacts(e, a, dot);
    }
  }

  /** Concrete cases of the pattern. */
  lemma EmailAccepted()
    ensures IsValidEmail("me@example.com")
  {
    var e := "me@example.com";
    assert e[..2] == "me" && e[3..10] == "example" && e[11..] == "com";
    assert MatchesAt(e, 2, 10);
  }

  lemma EmailWithoutDot()
    ensures !IsValidEmail("me@example")
  {
    var e := "me@example";
    assert forall k :: 0 <= k < |e| ==> e[k] != '.';
  }

  lemma EmailWithSpace()
    ensures !IsValidEmail("me @example.com")
  {
    var e := "me @example.com";
    assert IsWhitespace(e[2]);
    NotValidEmail(e);
  }

  // ---------------------------------------------------------------------
  // Host normalisation

  /** `replace(/\/$/, "")`: one trailing slash is dropped. */
  function DropTrailingSlash(s: string): (r: string)
    ensures EndsWith(s, "/") ==> r + "/" == s
    ensures !EndsWith(s, "/") ==> r == s
  {
    if EndsWith(s, "/") then s[..|s| - 1] else s
  }

  /** The stored host: trimmed, given `https://` unless it already starts
      with "http", and stripped of one trailing slash. */
  function NormalizeHost(host: string): (r: string)
    ensures StartsWith(r, "http")
  {
    var t := Trim(host);
    var withScheme := if StartsWith(t, "http") then t else "https://" + t;
    assert StartsWith(withScheme, "http");
    DropTrailingSlash(withScheme)
  }

  /** A host that is already clean — no surrounding white space, starting
      with "http", no trailing slash — is kept as it is. */
  lemma NormalizeCleanHost(host: string)
    requires NoWhitespace(host) && StartsWith(host, "http") && !EndsWith(host, "/")
    ensures NormalizeHost(host) == host
  {
  }

  /** A bare domain gets the secure scheme. */
  lemma NormalizeBareHost(host: string)
    requires host != "" && NoWhitespace(host) && !StartsWith(host, "http") && !EndsWith(host, "/")
    ensures NormalizeHost(host) == "https://" + host
  {
    var w := "https://" + host;
    assert w[|w| - 1..] == host[|host| - 1..];
  }

  /** Surrounding blanks and the trailing slash go. */
  lemma HostPadded()
    ensures NormalizeHost(" https://a.io/ ") == "https://a.io"
  {
    var core := "https://a.io/";
    assert " https://a.io/ " == " " + core + " ";
    assert StartsWith(core, "http") && EndsWith(core, "/");
    NormalizePadded(core);
    assert core[..|core| - 1] == "https://a.io";
  }

  lemma NormalizePadded(core: string)
    requires |core| > 0 && !IsWhitespace(core[0]) && !IsWhitespace(core[|core| - 1])
    requires StartsWith(core, "http") && EndsWith(core, "/")
    ensures NormalizeHost(" " + core + " ") == core[..|core| - 1]
  {
    TrimPadded(core);
  }

  /** Only one trailing slash is removed. */
  lemma HostDoubleSlash()
    ensures NormalizeHost("a//") == "https://a/"
  {
    var host := "a//";
    assert NoWhitespace(host);
    assert !StartsWith(host, "http");
    var w := "https://" + host;
    assert EndsWith(w, "/") && w[..|w| - 1] == "https://a/";
  }

  /** A domain that happens to start with "http" gets no scheme. */
  lemma HostStartingWithHttp()
    ensures NormalizeHost("httpbin.org") == "httpbin.org"
  {
    NormalizeCleanHost("httpbin.org");
  }

  /** A blank host passes the required check and becomes `https:/`. */
  lemma HostBlank()
    ensures NormalizeHost(" ") == "https:/"
  {
    TrimBlank();
  }

  // ---------------------------------------------------------------------
  // Submitting

  /** `x?.trim() || ""`. */
  function TrimOrEmpty(field: Option<string>): string {
    if field.Some? then Trim(field.value) else ""
  }

  /** Validation and cleaning: the required-fields check comes first, then
      the e-mail pattern. Clean settings keep the e-mail as typed, carry the
      normalised host and the trimmed PAT and filters, and default the theme
      to System and the pinned keys to none. */
  function CleanSettings(form: FormData): (r: Result<AppSettings, string>)
    ensures !(Truthy(form.jiraHost) && Truthy(form.jiraPat) && Truthy(form.jiraEmail)) ==>
              r == Failure(RequiredMessage)
    ensures (Truthy(form.jiraHost) && Truthy(form.jiraPat) && Truthy(form.jiraEmail)
             && !MatchesEmailPattern(form.jiraEmail.value)) ==> r == Failure(InvalidEmailMessage)
    ensures r.Success? <==>
              Truthy(form.jiraHost) && Truthy(form.jiraPat) && Truthy(form.jiraEmail)
              && MatchesEmailPattern(form.jiraEmail.value)
    ensures r.Success? ==>
              && r.value.jiraEmail == form.jiraEmail.value
              && r.value.jiraHost == NormalizeHost(form.jiraHost.value)
              && StartsWith(r.value.jiraHost, "http")
              && r.value.jiraPat == Trim(form.jiraPat.value)
              && r.value.theme == form.theme.GetOr(System)
              && r.value.pinnedTicketKeys == form.pinnedTicketKeys.GetOr([])
              && r.value.filterStatuses == Some(TrimOrEmpty(form.filterStatuses))
              && r.value.filterIssueTypes == Some(TrimOrEmpty(form.filterIssueTypes))
  {
    if !Truthy(form.jiraHost) || !Truthy(form.jiraPat) || !Truthy(form.jiraEmail) then
      Failure(RequiredMessage)
    else if !IsValidEmail(form.jiraEmail.value) then
      Failure(InvalidEmailMessage)
    else
      Success(AppSettings(
        NormalizeHost(form.jiraHost.value),
        TrimOrEmpty(form.jiraEmail),
        Trim(form.jiraPat.value),
        form.theme.GetOr(System),
        form.pinnedTicketKeys.GetOr([]),
        Some(TrimOrEmpty(form.filterStatuses)),
        Some(TrimOrEmpty(form.filterIssueTypes))))
  }

  /** What a submit leaves behind: the storage area, the error line shown,
      and whether the form reported success to its parent. */
  datatype SubmitOutcome = SubmitOutcome(area: SyncArea, error: string, saved: bool)

  /** `handleSubmit`: a valid form is cleaned and merged into the area;
      an invalid one leaves the area alone and shows the error. */
  function HandleSubmit(form: FormData, area: SyncArea): (out: SubmitOutcome)
    ensures out.saved <==> CleanSettings(form).Success?
    ensures out.saved ==> out.area == SaveSettings(area, CleanSettings(form).value) && out.error == ""
    ensures !out.saved ==> out.area == area && out.error == CleanSettings(form).error
  {
    match CleanSettings(form)
    case Success(clean) => SubmitOutcome(SaveSettings(area, clean), "", true)
    case Failure(message) => SubmitOutcome(area, message, false)
  }

  /** After a successful submit the next load returns exactly the clean
      settings, unless the PAT was only white space: that passes the
      required check, is saved as "", and then the settings no longer
      load. */
  lemma SubmitThenLoad(form: FormData, area: SyncArea)
    requires HandleSubmit(form, area).saved
    ensures var clean := CleanSettings(form).value;
            && (Trim(form.jiraPat.value) != "" ==> GetSettings(HandleSubmit(form, area).area) == Some(clean))
            && (Trim(form.jiraPat.value) == "" ==> GetSettings(HandleSubmit(form, area).area).None?)
  {
    var clean := CleanSettings(form).value;
    SaveLoadRoundTrip(area, clean);
    assert clean.jiraHost != "" by {
      assert StartsWith(clean.jiraHost, "http");
    }
  }

  /** The white-space PAT case, concretely. */
  lemma BlankPatIsLost(area: SyncArea)
    ensures var form := FormData(Some("x.atlassian.net"), Some("me@example.com"), Some(" "), None, None, None, None);
            && HandleSubmit(form, area).saved
            && GetSettings(HandleSubmit(form, area).area).None?
  {
    var form := FormData(Some("x.atlassian.net"), Some("me@example.com"), Some(" "), None, None, None, None);
    EmailAccepted();
    assert MatchesEmailPattern(form.jiraEmail.value);
    assert Truthy(form.jiraHost) && Truthy(form.jiraPat) && Truthy(form.jiraEmail);
    assert CleanSettings(form).Success?;
    assert HandleSubmit(form, area).saved;
    TrimBlank();
    SubmitThenLoad(form, area);
  }

  /** The form as filled from loaded settings. */
  function FormOf(s: AppSettings): FormData {
    FormData(Some(s.jiraHost), Some(s.jiraEmail), Some(s.jiraPat), Some(s.theme),
             Some(s.pinnedTicketKeys), s.filterStatuses, s.filterIssueTypes)
  }

  /** Settings in cleaned form: what a successful submit produces. */
  predicate IsClean(s: AppSettings) {
    && NoWhitespace(s.jiraHost) && StartsWith(s.jiraHost, "http") && !EndsWith(s.jiraHost, "/")
    && IsValidEmail(s.jiraEmail)
    && s.jiraPat != "" && Trim(s.jiraPat) == s.jiraPat
    && s.filterStatuses.Some? && Trim(s.filterStatuses.value) == s.filterStatuses.value
    && s.filterIssueTypes.Some? && Trim(s.filterIssueTypes.value) == s.filterIssueTypes.value
  }

  /** Opening the form on clean settings and saving it unchanged saves the
      same settings again. */
  lemma ResubmitUnchanged(s: AppSettings)
    requires IsClean(s)
    ensures CleanSettings(FormOf(s)) == Success(s)
  {
    var form := FormOf(s);
    assert Truthy(form.jiraHost) by {
      assert StartsWith(s.jiraHost, "http");
    }
    assert Truthy(form.jiraEmail) by {
      var at: nat, dot: nat :| MatchesAt(s.jiraEmail, at, dot);
    }
    assert Truthy(form.jiraPat);
    assert IsValidEmail(form.jiraEmail.value);
    var clean := CleanSettings(form).value;
    assert clean.jiraHost == s.jiraHost by {
      NormalizeCleanHost(s.jiraHost);
    }
    assert clean.jiraEmail == s.jiraEmail;
    assert clean.jiraPat == s.jiraPat;
    assert clean.filterStatuses == s.filterStatuses;
    assert clean.filterIssueTypes == s.filterIssueTypes;
    assert clean.theme == s.theme && clean.pinnedTicketKeys == s.pinnedTicketKeys;
  }

  /** The form when the settings view opens: the stored settings when they
      load, the blank defaults otherwise. Submitting the blank form only
      shows the required-fields message and saves nothing. */
  function FormOnOpen(area: SyncArea): (form: FormData)
    ensures GetSettings(area).Some? ==> form == FormOf(GetSettings(area).value)
    ensures GetSettings(area).None? ==>
              HandleSubmit(form, area) == SubmitOutcome(area, RequiredMessage, false)
  {
    match GetSettings(area)
    case Some(loaded) => FormOf(loaded)
    case None => InitialForm
  }
}
