# Onboarding screens: IMAP/SMTP validation and the authentication page

A Dafny model of two onboarding screens of the Mailspring (N1) desktop mail
client:

- **The IMAP/SMTP settings form** (`AccountIMAPSettingsForm`). Its
  `validateAccountInfo` checks the IMAP column and then the SMTP column, and
  returns an error message, the field names in error and a `populated` flag.
  It also has the rule that decides which inputs are drawn with the `error`
  class (module `ImapSettings`).
- **The authentication page** (`AuthenticatePage`). It follows the load
  events of an embedded browser view and runs a script to read the sign-in
  result. On success it merges the result into the account info and moves the
  wizard to `account-choose`. The page's cover (`AuthenticateLoadingCover`)
  picks a message and has a one-shot "slow" timer (modules `AuthenticatePage`
  and `LoadingCover`).
- Module `Js` holds the JavaScript value semantics both screens rely on:
  - absent values;
  - truthiness of strings;
  - `x || ""`;
  - the decimal text of an integer inside a template literal.

Every operation is a pure function over immutable datatypes:

- The validator is a fold over the list of protocol columns `[Imap, Smtp]`,
  as the source loops over `['imap', 'smtp']`. It is a function of the
  account info, so the record it is given is never modified.
- Each page handler is one `Step` from a view state and an event to a new
  state and an effect.
- Calls into the outside world are returned as values rather than performed:
  - running the extraction script;
  - `setN1UserAccount`;
  - `setAccountInfo`;
  - `moveToPage`;
  - reloading the view.
- Collaborators the model cannot see are parameters:
  - the domain-or-IP regex test is `validServer: string -> bool`;
  - the browser networking stack's error table (`networkErrors.createByCode`)
    is `lookup: int -> Option<string>`.
- The store's account info read inside the success callback comes in on the
  `SuccessDelayElapsed` event.
- The page's unmount is a parameter `Teardown`. `ClearLatestHandle` is the
  unmount as written, which cancels only the latest success callback.
  `ClearAll` is the intended unmount, which cancels them all (see
  "## Findings"). Every page lemma that does not involve unmount holds for
  both.

Two behaviours of the validator are easy to miss when reading its result:

- A missing required field ends the loop at line 40 and returns what has
  been accumulated so far. If IMAP is incomplete, nothing has been
  accumulated yet. If IMAP is complete but SMTP is not, the IMAP errors are
  returned with `populated` false, as `SmtpMissingKeepsImapErrors` states.
- The error field names are a list, not a set. The syntax check (line 44)
  and the Gmail check (line 48) each push the host, so a host that fails
  both is listed twice, as `HostFlagCount` states.

## Model

| member | source | states |
|---|---|---|
| ImapSettings.ValidateAccountInfo | internal_packages/onboarding/lib/account-settings-page-imap.jsx:30-57 | An incomplete IMAP column gives no message, no fields and `populated` false, whatever SMTP holds. `populated` is true exactly when all six required fields are truthy, even when errors were recorded. At most 6 fields are flagged, each a host or a port (never a username or password). The message is null exactly when no field is flagged. Otherwise it is the message of the check that flagged the last field. |
| ImapSettings.CheckServer | internal_packages/onboarding/lib/account-settings-page-imap.jsx:42-53 | The checks of one complete column only append to the list, at most 3 entries, each this column's host or port. With no new flag the message is unchanged. Otherwise it is the message of the check that flagged the last field. |
| ImapSettings.CheckServerFlags | internal_packages/onboarding/lib/account-settings-page-imap.jsx:42-53 | The column's host is flagged exactly when it fails the server test or is `imap.gmail.com`. Its port is flagged exactly when it is not an integer, and then the port is the last entry, because that check runs last. |
| ImapSettings.HostFlagCount | internal_packages/onboarding/lib/account-settings-page-imap.jsx:42-49 | A column's host appears among its new entries once for each of the two host checks it fails: the server test and the Gmail test. So a host failing both is listed twice. |
| ImapSettings.ValidColumnFlagsNothing | internal_packages/onboarding/lib/account-settings-page-imap.jsx:42-53 | A complete column with a valid non-Gmail host and an integer port leaves the message and the list untouched. |
| ImapSettings.ValidateFrom | internal_packages/onboarding/lib/account-settings-page-imap.jsx:38-56 | The loop only extends what was accumulated, by at most 3 entries per column. It reports `populated` exactly when every column has its required fields. |
| ImapSettings.ValidateFromFlagsCheckedColumns | internal_packages/onboarding/lib/account-settings-page-imap.jsx:38-53 | Every field the loop adds is the host or port of a column it reached. A column is reached only when its required fields are present. |
| ImapSettings.ValidateFromKeepsMessagePairing | internal_packages/onboarding/lib/account-settings-page-imap.jsx:31-53 | Every push is paired with a message assignment. So "no message iff no fields, else the last flag's message" survives the whole loop. |
| ImapSettings.FlaggedColumnsWereReached | internal_packages/onboarding/lib/account-settings-page-imap.jsx:38-53 | Every flagged field belongs to a column the validator reached. Its own required fields and the IMAP column's are all present. |
| ImapSettings.SmtpMissingKeepsImapErrors | internal_packages/onboarding/lib/account-settings-page-imap.jsx:38-41 | IMAP complete and SMTP incomplete gives `populated` false. Only IMAP fields are flagged. The IMAP host and port flags are exactly those the IMAP checks raise, so they are kept. |
| ImapSettings.GmailHostFlagged | internal_packages/onboarding/lib/account-settings-page-imap.jsx:46-53 | A reached column whose host is `imap.gmail.com` has its host flagged, in either column. Its Gmail message is the final one when its port is an integer and it is the last column to flag. For SMTP, that means whenever its port is an integer. |
| ImapSettings.NonIntegerPortFlagged | internal_packages/onboarding/lib/account-settings-page-imap.jsx:50-53 | A reached column with a non-integer port has `<type>_port` flagged. When it is the last column to flag, the message is the port message. |
| ImapSettings.ImapEntriesPrecedeSmtp | internal_packages/onboarding/lib/account-settings-page-imap.jsx:38-53 | No IMAP field follows an SMTP field in the list. |
| ImapSettings.CleanExactlyWhenAllValid | internal_packages/onboarding/lib/account-settings-page-imap.jsx:30-57 | The result is `{null, [], true}` exactly when both columns have their required fields, valid non-Gmail hosts and integer ports. |
| ImapSettings.FieldKeyRoundTrip | internal_packages/onboarding/lib/account-settings-page-imap.jsx:68-118 | The nine field keys (`imap_host` … `ssl_required`) are distinct: each reads back to its own field. |
| ImapSettings.HasErrorClass | internal_packages/onboarding/lib/account-settings-page-imap.jsx:72-118 | A host, username or password input is drawn in error exactly when its name is listed and its own value is truthy. A port input or the SSL checkbox is drawn in error exactly when its name is listed and the IMAP host is truthy, whichever column the port sits in. |
| ImapSettings.SmtpPortGatedByImapHost | internal_packages/onboarding/lib/account-settings-page-imap.jsx:72-85 | With a truthy IMAP host and no SMTP host, a listed SMTP port is drawn in error while a listed SMTP host is not. |
| ImapSettings.ErrorClassMatchesValidation | internal_packages/onboarding/lib/account-settings-page-imap.jsx:72-118 | On the validator's own output, an input is drawn in error exactly when it was flagged. Usernames, passwords and the SSL checkbox never are. |
| AuthenticatePage.LoadErrorMessage | internal_packages/onboarding/lib/authenticate-page.jsx:126-130 | The error of a failed load is the view's description when that is truthy. Otherwise it is `Could not reach <url>. ` followed by the looked-up message when there is one (or the code). It is never empty. |
| AuthenticatePage.SynthesizedMessageNamesCode | internal_packages/onboarding/lib/authenticate-page.jsx:127-129 | With no description and no looked-up message, the code can be read back from the text after the URL. |
| AuthenticatePage.Step | internal_packages/onboarding/lib/authenticate-page.jsx:116-149 | Start clears the error and keeps `ready`. Code -3 changes nothing. Any other failure gives not ready and sets the error to the line 126-130 message (`LoadErrorMessage`), which is truthy. Only a finish runs the script. Finish changes no state and runs the script exactly when no truthy error is set. A script result sets `ready` and keeps the error. The success path runs exactly when the result is non-null, with that result. |
| AuthenticatePage.RunMatchesLatestEvents | internal_packages/onboarding/lib/authenticate-page.jsx:116-149 | After any event sequence, `ready` is decided by the latest script result (true) or reported failure (false). The error is decided by the latest start (none) or reported failure (its message). Aborts and finishes affect neither. |
| AuthenticatePage.ReachableErrorIsAbsentOrTruthy | internal_packages/onboarding/lib/authenticate-page.jsx:76-131 | From the initial state `{ready: false, error: null}`, the error is always null or a non-empty message. |
| AuthenticatePage.FinishRunsScriptExactlyWithoutError | internal_packages/onboarding/lib/authenticate-page.jsx:134-144 | On every reachable state, a finished load runs the extraction script exactly when no error is set. |
| AuthenticatePage.FinishAfterFailureIgnored | internal_packages/onboarding/lib/authenticate-page.jsx:120-136 | A finish racing behind a reported failure changes nothing and runs no script. The page stays not ready and shows the failure. |
| AuthenticatePage.SuccessOncePerResult | internal_packages/onboarding/lib/authenticate-page.jsx:144-148 | Over any event sequence, the success path receives exactly the non-null script results, in arrival order, each once. |
| AuthenticatePage.DisplayNameSplitsBack | internal_packages/onboarding/lib/authenticate-page.jsx:104 | The display name always contains the separating space. When the first name has none, splitting at the first space gives back `(firstname or "")` and `(lastname or "")`. |
| AuthenticatePage.MergeAuthResult | internal_packages/onboarding/lib/authenticate-page.jsx:102-105 | The merged account info has the prior keys plus `email` and `name`. Every other key keeps its value. `email` is the result's email (undefined when absent). `name` is `(firstname or "") + " " + (lastname or "")`. |
| AuthenticatePage.MergedNameSplitsBack | internal_packages/onboarding/lib/authenticate-page.jsx:104 | When the first name has no space, splitting the published `name` at its first space gives back `(firstname or "")` and `(lastname or "")`. |
| AuthenticatePage.MergeIsMergeOf | internal_packages/onboarding/lib/authenticate-page.jsx:102-105 | Merging the same result into already merged account info changes nothing, so `IsMergeOf` recognises exactly the merges of a result. |
| AuthenticatePage.PageStep | internal_packages/onboarding/lib/authenticate-page.jsx:93-149 | On a mounted page: a view event updates the view as `Step` does; a finish runs the script exactly when no truthy error is set; a non-null script result is handed to `setN1UserAccount` and queued at the end; any other view event emits no action and leaves the queue alone; Try Again reloads. A firing callback publishes the merge of the store's account info with the oldest queued result, then moves to `account-choose`, and dequeues it. A firing with nothing queued does nothing. Navigation happens only on such a firing. Unmount leaves only a prefix of the queue (none when every callback is cancelled). An unmounted page ignores view events and retries. |
| AuthenticatePage.PublishedFollowScheduled | internal_packages/onboarding/lib/authenticate-page.jsx:99-108 | Over any run, the published account infos are, in order, merges of the first scheduled results: first those already queued, then one per result found while mounted. The still queued results come right after them, and a page still mounted has lost none. |
| AuthenticatePage.PublishedFromMount | internal_packages/onboarding/lib/authenticate-page.jsx:99-108 | From mount, the i-th published account info is a merge of the i-th result the script found. There are never more publications than results. |
| AuthenticatePage.UserAccountsFollowResults | internal_packages/onboarding/lib/authenticate-page.jsx:99-148 | Over any run, the accounts handed to `setN1UserAccount` are exactly the non-null script results reaching the page before its first unmount, in order, each once. An unmounted page hands over none. |
| AuthenticatePage.UserAccountsFromMount | internal_packages/onboarding/lib/authenticate-page.jsx:99-148 | From mount, the accounts handed over are exactly the results found before the first unmount. |
| AuthenticatePage.FiringsPublishPending | internal_packages/onboarding/lib/authenticate-page.jsx:101-107 | A run of firings publishes the queued results in order, one per firing until the queue is empty. Each publication is the store's account info at that firing merged with the result. |
| AuthenticatePage.NoNavigationAfterUnmount | internal_packages/onboarding/lib/authenticate-page.jsx:93-108 | After unmount, no sequence of later events publishes account info or moves the wizard. |
| AuthenticatePage.UnmountAsWrittenKeepsEarlierCallbacks | internal_packages/onboarding/lib/authenticate-page.jsx:93-108 | As written, after unmount exactly the callbacks scheduled before the latest still fire. The firings that follow publish, in order, each earlier result merged into the store's account info. |
| AuthenticatePage.UnmountAsWrittenLeaksNavigation | internal_packages/onboarding/lib/authenticate-page.jsx:93-108 | From mount: two results, unmount, one firing. As written, the actions are two `setN1UserAccount` calls, then the first result's merge is published and the wizard moves to `account-choose`. With every callback cancelled, only the two `setN1UserAccount` calls happen. |
| AuthenticatePage.SignInRun | internal_packages/onboarding/lib/authenticate-page.jsx:99-148 | From mount: a clean start and finish, a non-null script result, then the one-second callback. The actions are: run the script, set the user account, publish the merge, move to `account-choose`. The page ends ready with nothing queued. |
| AuthenticatePage.SignInScenario | internal_packages/onboarding/lib/authenticate-page.jsx:99-148 | Start, finish, script result `{"email":"a@b.com","firstname":"A","lastname":"B"}`, then the one-second callback. The actions are: run the script, set the user account, publish the merge with `email = "a@b.com"` and `name = "A B"`, move to `account-choose`. Each happens once. |
| LoadingCover.CoverMessage | internal_packages/onboarding/lib/authenticate-page.jsx:41-48 | A truthy error is shown as is, ahead of the slow flag. Without one, the message is the slow notice exactly when slow, and `&nbsp;` otherwise. It is never empty. |
| LoadingCover.CoverMessageOverRun | internal_packages/onboarding/lib/authenticate-page.jsx:22-48 | After any events of a freshly mounted cover, a truthy error is shown as is. Without one, the slow notice is shown exactly when the timer fired before unmount, and `&nbsp;` otherwise. |
| LoadingCover.CoverStep | internal_packages/onboarding/lib/authenticate-page.jsx:22-31 | The cover becomes slow only when its pending timer fires. Unmounting or firing leaves no timer pending. |
| LoadingCover.QuietCoverStaysQuiet | internal_packages/onboarding/lib/authenticate-page.jsx:22-31 | A cover that is not slow and has no pending timer never becomes slow. |
| LoadingCover.SlowExactlyWhenTimerFiresFirst | internal_packages/onboarding/lib/authenticate-page.jsx:22-31 | A mounted cover ends up slow exactly when the timer fires before the unmount. Unmounting first means it is never slow. |
| Js.OrEmpty | internal_packages/onboarding/lib/authenticate-page.jsx:104 | The fallback of `x` to `""` (logical or) is empty exactly when `x` is falsy, and is `x` otherwise. |
| Js.NatToDecimal | internal_packages/onboarding/lib/authenticate-page.jsx:129 | The decimal text of a natural number is non-empty and all digits. It starts with `0` only for zero. |
| Js.IntToDecimal | internal_packages/onboarding/lib/authenticate-page.jsx:129 | The text of an integer code is non-empty. It starts with `-` exactly for negative codes, and digits follow. |
| Js.NatToDecimalRoundTrip | internal_packages/onboarding/lib/authenticate-page.jsx:129 | Reading the decimal text of a natural number back gives the number. |
| Js.IntToDecimalRoundTrip | internal_packages/onboarding/lib/authenticate-page.jsx:129 | Reading the text of an integer code back gives the code, so distinct codes give distinct messages. |

## Left out

- JSX rendering, labels, the submit and title texts, `classnames` and the `CreatePageForForm` decorator are presentation only. So is each input's displayed value (`value || ''`).
- The domain-name and IP-address regular expressions of `RegExpUtils` are not part of this model. The validator takes the combined test as the parameter `validServer`.
- The contents of `chromium-net-errors` are not part of this model. The lookup is a parameter returning the error's message or nothing.
- `executeJavaScript` and `JSON.parse` are foreign calls. The parsed result is an optional record with optional `email`, `firstname` and `lastname`. A result that is not valid JSON (which would throw) is not modelled.
- Line 103 copies `json.email` as it is. A JSON `null` or a non-string `email` (a number, say) is therefore published unchanged. The model's email is an optional string, so it does not model these values. An absent email is published as undefined, which is what `AuthenticatePage.EmailValue` writes.
- The script text `"null"` parses to `null`, which the page hands to the success path, and the callback then throws reading `json.email`. `ScriptResult(Some(...))` always carries a record, so this case is not modelled.
- Other keys of the parsed result are not kept. `SetUserAccount` carries only the three fields above.
- `NylasAPI.setN1UserAccount`, `OnboardingActions.setAccountInfo`/`moveToPage` and `PageRouterStore.accountInfo()` are external stores. They appear as returned actions, and the store's account info is an event parameter.
- The 2500 ms and 1000 ms delays are not modelled, as time is not modelled. Each timer is a pending entry that fires on an explicit event. Success callbacks fire in scheduling order, since all have the same delay.
- `componentDidMount`'s listener registration and `console-message` logging are not modelled. The mount is the constant `Mounted` (view state plus loading the onboarding URL).
- View events arriving after the page unmounts are ignored, as the view is torn down with the page. The source has no such guard on the script's completion callback (lines 144-148). A completion that still arrived after unmount would schedule a new success callback. `AuthenticatePage.NoNavigationAfterUnmount` relies on this assumption.
- Account-info values are strings, integers, booleans or undefined. JavaScript floating-point numbers are not modelled. A port is only "integer" or "not integer", standing for `Number.isInteger`.
- Host, username and password are optional strings. A non-string value (a number typed into the store) is not modelled.
- `ssl_required` is carried in the account info. The validator never reads it.
- Js.IntToDecimal: writes every integer in plain decimal. JavaScript switches to exponent notation from magnitude 1e21 on; browser error codes are assumed to be far smaller.

## Findings

| source | as written | input that shows it | evidently intended | confidence | as-written member | corrected member |
|---|---|---|---|---|---|---|
| internal_packages/onboarding/lib/authenticate-page.jsx:93-108 | Each success stores its timer in `_nextTimeout`, overwriting the previous handle. Unmount clears only the latest timer. | Two non-null script results within one second, then unmount. Example: a "Try Again" reload right after a successful sign-in, then leaving the page. The earlier callback still calls `setAccountInfo` and `moveToPage('account-choose')` after the page is gone. | Unmount cancels every pending success callback, so nothing navigates after teardown. | low; not executed | AuthenticatePage.UnmountAsWrittenKeepsEarlierCallbacks and AuthenticatePage.UnmountAsWrittenLeaksNavigation (pages run with teardown `ClearLatestHandle`) | AuthenticatePage.NoNavigationAfterUnmount (pages run with teardown `ClearAll`) |
