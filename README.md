# Network monitor and identity manager: a verified model

This project models two cores of a small self-hosted network operations
suite.

The first core is the **background network-health monitor** of the backend
(`backend/monitoring.py`, `backend/alerts.py`). Every cycle it does the
following:

- reads the machine table;
- gathers per-host bandwidth from two metrics queries;
- probes every host;
- writes each machine's live status and one history row;
- runs the alert rules for that machine;
- after all machines, prunes history older than the retention window.

The alert rules decide when a machine raises a down or a traffic alert.
Every alert passes a per-machine, per-kind cooldown gate held in memory.
An accepted alert always becomes a row of the dashboard's alert table, and
it is also mailed when the machine asks for e-mail and SMTP is configured.

The second core is the **identity manager**'s decision logic
(`manager/actions.py`, `manager/routes.py`):

- URL normalisation (`ensure_url`);
- the OIDC application slug, and the two ways redirect URIs are parsed;
- the account-creation and application-creation sequences with their
  rollbacks;
- the policy-binding reconciliation of `app_edit`;
- the system-user guard of `delete`;
- the invite-token and password checks of `register`;
- the list filters of `dashboard`.

Everything outside the program is an input:

- the ping outcome, the metrics replies, the clock readings and the
  database write that fails;
- the identity provider's and mail server's replies;
- the random keys.

Every external call is recorded in a returned trace of `Call` values. The
model's properties can therefore speak about which calls are issued, in
which order and with which arguments.

Files and modules:

| file | module | what |
|---|---|---|
| basics.dfy | `Basics` | `Option`, and the order-preserving filter `Keep` behind list comprehensions |
| text.dfy | `Text` | the pieces of Python `str` used: `strip`, `startswith`, `split`, `replace('\r\n', '\n')`, ASCII `lower` |
| fleet.dfy | `Fleet` | the monitor's tables, alert kinds, e-mails and settings |
| metrics.dfy | `Metrics` | `get_network_metrics` |
| alerts.dfy | `Alerts` | `process_alert`, `check_alerts`, `create_app_alert`, `send_email`; the `AlertEngine` class holds the cooldown map, alert table and outbox |
| monitoring.dfy | `Monitoring` | `update_machines_status` and `monitor_loop`; the `Monitor` class holds the machine and history tables |
| urls.dfy | `Urls` | `ensure_url`, the slug, redirect-URI parsing of both the create and the edit path |
| remote.dfy | `Remote` | the external calls the manager issues |
| actions.dfy | `Actions` | `create_full_user_action`, `create_oidc_app_action` |
| routes.dfy | `Routes` | `delete`, `app_edit`, `register` (the `InviteStore` class holds the invites table), `dashboard` filters |

The imperative parts are methods proved against specification functions:

- `Monitor.UpdateMachinesStatus`, `Monitor.Sweep`, `Monitor.Visit` and
  `Monitor.MonitorLoop` update the tables in place; their new state is
  `Cycle` (one turn of the loop) or `Cycles` (a run of turns) of the old;
- `AlertEngine.ProcessAlert` and `AlertEngine.CheckAlerts` update the
  cooldown map and append to the alert table and the outbox;
- `AddSamples`, `KeepStrict`, `DeleteBindings` and `CreateBindings` are
  the source's loops;
- `CreateFullUser`, `IssueOidcApp`, `Delete`, `AppEdit` and
  `InviteStore.Register` are the step-by-step call sequences.

The properties are proved as lemmas about those functions: summing per
host, cooldown spacing, rollback, reconciliation reaching the submitted
set, and idempotence.

Timestamps are integer seconds on one clock. The source's fixed-width
`%Y-%m-%d %H:%M:%S` strings compare in the same order.

The source's down alert is **level-triggered**:

- every cycle in which a machine is unreachable and has `notify_down` set
  hands a down alert to the cooldown gate;
- the stored `online` flag is never consulted, so the alert is not limited
  to the online→offline edge;
- the model follows the code (`Alerts.DownRepeatsWhileOffline`), not a
  description of it as an edge-triggered notification.

## Model

| member | source | states |
|---|---|---|
| Basics.Keep | manager/routes.py:150 | a list comprehension keeps, in order, exactly the elements satisfying the condition: each element's multiplicity is kept when it passes and is 0 otherwise |
| Basics.KeepAppend | manager/routes.py:150 | filtering distributes over concatenation, so filtering never reorders |
| Basics.KeepMembers | manager/routes.py:150 | an element is in the filtered list exactly when it is in the input and satisfies the condition |
| Text.Strip | manager/actions.py:10 | `strip()` leaves no whitespace at either end, adds no character, and leaves a stripped text unchanged |
| Text.StripIsSlice | manager/actions.py:54 | the stripped text is a slice of the input with only whitespace cut off either end |
| Text.StripSplits | manager/actions.py:10 | the input is the whitespace cut off its front, the stripped text, and the whitespace cut off its end |
| Text.Split | manager/actions.py:52 | splitting on a character class yields one more piece than the text has separators, none containing a separator |
| Text.SplitRoundTrip | manager/actions.py:52 | putting the separators back between the pieces, in order, gives back the input: splitting loses and invents no character |
| Text.ReplaceCrlf | manager/routes.py:403 | `replace('\r\n', '\n')` only deletes carriage returns: with carriage returns removed, input and output are equal |
| Text.ReplaceCrlfDropsCrBeforeLf | manager/routes.py:403 | `replace('\r\n', '\n')` deletes exactly the carriage returns directly followed by a line feed and keeps every other character, in order |
| Text.LowerAscii | manager/actions.py:45 | `lower()` maps each upper-case ASCII letter to the lower-case letter at the same place in the alphabet and keeps every other character |
| Text.Lower | manager/actions.py:45 | `name.lower()` keeps the length and lower-cases each character in place |
| Urls.EnsureUrl | manager/actions.py:8-13 | empty or missing input gives ""; otherwise the result is stripped and has an http/https scheme; it is the stripped input itself when that already has a scheme, and `https://` followed by the stripped input when it has none |
| Urls.EnsureUrlIdempotent | manager/routes.py:385-390 | applying `ensure_url` to its own result changes nothing |
| Urls.EnsureUrlOneLine | manager/routes.py:403 | `ensure_url` of a line holds no line break |
| Urls.Blank | manager/actions.py:45 | `re.sub(r'[^a-z0-9]', ' ', name.lower())` keeps the length; each lower-cased character in `[a-z0-9]` stays in its place and every other character becomes a blank |
| Urls.CollapseSpaces | manager/actions.py:46 | `re.sub(r'\s+', ' ', s)` is empty exactly for empty input, starts with the input's first character (a blank for whitespace), and leaves no two whitespace characters adjacent |
| Urls.CollapseSpacesSqueezes | manager/actions.py:46 | `re.sub(r'\s+', ' ', s)` equals the one-character-at-a-time reading: whitespace becomes one blank unless it follows whitespace, when it is dropped; every other character is kept |
| Urls.CollapseKeeps | manager/actions.py:46 | collapsing whitespace keeps every non-whitespace character, in order |
| Urls.CollapseKeepsAlphabet | manager/actions.py:46 | collapsing whitespace introduces no character other than the blank |
| Urls.Slug | manager/actions.py:45-46 | the slug contains only `[a-z0-9-]`, with no leading, trailing or doubled dash |
| Urls.SlugKeepsAlnums | manager/actions.py:45-46 | the slug's letters and digits are exactly those of the lower-cased name, in order |
| Urls.SlugIdempotent | manager/actions.py:45-46 | the slug of a slug is itself |
| Urls.SlugOfSlug | manager/actions.py:45-46 | a text already in slug form is its own slug |
| Urls.SlugOrKey | manager/actions.py:47 | the slug is never empty: the generated 8-character key replaces exactly an empty slug, and a non-empty slug is kept |
| Urls.StrictUris | manager/actions.py:53-56 | the kept pieces are non-blank, stripped, separator-free and all matched strictly, at most one per piece |
| Urls.StrictUrisKeepPieces | manager/actions.py:52-56 | the URIs are exactly the stripped pieces that are not blank, in order, each matched strictly |
| Urls.StrictUrisFreeOf | manager/actions.py:52-56 | URIs taken from separator-free pieces are separator-free |
| Urls.RedirectUris | manager/actions.py:49-56 | missing or empty raw text gives no URI; otherwise the URIs are exactly the stripped non-blank pieces of the split on newline and comma, in order, each matched strictly; every URI is non-blank, stripped and holds neither newline nor comma |
| Urls.ParseRedirectUris | manager/actions.py:50-56 | the append loop gives no URI for missing or empty raw text, and otherwise exactly the stripped non-blank pieces of the split, in order, each matched strictly |
| Urls.KeepStrict | manager/actions.py:53-56 | the loop over the pieces appends exactly the stripped pieces that are not blank, in order, each matched strictly |
| Urls.UrlLines | manager/routes.py:403 | one entry per line with text, so at most one per line; every entry has an http/https scheme and is stripped |
| Urls.UrlLinesMembers | manager/routes.py:403 | every line with text gives its `ensure_url` entry, and every entry is the `ensure_url` of a line with text |
| Urls.UrlLinesOneLine | manager/routes.py:403 | lines without a line break give entries without one |
| Urls.UrlLinesAppend | manager/routes.py:403 | the comprehension works line by line: the entries of two runs of lines are the entries of the first followed by those of the second |
| Urls.UrlLinesOne | manager/routes.py:403 | a single line gives its `ensure_url` entry when it has text and nothing when it is blank |
| Urls.Lines | manager/routes.py:403 | the lines of the CRLF-normalised text hold no line break, and putting the line breaks back between them gives the normalised text back |
| Urls.EditRedirects | manager/routes.py:401-403 | None exactly when the raw text is missing or empty; otherwise the entries for the lines with text of the CRLF-normalised text: every such line gives its entry, and every entry has a scheme, is stripped and is single-line |
| Metrics.HostKey | backend/monitoring.py:22 | the key is the instance label up to (excluding) its first colon: a colon-free prefix followed by a colon or the end |
| Metrics.Add | backend/monitoring.py:24-25 | adding a sample creates the host's entry if needed, raises the queried direction by the sample, and changes no other host or direction |
| Metrics.AccumulateKeys | backend/monitoring.py:21-25 | the loop over one result creates entries for exactly the hosts it names, besides the existing ones |
| Metrics.AccumulateSums | backend/monitoring.py:21-25 | per host, the queried direction grows by exactly the sum of that host's samples (from 0 for a new host); the other direction is untouched |
| Metrics.ReadPrefix | backend/monitoring.py:21-23 | the loop gets through exactly the leading samples that read as numbers and stops at the first that does not |
| Metrics.Collect | backend/monitoring.py:12-13 | with no metrics URL configured the map is empty |
| Metrics.Query | backend/monitoring.py:19-25 | one query's loop: a non-200 status adds nothing, a failed request or malformed body raises, and an unreadable sample raises after the earlier samples were added (equal to `Contribute`) |
| Metrics.AddSamples | backend/monitoring.py:21-25 | the loop over one result adds exactly the leading readable samples and raises exactly when it meets an unreadable one |
| Metrics.GetNetworkMetrics | backend/monitoring.py:10-40 | the map returned equals `Collect`: empty when unconfigured, else the receive query and, unless it raised, the transmit query |
| Metrics.CollectSums | backend/monitoring.py:15-35 | when both queries succeed, the keys are exactly the hosts named, and each host holds the sum of its receive samples as rx and of its transmit samples as tx |
| Metrics.ReceiveSurvivesTransmitFailure | backend/monitoring.py:27-40 | rates gathered by the receive query survive a transmit query that fails or returns a non-200 status |
| Metrics.UnreadableSampleEndsCollection | backend/monitoring.py:21-23 | an unreadable receive sample ends collection with what the earlier samples added and nothing from the transmit query |
| Alerts.Touch | backend/alerts.py:54-55 | a machine seen for the first time gets a cooldown record, with both kinds last sent at 0; no recorded time changes |
| Alerts.Stamp | backend/alerts.py:62 | only the (machine, kind) entry is set to the current time; other kinds and machines keep theirs |
| Alerts.MessageFor | backend/alerts.py:67-73 | the message names the machine and its host, and is the down text exactly for a down alert |
| Alerts.Decide | backend/alerts.py:82-95 | a down alert (value 0) exactly when offline with `notify_down`; a traffic alert exactly when online with `use_snmp` and `notify_traffic` and rx or tx strictly above the limit, reporting `max(rx, tx)`; no alert exactly when neither rule applies |
| Alerts.Dispatch | backend/alerts.py:49-80 | gate open (`now - last_sent > cooldown`, strict): stamp that entry, append one app alert with the kind's message, and mail it only when `notify_email` is set and SMTP is configured; gate closed: no alert row, no mail, last-sent unchanged |
| Alerts.DispatchKeepsGood | backend/alerts.py:57-62 | the gate keeps the invariant: alert rows of the same machine and kind are more than the cooldown apart, and every e-mail has a matching alert row |
| Alerts.CheckAlertsKeepsGood | backend/alerts.py:82-95 | `check_alerts` preserves the same invariant |
| Alerts.DownRepeatsWhileOffline | backend/alerts.py:86-87 | an unreachable machine with `notify_down` gets a down alert whenever the cooldown has run out, regardless of its stored status |
| Alerts.TrafficOncePerCooldown | backend/alerts.py:57-62 | two checks of a machine at most a cooldown apart write at most one alert between them |
| Alerts.AlertEngine.CreateAppAlert | backend/alerts.py:13-24 | appends exactly one row to the alert table |
| Alerts.AlertEngine.SendEmail | backend/alerts.py:26-47 | sends nothing unless both the SMTP server and the recipient are configured |
| Alerts.AlertEngine.ProcessAlert | backend/alerts.py:49-80 | the new state is `Dispatch` of the old one, and the invariant is kept |
| Alerts.AlertEngine.CheckAlerts | backend/alerts.py:82-95 | the new state is `CheckAlertsSpec` of the old one, and the invariant is kept |
| Monitoring.Observe | backend/monitoring.py:53-72 | online exactly when the probe answered; online: measured latency; rx/tx read from the metrics by host only when online with `use_snmp` (0 for a missing host), otherwise 0 |
| Monitoring.ObserveAll | backend/monitoring.py:49-72 | one observation per machine, each from its own probe |
| Monitoring.Refreshed | backend/monitoring.py:74-80 | every machine keeps its identity and settings; online/latency/rx/tx are the observation's (all 0 when offline), and last-seen is the cycle timestamp whether online or not |
| Monitoring.CycleRows | backend/monitoring.py:82-84 | one history row per machine, in table order, all with the cycle timestamp, "ONLINE" exactly when observed online, with the observed latency and rates |
| Monitoring.CycleRowsStep | backend/monitoring.py:82-84 | each machine's row is appended after the rows of the machines before it |
| Monitoring.AlertsAfterStep | backend/monitoring.py:86-87 | each machine's alert check follows those of the machines before it |
| Monitoring.AlertsAfterGood | backend/monitoring.py:49-87 | however many machines have been checked, alerts stay spaced by the cooldown and every e-mail is matched by an alert row, when that held before |
| Monitoring.Prune | backend/monitoring.py:90-91 | keeps, in order, exactly the rows with time at or after the cutoff (each with its multiplicity) and deletes the rest |
| Monitoring.FreshRowsSurvivePrune | backend/monitoring.py:82-91 | the cycle's own rows survive the prune when the prune clock is within the retention window of the cycle timestamp |
| Monitoring.PruneIdempotent | backend/monitoring.py:91 | pruning twice with one cutoff equals pruning once |
| Monitoring.Swept | backend/monitoring.py:74-80 | part way through the loop the machines keep their identities; before it nothing has changed and after it every machine is refreshed |
| Monitoring.Cycle | backend/monitoring.py:42-93 | one cycle keeps every machine in place with its identity; a failing write leaves both tables as they were; a committed cycle stamps every machine with the cycle timestamp; the alert invariant is kept |
| Monitoring.CycleKeepsOwnRows | backend/monitoring.py:82-91 | a committed cycle's history is the old history pruned, followed by the cycle's own rows, when the prune clock is within the retention window of the cycle timestamp |
| Monitoring.Cycles | backend/monitoring.py:95-102 | any run of cycles keeps every machine in place with its identity and keeps the alert invariant |
| Monitoring.CyclesStep | backend/monitoring.py:95-102 | one more turn of the loop is one more `Cycle` after the run so far |
| Monitoring.Monitor.UpdateMachinesStatus | backend/monitoring.py:42-93 | committed cycle: every machine refreshed, the history extended by one row per machine and pruned at the retention cutoff; a failing write: both tables as before, alerts of the machines already checked stand; returns whether the cycle committed; the new state is `Cycle` of the old |
| Monitoring.Monitor.Sweep | backend/monitoring.py:49-87 | the machine loop up to the first failing write: status update, history row and alert check per machine, in order |
| Monitoring.Monitor.Visit | backend/monitoring.py:50-87 | one machine's turn takes the table, the history and the alert state from the first `i` machines done to the first `i + 1` |
| Monitoring.Monitor.MonitorLoop | backend/monitoring.py:95-102 | the new state is `Cycles` of the old over the inputs, in order: a failing cycle is caught and the loop goes on; one outcome per cycle, true exactly when no write failed; it sleeps the ping interval after every cycle; machine identities are kept |
| Monitoring.Monitor.GuardedCycle | backend/monitoring.py:97-100 | one cycle inside the `try`: the new state is `Cycle` of the old, it fails exactly on a failing write, and the monitor stays ready for the next cycle |
| Actions.FullUserOutcome | manager/actions.py:15-41 | succeeds exactly when creation returns 200/201, a pk is returned and the password call returns 200/204; the account creation comes first; the mailbox is created exactly on success |
| Actions.FullUserRollsBack | manager/actions.py:19-36 | on failure, an account whose password was set is deleted as the last call; in particular an account created with a pk whose password was refused is deleted; the only account ever deleted is the one just created, and only on failure; a refused creation or one without a pk issues nothing more |
| Actions.CreateFullUser | manager/actions.py:15-41 | the calls issued and the outcome equal `FullUserCalls` |
| Actions.PrimaryFlow | manager/actions.py:59 | the implicit-consent flow exactly for mode "implicit", the explicit-consent flow otherwise |
| Actions.AuthFlow | manager/actions.py:61-63 | the requested flow when it is found, otherwise the explicit-consent flow (found or not); missing exactly when both are missing |
| Actions.Lookups | manager/actions.py:58-66 | three or four lookups, starting with the requested flow and ending with the property mappings |
| Actions.OidcAppOutcome | manager/actions.py:58-100 | fails before any provider is created exactly when neither flow is found; provider status other than 201 fails; success exactly when both creations return 201 |
| Actions.OidcAppNoOrphan | manager/actions.py:87-100 | a provider is left in place exactly on success; an application is only created under a created provider, with the slug; a failed application deletes its provider |
| Actions.CreateOidcApp | manager/actions.py:43-100 | a missing name raises before any call (`name.lower()`); otherwise the calls and outcome equal `OidcAppCalls` with the slug (or key) and the parsed redirect URIs |
| Actions.IssueOidcApp | manager/actions.py:58-100 | the lookups, provider, application and rollback calls equal `OidcAppCalls` |
| Routes.Delete | manager/routes.py:293-303 | refused, with no call, exactly for `akadmin` and `ak-outpost-*`; otherwise the account is deleted first and the mailbox deleted exactly when a user name was given |
| Routes.BindingMapSound | manager/routes.py:410-411 | the existing map's keys are exactly the bound groups, each mapped to the pk of one of its bindings |
| Routes.MapNamesBinding | manager/routes.py:410 | with distinct bindings, each group maps to its own binding's pk |
| Routes.Plan | manager/routes.py:413-414 | to-add and to-delete are disjoint; to-add is disjoint from the existing groups and to-delete is inside them; groups both existing and submitted are in neither; existing minus to-delete plus to-add is the submitted set |
| Routes.KeptIsUnplanned | manager/routes.py:416-418 | after the deletions, exactly the existing groups not planned for deletion are still bound |
| Routes.CreatedIsPlanned | manager/routes.py:420-421 | the creations bind exactly the groups planned for adding |
| Routes.ReconcileReachesSubmitted | manager/routes.py:410-421 | with distinct bindings, running the reconciliation leaves the application bound to exactly the submitted groups |
| Routes.DeletionsThenCreations | manager/routes.py:416-421 | the deletion loop followed by the creation loop has the reconciliation shape |
| Routes.DeleteBindings | manager/routes.py:416-418 | one deletion per group to delete, each of that group's mapped binding, and nothing else |
| Routes.CreateBindings | manager/routes.py:420-421 | one creation per group to add, on this application, and nothing else |
| Routes.SyncBindings | manager/routes.py:408-421 | the calls reconcile the existing bindings with the submitted groups; with distinct bindings the result is the submitted set |
| Routes.AppEdit | manager/routes.py:392-427 | the application is updated first with the normalised launch URL and redirect list; bindings are read and reconciled only when the update returned 200 |
| Routes.ChooseToken | manager/routes.py:215 | the query token when it is non-empty, else the form token |
| Routes.Screen | manager/routes.py:215-239 | in order: missing token 400; unknown or used token 403; GET shows the form with no notice; a mismatch is reported before the length; a POST with neither password field is a server error; a password shorter than 8 shows the form with the too-short notice; acceptance exactly when every check passes |
| Routes.MismatchBeforeLength | manager/routes.py:231-239 | a password differing from its confirmation is reported as a mismatch, whatever its length |
| Routes.InviteUsedOnce | manager/routes.py:223 | a used invite token is refused with 403 |
| Routes.InviteStore.Register | manager/routes.py:213-252 | a rejected request issues no call and leaves the invites unchanged; otherwise the account is created with the user name as login and display name, the mail-domain address and the invite's group; the invite is marked used exactly when that succeeded |
| Routes.VisibleUsers | manager/routes.py:149-150 | with a signed-in user, every row of that user name is removed and every other row kept; without one, nothing is removed |
| Routes.VisibleGroups | manager/routes.py:153-161 | exactly the groups named neither `authentik Admins`, `authentik Read-only` nor one of the user's roles are listed |
| Routes.VisibleApps | manager/routes.py:164 | exactly the applications whose client id (the provider's, or "-" without one) differs from the manager's own are listed |
| Routes.VisibleProviders | manager/routes.py:165 | the providers filter keeps exactly the providers whose client id differs from the manager's own; the page never shows this list |
| Routes.IndexFindsProvider | manager/routes.py:108 | with distinct provider pks, the index maps each provider's pk to that provider |
| Routes.AppKeptWithItsProvider | manager/routes.py:108-165 | an application bound to a provider is kept by the applications filter exactly when that provider is kept by the providers filter |

## Left out

- Probing: the `ping` subprocess, its platform flag and the wall-clock latency measurement are replaced by a `Probe` input per machine. A ping that raises is a `Silent` probe.
- Metrics HTTP: the Prometheus HTTP requests are replaced by a `Reply` input per query.
- Floating point: samples are integers, so `float(...)`, the `/ 1000` conversion to Kbps and `round(..., 2)` of rates and latency are not modelled. The threshold comparison is on those integers.
- Alert message text: the text and the Mbps figure are kept as a `Message` value, and the e-mail subject is determined by the kind and the machine.
- SMTP: the session and its login are left out. An e-mail handed to a configured server counts as sent.
- Alert threads: the alert-row insert and the e-mail run synchronously, in order, instead of in background threads.
- Failed alert-row inserts: the insert's own error handling is left out, so the row is always written.
- Alert row time: the row carries the gate's clock reading, not a second reading taken at insert time.
- Database faults: a failing database write is the `storeFault` input. It ends the cycle and the uncommitted changes are lost. Other exceptions inside the cycle are not distinguished from it.
- Monitoring.Monitor.MonitorLoop: models a finite sequence of cycles, not `while True`. Sleeping is counted, not performed.
- Alerts.Dispatch: the cooldown setting is a natural number. A negative `ALERT_COOLDOWN` from the environment is not modelled.
- Clock: the cycle timestamp, the gate clock per machine and the prune clock are inputs, and are not required to be related.
- Timestamp formatting: `strftime` strings are integers of seconds.
- Text: `lower()` is modelled on ASCII letters only; Unicode case mapping is not modelled.
- Random keys: `generate_authentik_key` randomness is the `Keys` input. It is required to have the lengths the source draws.
- Remote services: the identity-provider and mail-server wrappers (manager/integrations) are represented only by the `Call` trace and the replies.
- Replies the manager does not branch on are not modelled: the mailbox result, error texts and flash messages.
- Routes.Screen: a POST with no password and no confirmation reaches `len(None)`, which raises. That case is modelled as a server error page (500).
- Routes.ReconcileReachesSubmitted: assumes bindings that repeat neither a pk nor a group. When a group is bound twice, the map keeps only the later binding, so the earlier one is never deleted.
- Other manager routes: `login`, `callback`, `logout`, `invite`, `create`, `edit_user`, the group routes, `app_create`, `app_delete` and the groups API are not part of this model. The binding lookups and endpoint discovery that only decorate the dashboard are not part of it either.
- Machine table between cycles: every cycle works on the same machines. Machines added or deleted between cycles, which the source would pick up when it re-reads the table at the start of each cycle, are not modelled.
- Dashboard providers: `dashboard` computes the filtered provider list and then does not pass it to the page. The model keeps the filter (`Routes.VisibleProviders`) but nothing shows it.
- Backend: the CRUD routes, LDAP/OIDC services and Turnstile checks are not part of this model. Neither are the gateway (app/server.js) and the front-end scripts.
