# dev-box-provisioner, modelled in Dafny

The dev-box provisioner keeps a fleet of Hetzner Cloud servers ("dev boxes")
in line with a desired-state file, `dev_boxes.yml`. Each record of that file
names a GitHub user (`key`), a server `name` and an expiry date (`until`).
Four scripts act on it:

- `provision.py` validates each record, refuses a file with more than
  `max_servers` records, and for each valid record that has no server yet
  ensures the owner's SSH key (`<user>-github-key`, taken from
  `github.com/<user>.keys`) and creates the server. The new server carries the
  labels `managed-by=dev-box-provisioner`, `owner` and `expires`.
- `teardown.py` deletes every managed server whose name is not in the file.
- `scripts/teardown.py` deletes every managed server that is not in the file,
  or whose `until` date in the file has passed. A later record with the same
  name overrides an earlier one.
- `expiry-cleanup.py` deletes every managed server whose `expires` label lies
  strictly before today, removes the SSH keys labelled `server=<name>` for
  each deleted server, and counts the deletions.

The model is split into these modules:

| file | module | contents |
|---|---|---|
| `wrappers.dfy` | `Wrappers` | `Option` |
| `dates.dfy` | `Dates` | calendar dates; `strptime(s, '%Y-%m-%d')` as `ParseDate`; `str(date)` as `FormatDate` |
| `validation.dfy` | `Validation` | the two regular-expression checks, the SSH key name, the first key line, the server id read from the create output |
| `desired.dfy` | `Desired` | records of the file as `yaml.safe_load` hands them over; Python truthiness; the `str()` conversion of `until` |
| `cloud.dfy` | `Cloud` | an in-memory stand-in for every `hcloud` and `curl` call. The `FakeCloud` class holds the servers, the SSH keys and the next id. Its methods are specified by pure functions on a `State` value. An `Oracle` decides which calls fail. |
| `provision.dfy` | `Provision` | the admission rules, the quota gate and the per-record loop of `provision.py` |
| `teardown.dfy` | `Teardown` | `teardown.py` |
| `expired_teardown.dfy` | `TeardownWithExpiry` | `scripts/teardown.py` |
| `expiry_cleanup.dfy` | `ExpiryCleanup` | `expiry-cleanup.py` |

Each script's pure decisions are functions, with lemmas about them. Each loop
is a method over `FakeCloud` whose `ensures` ties the final state to those
functions.

Behaviour of the scripts worth noting, all of it modelled as written:

- Records with a duplicate name: in `scripts/teardown.py` the later record
  wins (`TeardownWithExpiry.LastEntryWins`).
- Each deleting script is its own program with its own selection rule:
  `teardown.py` looks only at names, `scripts/teardown.py` at names and
  `until`, `expiry-cleanup.py` only at the `expires` label.
- A record whose `name` is a non-empty YAML list or mapping makes both
  teardown scripts exit 1 before anything is deleted, because such a value cannot be a set
  element or a dict key.
- `is_valid_date` checks only the shape of the date, so `2024-13-40` is
  admitted by `provision.py`. `Provision.ImpossibleDateAdmitted` shows this.
  Such a date can never parse, so neither expiry script ever deletes that
  server for being expired (`ExpiryCleanup.ImpossibleDateNeverExpires`,
  `TeardownWithExpiry.UnparseableUntilKept`).
- SSH keys that `provision.py` creates carry no labels. So the key cleanup of
  `expiry-cleanup.py`, which looks for `server=<name>`, never removes them
  (`ExpiryCleanup.ProvisionedKeyNotCleanedUp`).

## Model

| member | source | states |
|---|---|---|
| Dates.ParseDate | expiry-cleanup.py:35-39 | whatever `strptime(..., '%Y-%m-%d')` accepts is a real calendar date with a year from 1 to 9999 |
| Dates.ParseFormatRoundTrip | scripts/teardown.py:25-26 | a YAML date turned into text by `str()` parses back to the same date |
| Dates.PreviousDay | expiry-cleanup.py:41 | the day before a date is valid, is earlier, and no valid date lies between the two |
| Dates.ExpiringTodayIsNotBefore | expiry-cleanup.py:41 | the comparison `expiry_date < today` is strict: no date is before itself |
| Dates.BeforeIsStrictTotalOrder | scripts/teardown.py:56 | the date comparison is a strict total order: of two different dates exactly one comes first, and it is transitive |
| Dates.FormatDate | scripts/teardown.py:25-26 | `str(date)` is ten characters; `Dates.ParseFormatRoundTrip` and `Validation.FormattedDateHasShape` state that it spells the date back |
| Validation.IsValidIdentifier | provision.py:19-20 | `re.match(r'^[a-zA-Z0-9_-]+$', value)`, with the final-newline quirk of `$`; its meaning is stated by `EmptyIdentifierRejected`, `IdentifierCharacters` and `TrailingNewlineAccepted` |
| Validation.IsValidDateShape | provision.py:23-24 | `re.match(r'^\d{4}-\d{2}-\d{2}$', str(value))`; its meaning is stated by `ShapeAndParseAgree`, `ShapeAdmitsImpossibleDate` and `FormattedDateHasShape` |
| Validation.SshKeyName | provision.py:116 | `f"{key}-github-key"`; `SshKeyNameInjective` and `SshKeyNameIsIdentifier` state its properties |
| Validation.ParseServerId | provision.py:158-161 | the second whitespace-separated token when it is all digits; `ServerIdFromCreateOutput` states what it yields on `hcloud` output |
| Validation.EmptyIdentifierRejected | provision.py:19-20 | `is_valid_identifier` rejects the empty string |
| Validation.IdentifierCharacters | provision.py:19-20 | an accepted identifier is non-empty and made of `[A-Za-z0-9_-]`, except possibly one final newline |
| Validation.TrailingNewlineAccepted | provision.py:19-24 | because `$` matches before a final newline, both checks accept one trailing newline, and both refuse two |
| Validation.ShapeAndParseAgree | provision.py:23-24 | on text of the shape `NNNN-NN-NN`, `strptime` succeeds exactly when the numbers form a calendar date, and then yields those numbers |
| Validation.ShapeAdmitsImpossibleDate | provision.py:23-24 | `is_valid_date` accepts `2024-13-40`, which `strptime` rejects |
| Validation.ParseAcceptsShortFields | expiry-cleanup.py:36 | `strptime` accepts one-digit month and day fields and a space-padded day, which the shape check refuses; a space-padded month does not parse |
| Validation.FormattedDateHasShape | provision.py:80-82 | a YAML date turned into text always passes the date check and spells the same date |
| Validation.SshKeyNameInjective | provision.py:116 | two different users never share a `<user>-github-key` name |
| Validation.SshKeyNameIsIdentifier | provision.py:116 | the key name of a valid user without a trailing newline is itself a valid identifier |
| Validation.FirstLine | provision.py:121 | `split('\n')[0]` returns the prefix up to the first newline, and that prefix contains no newline |
| Validation.Words | provision.py:159 | `str.split()` yields non-empty tokens free of whitespace; `LeadingBlanksDropped`, `BlanksThenWord` and `SplitInterleaved` state which tokens |
| Validation.LeadingBlanksDropped | provision.py:159 | blanks before the text do not change its tokens, and text of blanks only has none |
| Validation.BlanksThenWord | provision.py:159 | blanks, then a word ending at a blank or at the end: that word is the first token, followed by the tokens of the rest |
| Validation.SplitInterleaved | provision.py:159 | text made of words separated by non-empty runs of blanks, with optional blanks at either end, splits into exactly those words, in order |
| Validation.ServerIdFromCreateOutput | provision.py:158-161 | for output `Server <digits> ...` the extracted server id is exactly those digits |
| Desired.Stringified | provision.py:80-82 | a truthy non-string `until` becomes the string its `str()` renders; a string or a falsy value is unchanged; a truthy result is a non-empty string |
| Cloud.CreateServerIn | provision.py:139-153 | creating a server succeeds exactly when the call is not failed and the name is free; it then adds exactly the server with the next id, name, labels and key, and otherwise changes nothing; the project stays well formed and the keys are untouched |
| Cloud.CreateKeyIn | provision.py:122-125 | creating a key succeeds exactly when the call is not failed and the name is free; it then adds exactly that key, unlabelled, and otherwise changes nothing; the project stays well formed and the servers are untouched |
| Cloud.Managed | teardown.py:27-33 | `hcloud server list -l managed-by=dev-box-provisioner` lists the servers carrying that label; `Cloud.FakeCloud.ListManaged` states the listing |
| Cloud.KeysLabelled | expiry-cleanup.py:53 | the keys carrying the label `server=<name>`; `Cloud.FakeCloud.ListKeysLabelled` states the listing |
| Cloud.DeleteServerIn | expiry-cleanup.py:45-48 | a server delete succeeds exactly when the call is not failed and some server matches; it removes exactly the matching servers, changes no other server and keeps the keys and the next id |
| Cloud.DeleteKeyIn | expiry-cleanup.py:57 | a key delete succeeds exactly when the call is not failed and the key exists; it removes exactly that key, changes no other key and keeps the servers and the next id |
| Cloud.FakeCloud.ListManaged | expiry-cleanup.py:17-22 | the managed-server listing either fails with no output, or lists every server labelled `managed-by=dev-box-provisioner` exactly once |
| Cloud.FakeCloud.ServerNameListed | provision.py:102-103 | the `grep -x` over server names prints something exactly when the listing works and the name is taken |
| Cloud.FakeCloud.KeyNameListed | provision.py:117-119 | the `grep -x` over key names prints something exactly when the listing works and the key exists |
| Cloud.FakeCloud.FetchGithubKeys | provision.py:108-111 | the key fetch succeeds exactly when GitHub serves non-empty text for the user, and returns that text |
| Cloud.FakeCloud.CreateKey | provision.py:122-125 | `hcloud ssh-key create` changes the project as `CreateKeyIn` says |
| Cloud.FakeCloud.CreateServer | provision.py:139-153 | `hcloud server create` changes the project as `CreateServerIn` says, and prints the new id |
| Cloud.FakeCloud.DeleteServer | teardown.py:50-53 | `hcloud server delete` changes the project as `DeleteServerIn` says |
| Cloud.FakeCloud.ListKeysLabelled | expiry-cleanup.py:53-55 | the labelled-key listing names each key labelled `server=<name>` once, and none when the listing fails |
| Cloud.FakeCloud.DeleteKey | expiry-cleanup.py:57 | `hcloud ssh-key delete` changes the project as `DeleteKeyIn` says |
| Provision.Admit | provision.py:76-98 | the skip and validation rules for one record; `AdmissionRules` states them in both directions |
| Provision.ServerLabels | provision.py:146-148 | the labels `managed-by=dev-box-provisioner`, `owner` and `expires`; `BoxStepEffect` and `CreatedServersMatchEntries` state that every created server carries them |
| Provision.Step | provision.py:75-98 | one record: TypeError, skip, or `BoxStep`; `OutcomesAligned` states which |
| Provision.ProvisionEntries | provision.py:75-161 | the per-record loop; `OutcomesAligned`, `NothingRemovedNothingDuplicated` and the Created* lemmas state what it does |
| Provision.ProvisionRun | provision.py:58-98 | empty-file exit, quota gate, then the loop; `QuotaGate` and `ProvisionIdempotent` state its properties |
| Provision.BoxStep | provision.py:102-161 | an admitted record is never reported as skipped for validation; what it changes is stated by `BoxStepEffect` |
| Provision.ProvisionBox | provision.py:102-161 | the existence check, key fetch, key reuse or creation, server creation and id parsing for one record leave the project and the outcome that `BoxStep` gives |
| Provision.ProvisionBoxes | provision.py:58-98 | the whole run (empty-file exit, quota gate, per-record loop) ends in the state, exit code and outcomes that `ProvisionRun` gives |
| Provision.AdmissionRules | provision.py:75-98 | a record is admitted exactly when `key`, `name` and `until` are present and `key` and `name` are valid identifiers and `until` has the date shape; a missing or empty field skips it; the record raises TypeError exactly when all three fields are truthy and `key` is not a string, or `key` is a valid identifier and `name` is not a string |
| Provision.YamlDateUntilAdmitted | provision.py:80-82 | a record whose `until` is a YAML date is admitted with that date in ISO text |
| Provision.ImpossibleDateAdmitted | provision.py:96-98 | the record `alice`, `dev1`, `2024-13-40` is admitted |
| Provision.OutcomesAligned | provision.py:75-98 | outcome i belongs to record i; a rejected record does not stop the loop; the loop stops early only at a non-string key or name, which raises TypeError |
| Provision.QuotaGate | provision.py:61-71 | an empty file exits 0 and a file over `max_servers` exits 1, both with nothing done; a file at or under the quota is processed and exits 0 unless a TypeError is raised |
| Provision.DryRunChangesNothing | provision.py:102-137 | a dry run changes nothing and reports every admitted record as one it would create |
| Provision.BoxStepEffect | provision.py:116-153 | one admitted record creates at most the server with the next id, carrying its name, labels and owner key, and reports that id; it creates at most its owner's key, and only when that key's creation succeeds |
| Provision.NothingRemovedNothingDuplicated | provision.py:75-153 | a run never removes or changes an existing server or key, and server names stay unique |
| Provision.CreatedServersMatchEntries | provision.py:139-161 | every server the run adds belongs to an admitted record, carries that record's name and labels, and that record reports it as created with its id |
| Provision.CreatedKeysMatchEntries | provision.py:116-125 | every key the run adds is `<user>-github-key` of an admitted record's user and holds the first line of that user's GitHub keys |
| Provision.ExistingServerNeverDuplicated | provision.py:102-105 | a server present before the run is still there unchanged, and is the only server with its name afterwards |
| Provision.ListedNameSkipped | provision.py:102-105 | in a real run, a record whose name the server list shows is skipped and nothing is created |
| Provision.ListedKeyReused | provision.py:116-119 | when the key list shows `<user>-github-key`, the key is reused and no key is created |
| Provision.RunKeysCreatable | provision.py:116-125 | every key a run adds is one whose `hcloud ssh-key create` call succeeded |
| Provision.FirstRunLeaves | provision.py:102-153 | once a record gets past the existence check and the key fetch, any project grown from its result holds the owner's key unless that key's creation fails; when that key can be reused, the project also holds a server of the record's name unless that server's creation fails |
| Provision.RerunBoxStable | provision.py:102-153 | running a record again against a project that already holds what its first run produced changes nothing and creates no server |
| Provision.RerunStable | provision.py:75-153 | running the loop again against a project that holds the first run's result, plus only keys whose creation succeeds, leaves that project as it is, creates no server and aborts exactly when the first run did |
| Provision.ProvisionIdempotent | provision.py:58-153 | provisioning the same file a second time, with every call answering as it did the first time, changes nothing, creates no server and exits with the same code |
| Teardown.DesiredNames | teardown.py:19 | `current_names`: the non-empty string names of the records; `UnlistedSelection` states membership |
| Teardown.ManagedNames | teardown.py:33 | `managed_names`: the non-empty names of the listed servers; `UnlistedSelection` states membership |
| Teardown.Unlisted | teardown.py:38 | `managed_names - current_names`; `UnlistedSelection` states it in both directions |
| Teardown.TeardownUnlisted | teardown.py:14-54 | a truthy name that cannot be a set element exits 1 with nothing done; otherwise the exit code is 0 and the deleted names are exactly the named managed servers missing from the file, minus the failed deletes; a failed listing deletes nothing; unmanaged servers and keys are untouched |
| Teardown.ReadDesiredNames | teardown.py:16-22 | collecting `current_names` fails exactly when some truthy name cannot be a set element, and otherwise yields `DesiredNames` |
| Teardown.DeleteNamed | teardown.py:46-54 | every name is tried; the failures are exactly the names whose delete call fails; all other named servers are gone and nothing else changes |
| Teardown.UnlistedSelection | teardown.py:19-38 | a name is selected exactly when some listed server bears it and no record of the file does |
| Teardown.EmptyFileSelectsAll | teardown.py:19-38 | with an empty or null file, every named managed server is selected |
| Teardown.ExpiryPlaysNoPart | teardown.py:19-38 | records that differ only in `key` and `until` give the same selection |
| Teardown.UnmanagedServersSurvive | teardown.py:27-38 | deleting managed names never removes or changes an unmanaged server |
| Teardown.DesiredServersKept | teardown.py:38 | a server whose name is in the file is never deleted |
| TeardownWithExpiry.BoxesByName | scripts/teardown.py:20-27 | the map's keys are truthy names, and its truthy values are strings |
| TeardownWithExpiry.BuildBoxesByName | scripts/teardown.py:17-30 | the loop fails exactly when some truthy name cannot be a dict key, and otherwise builds exactly the map `BoxesByName` describes |
| TeardownWithExpiry.BoxesByNameKeys | scripts/teardown.py:20-27 | a string name is a key of the map exactly when some record has it as a non-empty name |
| TeardownWithExpiry.LastEntryWins | scripts/teardown.py:20-27 | the value stored under a name is the `until` of the last record with that name |
| TeardownWithExpiry.DuplicateNameLaterWins | scripts/teardown.py:20-27 | with records `dev1 until 2020-01-01` then `dev1 until 2999-01-01`, the server is kept; in the other order it is selected as expired |
| TeardownWithExpiry.SelectForDeletion | scripts/teardown.py:45-59 | `to_delete` lists each selected managed name once, with its reason |
| TeardownWithExpiry.Verdict | scripts/teardown.py:48-59 | the verdict on one managed name; `VerdictCases` states both reasons in both directions |
| TeardownWithExpiry.Selection | scripts/teardown.py:46-59 | `to_delete` as a map from name to reason; `SelectForDeletion` and `UnlistedOrExpired` state it |
| TeardownWithExpiry.Doomed | scripts/teardown.py:17-59 | the selection from the file and the listed servers; `UnlistedOrExpired` states it in both directions |
| TeardownWithExpiry.TeardownExpired | scripts/teardown.py:15-73 | a name that cannot be a dict key exits 1 with nothing done; otherwise the exit code is 0 and the run selects exactly the managed names with a verdict, tries each, and removes all but the failed ones; a failed listing deletes nothing; keys and unmanaged servers are untouched |
| TeardownWithExpiry.VerdictCases | scripts/teardown.py:48-59 | a name is selected as "not in YAML" exactly when it is missing from the map, and as "expired on" exactly when its `until` parses to a date before today |
| TeardownWithExpiry.ExpiringTodayKept | scripts/teardown.py:53-57 | a server whose `until` is today is kept |
| TeardownWithExpiry.ExpiredYesterdaySelected | scripts/teardown.py:53-57 | a server whose `until` was yesterday is selected |
| TeardownWithExpiry.UnparseableUntilKept | scripts/teardown.py:53-59 | a listed server whose `until` is missing or does not parse is never selected |
| TeardownWithExpiry.YamlDateUntil | scripts/teardown.py:24-26 | a YAML date in `until` selects the server exactly when it lies before today |
| TeardownWithExpiry.UnlistedOrExpired | scripts/teardown.py:41-59 | the selection is `teardown.py`'s selection plus the listed names whose date has passed; an unlisted name is always selected as "not in YAML" |
| ExpiryCleanup.DeleteKeysOf | expiry-cleanup.py:52-58 | after a server is deleted, exactly the non-empty keys labelled `server=<name>` whose delete succeeds are removed; servers are untouched |
| ExpiryCleanup.CleanupListed | expiry-cleanup.py:26-62 | the loop removes exactly the expired listed servers whose delete succeeds, and their labelled keys; `deleted_count` is their number |
| ExpiryCleanup.Cleanup | expiry-cleanup.py:13-64 | the run removes exactly the expired managed servers whose delete succeeds, and then their labelled keys; `deleted_count` equals the number of servers that disappeared |
| ExpiryCleanup.Classify | expiry-cleanup.py:29-41 | no label, invalid label, still valid or expired; `ExpiredExactly` states when a server is expired |
| ExpiryCleanup.KeysGone | expiry-cleanup.py:52-58 | the keys the cleanup of the given server names removes; `DeleteKeysOf` states the removal |
| ExpiryCleanup.Gone | expiry-cleanup.py:17-48 | the ids of the servers the run deletes; `GoneExactly` states it in both directions |
| ExpiryCleanup.GoneNames | expiry-cleanup.py:17-58 | the names of those servers, whose labelled keys are cleaned up; `Cleanup` states the result |
| ExpiryCleanup.ExpiredExactly | expiry-cleanup.py:29-41 | a server is expired exactly when its `expires` label parses as a date strictly before today |
| ExpiryCleanup.ExpiringTodayStillValid | expiry-cleanup.py:41-62 | a server expiring today is reported as still valid |
| ExpiryCleanup.ExpiredYesterday | expiry-cleanup.py:41 | a server that expired yesterday is expired |
| ExpiryCleanup.GoneExactly | expiry-cleanup.py:17-48 | a server is deleted exactly when the listing works, it is managed and expired, and its delete call succeeds; every other server survives |
| ExpiryCleanup.CountIsServersRemoved | expiry-cleanup.py:45-60 | the number of deleted ids is the number of servers that disappeared |
| ExpiryCleanup.ProvisionedKeyNotCleanedUp | expiry-cleanup.py:52-57 | a key created as `provision.py` creates it is never removed by the key cleanup |
| ExpiryCleanup.ImpossibleDateNeverExpires | expiry-cleanup.py:35-39 | a label of date shape that is no calendar date, such as the one `provision.py` admits, is reported invalid and never expires |

## Left out

- Running `hcloud`, `curl` and the shell is not modelled. Each call is a method of `FakeCloud`, and the `Oracle` decides its success. Exit statuses and output text are reduced to what the scripts test.
- YAML and JSON parsing, `argparse`, reading `config.yml`, and the check that `cloud-init.yaml` exists are not modelled. The records arrive as `Entry` values, and `max_servers` is a parameter.
- A desired-state file that is not a list, or a record that is not a mapping, makes the scripts fail. Those inputs are not modelled.
- All `print` output is not modelled. That includes the dry-run banners and the dry-run probes of server type and location (provision.py:129-137).
- After a server is created, `provision.py` looks up its IP with `hcloud server describe`. This is not modelled; the model stops at the parsed server id.
- The date and time of day are not modelled. `datetime.now`/`utcnow` is the parameter `today`.
- Python's `\d` and `str.isdigit` also accept non-ASCII digits. `ParseDate`, `IsValidDateShape` and `ParseServerId` accept only ASCII digits. The whitespace `str.split` splits on is modelled in full.
- Shell quoting is not modelled. Where a command embeds a name, the model assumes the shell passes the name through unchanged. In reality a name starting with `-` would be read by `grep` as an option, and a name with an embedded final newline would break the command.
- The names that key listings print are assumed to contain no newline or surrounding blanks, which `strip()` and `split('\n')` would mangle.
- Python does not require a record's `name` to be a string. The model gives a non-string name that can be a set element no match with any server name, because JSON server names are strings. Whether a YAML value can be a set element or a dict key is given as a flag of the value, not derived from its type.
- Listing order and set iteration order are not modelled. Listings return each element once in an unspecified order, and the deleting loops pick names in an unspecified order. The final state does not depend on the order.
- Cloud.FakeCloud.ListManaged: the JSON is reduced to the server records; the order the listing prints them in is not fixed.
- TeardownWithExpiry.TeardownExpired: the delete loop over the `to_delete` list is modelled by the same set-driven loop as `teardown.py` (`Teardown.DeleteNamed`) over the selected names. Names in `to_delete` are distinct, so the outcome is the same.
- Provision.BoxStep: its own contract states only that it never yields a validation skip. Its effect on the project is stated by `Provision.BoxStepEffect`, `Provision.CreatedServersMatchEntries` and `Provision.CreatedKeysMatchEntries`.
- Teardown.UnmanagedServersSurvive: `hcloud server delete '<name>'` is modelled as resolving its argument only as a server name (`Cloud.ServerRef.ByName`). The real command takes an id or a name. An all-digit box name such as `42` passes `is_valid_identifier`, and the command could resolve it as the id of some other server, managed or not. The lemma, and the clauses of `Teardown.TeardownUnlisted` and `TeardownWithExpiry.TeardownExpired` that say unmanaged servers survive, rest on the by-name reading.
- Teardown.TeardownUnlisted: see the line above. The delete by name never reaches a server through its id.
- TeardownWithExpiry.TeardownExpired: the same by-name reading of `hcloud server delete`.
- ExpiryCleanup.Cleanup: the `Oracle` gives one answer per kind of call for the whole run. `keyListWorks` decides every `hcloud ssh-key list -l server=<name>` call at once. A run in which that listing fails for one deleted server and works for the next is not modelled, and the exact key result is proved only for runs where every such call answers alike.
- Provision.ProvisionBoxes: in the same way, the per-record `hcloud server list` and `hcloud ssh-key list` calls (`serverListWorks`, `keyListWorks`) and each user's GitHub fetch answer alike throughout one run. A call that fails for one record and works for a later one is not modelled.
- Provision.ProvisionIdempotent: stated only for a second run whose calls answer exactly as in the first, with the same `Oracle`. If a call that failed the first time succeeds the second time, such as a GitHub fetch, the second run does create servers.
