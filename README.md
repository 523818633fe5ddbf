# Presence leases of `here`, in Dafny

`here` lets clients announce their presence (an account, an optional
password digest and the addresses they see) to a registry, and lets anyone
look up the last presence of an account. A presence entry is a lease: it
is stored with the server's default lifetime and a background reaper
removes it once that lifetime has passed.

This project models the sequential core of that protocol:

- `Common` (`common.dfy`): the `Option` and `Result` wrappers, the
  milliseconds-per-second constant and the `u64`/`u128` ranges shared by
  every component.
- `UtilsClient` (`utils_client.dfy`): the presence record
  `ClientInfo`, its builder with the optional password digest, the
  address split of `set_ips` (a loop, proved against `Ipv4sOf`/`Ipv6sOf`),
  and password verification. SHA-256 is a `Digest` parameter: any
  deterministic function.
- `UtilsServer` (`utils_server.dfy`): the lookup and registration responses,
  their constructors and one-field setters, and the laws of the setters.
- `Storage` (`storage.dfy`): the lease record, the strict `is_outdated`
  test, the dumps file (`DumpFile`) and an opened database handle
  (`Database`) whose changes reach the file only through `DumpDb`, and one
  reaper pass `CleanOutdated`.
- `Restful` (`restful.dfy`): the handlers. The lookup is split into the
  open-and-query step (`GetClientInfo`) and its pure decision chain
  (`GetClientInfoReply`); registration (`PostClientInfo`) runs open, add,
  dump and stops at the first failure.
- `Reaper` (`server_main.dfy`): the cleaning thread as a loop over clock
  readings and store failures, recording each pause in milliseconds.
- `ClientConfig` and `Agent` (`client_config.dfy`, `client_main.dfy`): the
  trimming and password decisions of the configuration prompts, the probe
  loop and the registration loop of the client.
- `Scenarios` (`scenarios.dfy`): registration, lookup and reaping composed
  on one dumps file.

Time is integer milliseconds; lifetimes stay in whole seconds as in the
source. Failures of the environment (a store that cannot be opened, an add,
remove or dump that fails, a request that gets no reply, an address lookup
that fails) are inputs of the operations.

Behaviour of the code that a reader might not expect, and that the model keeps:

- The client draws a fresh random session id on every registration pass,
  not once per process (client/src/main.rs:58).
- A lookup without a password on an unprotected record answers 200 with no
  record data (server/src/restful.rs:111-115).
- The lookup takes whichever matching record the database library returns;
  the library is not part of this model, so that is any matching record,
  not the first inserted.
- A registration the server fails (open, add or dump, answered 500) still
  carries a decodable response with lifetime 0; the client does not check
  the status, takes it as a success and posts again without pausing
  (server/src/restful.rs:145-168, client/src/main.rs:63-67).
- The reaper picks its record by the stored lifetime being equal to the
  default lifetime, and compares the elapsed time with that parameter
  (server/src/storage.rs:40-47, 64-71).

## Model

| member | source | states |
|---|---|---|
| `UtilsClient.New` | utils/src/client.rs:15-23 | copies id and account, no password, both address lists empty |
| `UtilsClient.Builder` | utils/src/client.rs:25-37 | a `New` record whose password is the digest of the plaintext when one is given and absent otherwise; the given plaintext then verifies against it (round trip) |
| `UtilsClient.ClientInfo.VerifyPasswd` | utils/src/client.rs:53-61 | true exactly when the stored password is the digest of the plaintext; false for every plaintext when no password is stored |
| `UtilsClient.SetIps` | utils/src/client.rs:41-49 | appends the IPv4 addresses to `ipv4s` and the IPv6 addresses to `ipv6s` in input order without deduplication; id, account and password unchanged; total length grows by the number of addresses |
| `UtilsClient.SplitCount` | utils/src/client.rs:42-47 | every address lands in exactly one of the two lists |
| `UtilsClient.SplitAppend` | utils/src/client.rs:42-47 | the split of a concatenation is the concatenation of the splits (input order is kept) |
| `UtilsClient.Ipv4sOfMembers` | utils/src/client.rs:44 | an address is in the IPv4 list exactly when it was given as an IPv4 address |
| `UtilsClient.Ipv6sOfMembers` | utils/src/client.rs:45 | an address is in the IPv6 list exactly when it was given as an IPv6 address |
| `UtilsServer.GetClientInfoResponse.New` | utils/src/server.rs:24-33 | echoes id, account and password; not ok, no message, no data |
| `UtilsServer.GetClientInfoResponse.SetOk` | utils/src/server.rs:35-38 | sets `is_ok` and changes no other field |
| `UtilsServer.GetClientInfoResponse.SetMessage` | utils/src/server.rs:40-43 | sets `message` and changes no other field |
| `UtilsServer.GetClientInfoResponse.SetId` | utils/src/server.rs:45-48 | sets `id` and changes no other field |
| `UtilsServer.GetClientInfoResponse.SetData` | utils/src/server.rs:50-53 | stores the record as present data and changes no other field |
| `UtilsServer.PostClientInfoResponse.New` | utils/src/server.rs:67-76 | echoes id, account and password; not ok, no message, lifetime 0 |
| `UtilsServer.PostClientInfoResponse.SetOk` | utils/src/server.rs:78-81 | sets `is_ok` and changes no other field |
| `UtilsServer.PostClientInfoResponse.SetMessage` | utils/src/server.rs:83-86 | sets `message` and changes no other field |
| `UtilsServer.PostClientInfoResponse.SetLifetime` | utils/src/server.rs:88-95 | the getter `lifetime()` returns the value set; no other field changes |
| `UtilsServer.GetSettersCommute` | utils/src/server.rs:35-53 | setters of different fields of a lookup response commute |
| `UtilsServer.GetSettersLastWins` | utils/src/server.rs:35-53 | setting a field of a lookup response twice keeps the last value |
| `UtilsServer.PostSettersCommute` | utils/src/server.rs:78-91 | setters of different fields of a registration response commute |
| `UtilsServer.PostSettersLastWins` | utils/src/server.rs:78-91 | setting a field of a registration response twice keeps the last value |
| `Storage.NewRecord` | server/src/storage.rs:23-29 | stores the given record and lifetime, stamped with the current time |
| `Storage.IsOutdated` | server/src/storage.rs:62-71 | the elapsed time, as whole seconds then the fraction of a second, is strictly greater than `lifetime` whole seconds; outdated implies strictly later than the record time; with lifetime 0 any later clock reading is outdated |
| `Storage.OutdatedIsStrict` | server/src/storage.rs:64-71 | elapsed time exactly equal to the lifetime is not outdated; one millisecond more is |
| `Storage.OutdatedIsMonotone` | server/src/storage.rs:64-71 | a record outdated at some time stays outdated at every later time |
| `Storage.DumpFile.constructor` | server/src/restful.rs:31-32 | a dumps file holding the given records |
| `Storage.Database.Load` | server/src/storage.rs:35-38 | an opened handle holds exactly the file's records |
| `Storage.AutoFrom` | server/src/storage.rs:35-38 | opening fails exactly when the environment says so; otherwise a fresh handle with the file's records |
| `Storage.Database.AddItem` | server/src/restful.rs:153 | on success the record is added to the handle only; on failure the handle is unchanged |
| `Storage.Database.RemoveItem` | server/src/storage.rs:55 | a record not held is `ItemNotFound`; on success exactly that record leaves the handle; on failure nothing changes |
| `Storage.Database.QueryItem` | server/src/storage.rs:40-45 | returns some held record whose key equals the value, or `ItemNotFound` exactly when none does |
| `Storage.Database.DumpDb` | server/src/storage.rs:57 | on success the file's records become the handle's; on failure the file is unchanged |
| `Storage.CleanOutdated` | server/src/storage.rs:33-60 | picks a record whose stored lifetime equals the parameter, `ItemNotFound` and no change when there is none; removes it and flushes only if it is outdated; a live pick leaves the store unchanged and returns `Ok`; at most that record is removed and records of other lifetimes never are; open, remove and dump errors propagate and leave the file unchanged; a clock behind the record is the panic of `is_outdated`; outcome and effect together are `CleanResult` of the clock and faults |
| `Storage.ResultIsStep` | server/src/storage.rs:33-60 | every pass `CleanResult` allows removes nothing or exactly one outdated record carrying the lifetime (`CleanStep`) |
| `Restful.GetServerInfo` | server/src/restful.rs:51-54 | always 200 with the app name `Here` and the build's version |
| `Restful.GetClientInfoReply` | server/src/restful.rs:59-130 | open failure is 500 `DatabaseError`; no record is 404 `NotFound`, and 404 is answered for nothing else; other query errors are 500; ok exactly when the record is found and the password gate admits it (no password on either side, or the digest of the given one); refusals of a found record are 403 `InvalidPassword`; status 200 exactly when ok; data is present only for a verified password and is then the stored record |
| `Restful.GetClientInfo` | server/src/restful.rs:57-97 | the reply is `GetClientInfoReply` of the lookup: 500 on an open failure, 404 exactly when no stored record has the account, otherwise the reply for a stored record of that account; ok only if some stored record of the account admits the password, and disclosed data is such a record; with one record for the account the reply is determined (repeated lookups agree) |
| `Restful.PostClientInfo` | server/src/restful.rs:134-179 | 200 exactly when open, add and dump all succeed, with `is_ok`, no message, lifetime `DEFAULT_LIFETIME` and the file grown by one record of that lifetime whatever the client sent; any failure is 500 `DatabaseError`, lifetime 0, file unchanged (a failed add skips the dump); id, account and password are always echoed |
| `Reaper.DelayAfter` | server/src/main.rs:68-89 | every pause is positive; 0.5 s exactly after `Ok`; 10 s after `ItemNotFound`; 10 s after any other error |
| `Reaper.Survives` | server/src/main.rs:68-69 | over any run of passes, a record that no pass could remove (another lifetime, or not outdated at that pass's clock) is still stored |
| `Reaper.OtherLifetimesSurvive` | server/src/main.rs:69 | records stored with a lifetime other than the default are never reaped |
| `Reaper.OnlyShrinks` | server/src/main.rs:68-69 | passes only remove records, at most one per pass |
| `Reaper.IdlePassRelaxes` | server/src/main.rs:68-85 | a pass over a store with no record of the default lifetime changes nothing, does not panic, and is followed by a 10 s pause |
| `Reaper.PanicOnlyBehindClock` | server/src/main.rs:69 | a pass panics only on a record of the default lifetime whose time is after the clock reading, and changes nothing |
| `Reaper.OutdatedPassReaps` | server/src/main.rs:69-73 | with no failing step and every record of the default lifetime outdated, a pass removes exactly one record and is followed by a 0.5 s pause |
| `Reaper.CleaningThread` | server/src/main.rs:66-91 | each pass's outcome and its effect on the records are `CleanResult` of `DEFAULT_LIFETIME`, that pass's clock reading and that pass's faults, and the pass is followed by the pause `DelayAfter` of its outcome; no returned outcome leaves the loop, so without a clock panic every pass runs |
| `ClientConfig.TrimStart` | client/src/main.rs:121 | a suffix of the line that does not start with whitespace, everything cut being whitespace |
| `ClientConfig.TrimEnd` | client/src/main.rs:121 | a prefix of the line that does not end with whitespace, everything cut being whitespace |
| `ClientConfig.Trim` | client/src/main.rs:121 | the slice of the line left after cutting a whitespace prefix and a whitespace suffix; empty exactly when the line is blank; otherwise starts and ends with a non-whitespace character |
| `ClientConfig.TrimIdempotent` | client/src/main.rs:121 | trimming twice is trimming once |
| `ClientConfig.PromptedPasswdAsWritten` | client/src/main.rs:127-128 | as written: a password exactly when the line is blank, and then the untrimmed line |
| `ClientConfig.PasswdPromptInverted` | client/src/main.rs:127-128 | as written, an empty answer becomes the password "\n" and "secret\n" gives no password |
| `ClientConfig.PromptedPasswd` | client/src/main.rs:127-128 | as the comment intends: no password exactly when the line is blank; otherwise the trimmed, non-empty line |
| `ClientConfig.ConfigFromPrompts` | client/src/main.rs:116-141 | account and API URL are the trimmed answers; as line 128 is written, a password is present exactly when its answer is blank, and is then the untrimmed answer |
| `ClientConfig.IntendedConfigFromPrompts` | client/src/main.rs:116-141 | the configuration as the prompt intends: the same trimmed account and API URL; no password exactly when its answer is blank, otherwise the trimmed answer |
| `ClientConfig.ConfigsDifferInPasswd` | client/src/main.rs:127-128 | the configuration as written and as intended agree on account and API URL and disagree on whether a password is set, for every answer |
| `Agent.ServerInfoUrl` | client/src/main.rs:38 | the API URL followed by `/server` |
| `Agent.SleepAfterPost` | client/src/main.rs:61-76 | after any decoded response, the lifetime it carries in whole seconds, whatever its status (0 for a 500 response); one second when the post got no response |
| `Agent.PostUrl` | client/src/main.rs:60 | the API URL followed by `/client/post` |
| `Agent.ProbeServer` | client/src/main.rs:37-51 | one request to the probe URL per reply until the first success, which it returns; a one-second pause after each failure and none after the success |
| `Agent.TotalOfRepeated` | client/src/main.rs:46 | pauses that are all equal add up to their number times the pause |
| `Agent.ProbeAfterFailures` | client/src/main.rs:37-51 | after `n` failures and then an answer, the probe succeeds on attempt `n + 1` having paused exactly `n` seconds |
| `Agent.PostedInfoContents` | client/src/main.rs:56-58 | the posted record carries the pass's own id, the account, a digest that verifies the configured password, and exactly the one address found, in the list of its family |
| `Agent.RegistrationLoop` | client/src/main.rs:54-79 | every pass posts to the post URL a record built afresh for that pass and then pauses the lifetime of the decoded response (even a 500 one) or one second when there is no response; no reply leaves the loop; only a failed address lookup ends it |
| `Agent.RunAgent` | client/src/main.rs:36-79 | probe requests go to the probe URL, each failure is followed by a one-second pause and the first success ends the probe; no registration happens without a probe success, and after one the registration loop runs every pass until a failed address lookup or the end of the ticks, each pass posting the record `Agent.RegistrationLoop` states |
| `Scenarios.UnprotectedLeaseLifecycle` | server/src/restful.rs:134-179 | an unprotected lease is registered for 60 s, found without a password (ok, no data), reaped once its lifetime has passed, and then not found |
| `Scenarios.ProtectedLeaseLookups` | server/src/restful.rs:99-130 | for a protected lease the right password gets the record and a wrong or missing one gets 403 |
| `Scenarios.RegisterTwice` | server/src/restful.rs:153 | two registrations with different session ids leave two leases |
| `Scenarios.FailedPostRepostsAtOnce` | server/src/restful.rs:161-168 | a registration whose dump fails is answered 500 with the store unchanged, and the client's pause after that response is 0 |

## Left out

- HTTP transport, routing, server start and JSON encoding
  (server/src/restful.rs:35-48, client/src/main.rs:83-103): handlers take
  and return values, and a failed request or an undecodable reply is a
  `None` reply.
- The database library's internals (file format, set iteration order,
  duplicate policy): the store is a set of records, an add of a record
  equal to a stored one leaves the set as it was, and open, add, remove and
  dump fail when a boolean input says so. A failed dump is assumed to leave
  the file as it was.
- `Storage.CleanOutdated`: the second open of the file reads the same
  records as the first, because the model is sequential; the remove's
  `ItemNotFound` of a record removed in between cannot occur.
- Sub-second precision lost when record times are stored as whole seconds
  (server/src/storage.rs:15).
- SHA-256 (utils/src/client.rs:65-71): a `Digest` parameter, so no property
  may depend on what the digest of a given string is.
- Concurrency: the reaper thread (server/src/main.rs:66-67) and the lost
  updates between handlers and the reaper sharing the dumps file; every
  operation is one sequential step.
- Clocks and sleeps: the current time is a parameter in milliseconds and
  pauses are recorded, not slept.
- Configuration I/O: files, terminal prompts and TOML of both programs
  (server/src/main.rs:95-130, client/src/main.rs:107-157), apart from the
  trimming and password decisions; the server's bind address is not modelled.
- Ctrl-C handlers and process exits (server/src/main.rs:40-43,
  client/src/main.rs:27-30), and the server's start-up open and thread join
  (server/src/main.rs:50-62).
- Local address discovery (client/src/info.rs): each registration pass is
  given the address found, or `None` for a failed lookup.
- The application version comes from the build (`CARGO_PKG_VERSION`), which
  is not part of this model: `Restful.GetServerInfo` takes it as a parameter.
  The `Display` text of `AppInfo` (utils/src/lib.rs:23-27) is only printed.
- The `debug-lifetime` build (lifetime 5 s) and `debug-printing` output.
- The lookup handler calls `GetClientInfoResponse::new()` with no arguments
  (server/src/restful.rs:65, 83, 90, 106, 112, 121, 127) although its
  definition takes three (utils/src/server.rs:24); the model starts from
  `Restful.Blank` and no contract states the response's id, account or
  password.
- `Reaper.CleaningThread`: models the first `|ticks|` passes of a loop that never ends.
- `Agent.ProbeServer`: models the probe loop over the first `|replies|` answers; if all of them fail, the real loop keeps probing.
- `Agent.RegistrationLoop`: models the first `|ticks|` passes of a loop that never ends.
- `Agent.RunAgent`: models the probe over the first `|replies|` answers and the registration loop over the first `|ticks|` passes.

## Findings

| source | as written | input that shows it | evidently intended | confidence | as-written member | corrected member |
|---|---|---|---|---|---|---|
| client/src/main.rs:128 | a blank answer gives `Some` of the untrimmed line and a non-blank answer gives no password, the reverse of the comment on line 127 | the answer "\n" stores the password "\n"; the answer "secret\n" stores no password | a blank answer gives no password and any other answer gives the trimmed line, as the account and API URL answers are trimmed | not executed; high for the inversion, medium for the trimming | `ClientConfig.PasswdPromptInverted`, `ClientConfig.ConfigFromPrompts` | `ClientConfig.PromptedPasswd`, `ClientConfig.IntendedConfigFromPrompts` |
