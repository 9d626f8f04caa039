# Verified model of you-spin-me

you-spin-me keeps an inventory of API keys as `ApiKey` objects in Kubernetes. It computes when each
key is due, writes a submitted key to OpenBao and records the rotation in the object's status. This
project models that core in Dafny and proves what its documentation promises of it. To check it, call
`dafny verify dfyconfig.toml` in this directory.

The code that changes state in place is modelled as classes and loops, each proved against a
specification function; theorems are about those functions.

| file | models |
|---|---|
| `Protocol.dfy`, `Linearizability.dfy` | status writes as a protocol: any number of `update_status` calls, the controller's patches computed from any cached copy, patches by other controllers, spec edits, creation and deletion, lost replies; every interleaving is a list of steps |
| `KubeRepository.dfy`, `Repo.dfy` | the retry loop as the code runs it, and the in-memory repository that serves as its atomic specification |
| `Conditions.dfy`, `MergePatch.dfy` | the `Valid` condition and the merge patch that stores it |
| `Bookkeeping.dfy` | `apply_rotation` and the retain-and-upsert loop over target entries |
| `OpenBao.dfy`, `WriterFacts.dfy`, `OtherKeys.dfy`, `WriteResults.dfy`, `Locations.dfy` | the KV v2 writer with its shared token cache, against a server that may answer anything, and the paths it writes |
| `Rotation.dfy`, `Rotator.dfy`, `EndToEnd.dfy` | a rotation from its gates to the saved object |
| `Glob.dfy`, `Validation.dfy` | the path globs and the spec checks |
| `Duration.dfy`, `Schedule.dfy`, `Auth.dfy` | durations, deadlines and alerts, step-up freshness |
| `Crd.dfy`, `Integers.dfy`, `Text.dfy`, `Sequences.dfy`, `Wrappers.dfy` | data types, and the library operations the others use |

## How the world is modelled

- The API server accepts a replace if and only if the object's resourceVersion is still the one read,
  and every accepted write gets a new one. `update_status` is given a call number to tell calls apart;
  a call also remembers how long the commit log was when it started and read, which the code does not.
- The two closures that the program passes to `update_status` are the two constructors of `Mutation`.
- The OpenBao server is honest about what it carries out, and otherwise free: each request may be
  carried out, refused with any error status, or break with or without effect. A 404 for a path that
  exists also stands for a path that someone else created in the meantime.
- A segment that is pushed onto a URL is taken as it is, percent-encoding aside: tabs and line breaks,
  which the URL library would drop, are assumed absent from mounts and paths.
- The clock, the replies of the server and the provider, and the steps of other tasks are inputs.
  Whether a string parses as an http(s) URL, and the text that a list of problems is shown as, are
  arbitrary functions.
- i64 arithmetic wraps around where the code does not check it, as in a release build.

## What the code does differently from its documentation

- The documentation says that writes keep the other keys at a path (README.md:132-133 of the repository,
  src/targets/openbao.rs:4). They do, if and only if there are none or the server is not about to answer
  404 to the PATCH of a path that exists and then to carry out the POST, at once or after a 403 that
  made the writer log in anew (`OtherKeys.WriteKeepsOtherKeysIff`; a run that loses a key in
  `OtherKeys.DeniedPathLosesItsOtherKeys`; what it means for a rotation in `Rotation.StoreAfterRotation`).
- The allow-list is checked against `<mount>/data/<path>`, but the request drops segments of it that are
  empty, "." or "..". A target that a list admits is sure to be written at a path which that list admits
  too, if and only if it has no such segment (`Locations.WrittenWhereAllowedIff`); validation accepts
  targets that have one (`Locations.AcceptedButWrittenElsewhere`, with paths like `./p`).
- The two alerts about a near deadline never fire together, as the comment in alerts.yaml:3-4 promises.
  But with a critical threshold of zero, a key that is at its deadline is both expired and expiring soon
  (`Schedule.AlertsMatchStates`, and a key to which this happens in `Schedule.TwoAlertsAtTheDeadline`).
- Two expiries are compared by UTC day with divisions that truncate toward zero, which miscounts days
  before 1970 (`Rotation.MismatchIsByDayIff`).
- The merge patch carries no resourceVersion, so the controller can bring back other conditions from
  a stale copy, though never a rotation field (`Linearizability.StaleCopyOverwritesConditions`).

## Model

| member | source | states |
|---|---|---|
| Linearizability.RefinesMemoryRepository | src/k8s.rs:113-142 | In every interleaving the stored objects are those of the one-lock repository after the accepted writes in commit order |
| Linearizability.ExactlyOnce | src/k8s.rs:113-142 | A call that returned Ok is in the commit order exactly once, during the call, and returned the object right after it; Conflict and NotFound never are; a lost reply at most once |
| Linearizability.RefusalsAreJustified | src/k8s.rs:118-141 | NotFound only if the object was missing at some moment of the call; Conflict only after at least three writes by others to the object during it |
| Linearizability.CommitOrderIsRealTime | src/k8s.rs:113-142 | A call that had returned Ok before another began precedes it in the commit order |
| Linearizability.StatusDecomposes | src/k8s.rs:118-140 | No lost update: rotation fields are the fold of all committed mutations, conditions those of the last committed patch, whatever stale copies patches came from |
| Linearizability.StoredHistory | src/crd.rs:185-194 | In every interleaving the stored history is the newest ten committed completions, newest first, dates agree with it and no target is listed twice |
| Linearizability.PatchSparesRotationFields | src/k8s.rs:217-225 | A reconcile, from any cached copy, leaves every rotation field of every object as it is |
| Linearizability.ReplaceSparesConditions | src/k8s.rs:118-140 | A status replace, also one whose reply is lost, leaves the conditions as they are at that moment |
| Linearizability.StaleCopyOverwritesConditions | src/k8s.rs:205-216 | After a patch the conditions other than Valid are those of the cached copy; the stored ones survive if and only if the copy agrees on them |
| Linearizability.StaleCopyLosesACondition | src/k8s.rs:205-216 | A run of three steps in which the controller, working from the object as it was created, removes a condition that was added since |
| Protocol.StepKeepsInv | src/k8s.rs:113-142 | Every step of every participant keeps versions, snapshots, replies and the commit log consistent |
| Protocol.CurrentMeansUnchanged | src/k8s.rs:119-139 | While the resourceVersion is the one read, the object is the one read; otherwise someone wrote it since |
| Protocol.AttemptsRunOut | src/k8s.rs:118-141 | A call has three reads and three replaces to spend, each request spends one and no one else can refill them |
| KubeRepo.KubeRepository.UpdateStatus | src/k8s.rs:113-142 | At most three reads and three replaces amid arbitrary steps of others; a network fault ends the call with an error, and without one it returns Ok unless the object was missing at some moment or others wrote it three times; if no one disturbs it, the object as it was gets the mutation; always with the guarantees above |
| KubeRepo.KubeRepository.Attempt | src/k8s.rs:119-139 | One round ends with a reply, or with a conflict and one attempt less; it fails only for a fault, a missing object or another's write, and undisturbed it carries out the mutation |
| KubeRepo.KubeRepository.GetStatus | src/k8s.rs:121-127 | A read yields the object that the server holds at that moment with its version, NotFound only when there is none, and another error exactly when the network fails |
| KubeRepo.KubeRepository.ReplaceStatus | src/k8s.rs:131-139 | A replace that the network delivers is Ok exactly when the object is at the version read, and then it holds the status sent; a conflict at another version, an API error when it is missing; one that is not delivered is an error |
| KubeRepo.KubeRepository.Put | src/k8s.rs:131-139 | The server stores the status if and only if the object is there at the version sent, as exactly one commit; a missing object is an API error |
| KubeRepo.KubeRepository.ReconcileObject | src/k8s.rs:201-227 | Writes nothing when the copy is up to date; otherwise, unless the request is lost, one commit leaves one Valid condition, the desired one, the other conditions of the copy in order, and every rotation field and other object as stored |
| KubeRepo.KubeRepository.Observe | src/k8s.rs:48-50 | Brings the local copy of one object up to date; copies may lag, but each is the object as the server held it at some moment |
| Repo.MemoryRepository.UpdateStatus | src/repo.rs:92-107 | Applies the mutation to the status or its default, in one step, or reports NotFound and changes nothing |
| Repo.MemoryRepository.Insert | src/repo.rs:72-75 | Stores the object under its name and leaves the others |
| Repo.MemoryRepository.Get | src/repo.rs:88-90 | Finds exactly the objects stored |
| Conditions.PatchLeavesOneValid | src/k8s.rs:205-222 | A patch leaves exactly one Valid condition, however many there were, and every other condition as often as before and in order |
| Conditions.DesiredConditionSays | src/k8s.rs:167-199 | A new condition has status True, reason Valid and the fixed message for a well-formed spec, and otherwise False, InvalidSpec and the rendered problems, of which there is one; its time moves only if the status changed |
| Conditions.SilentIff | src/k8s.rs:180-186 | Nothing is sent exactly when the condition in place has the status and message due and was made for this generation |
| Conditions.SecondReconcileIsSilent | src/k8s.rs:180-186 | Reconciling again on the unchanged object writes nothing, at any later time |
| Conditions.EditIsNoticed | src/k8s.rs:179-186 | After an edit, a condition that was up to date no longer is, and the next reconcile replaces it by one for the new generation |
| Conditions.ReconcileStep | src/k8s.rs:167-199 | After a reconcile the one Valid condition is True exactly for a well-formed spec, carries its message and generation, and its transition time moves only if the finding changed |
| Conditions.ConditionsOverRuns | src/k8s.rs:187-190 | Over every run of edits and reconciles the transition time is that of the reconcile where the finding last flipped, one Valid condition is left and others keep their order |
| Crd.FindCondition | src/crd.rs:299-305 | The condition found is the first of the type asked for, and there is none of that type if none is found |
| Crd.ReferenceTells | src/crd.rs:138-146 | Two targets share a reference if and only if mount, path without outer slashes and key agree, when mounts have no slash and keys no # |
| MergePatch.PatchIsMergePatch | src/k8s.rs:217-225 | Merging the sent JSON by section 2 of RFC 7396 replaces exactly conditions and observedGeneration and creates a missing status, from any cached copy |
| Bookkeeping.StatusRecord.ApplyRotation | src/rotation.rs:22-52 | The assignments in place make the status the specified one, of which the run theorems are proved |
| Bookkeeping.StatusRecord.MergeTargets | src/rotation.rs:288-309 | The in-place loop computes the merge of old entries and outcomes |
| Bookkeeping.StatusRecord.Mutate | src/rotation.rs:287-320 | The closure changes nothing but what the mutation says |
| Bookkeeping.HistoryIsNewestFirst | src/rotation.rs:36-51 | After every run from an empty status, history is exactly the newest ten completions, newest first, and dates, expiry and its source agree with the first |
| Bookkeeping.LastGivenIsStored | src/rotation.rs:30-42 | After every run, probe and manual expiry are those that the last completed rotation gave, and the expiry is the probed one or else the manual one |
| Bookkeeping.MergedIsOnePerTarget | src/rotation.rs:284-309 | For distinct references the merge leaves one entry per spec target and no others, each with the reference, time, result and message that its outcome calls for; as many entries are failed as outcomes; kept entries come first in their order, new ones in the order of the spec |
| Bookkeeping.TargetsStayDistinct | src/rotation.rs:288-309 | In every reachable status no reference occurs twice, also when specs change in between |
| OpenBao.Url | src/targets/openbao.rs:110-124 | The nested loops build the normalised path of the segments |
| OpenBao.DataUrl | src/targets/openbao.rs:215 | The path of a target is v1, its mount, data, and its path, normalised |
| OpenBao.Client.GetToken | src/targets/openbao.rs:126-137 | The cached token while it has no expiry or more than the margin left, otherwise a login that replaces it |
| WriterFacts.LoginsOnlyWhenNeeded | src/targets/openbao.rs:126-137 | There is a login exactly when the cache is empty or its token has 30 s or less left; otherwise the cached token is used |
| WriterFacts.RetryUsesNewToken | src/targets/openbao.rs:240-246 | After the invalidation the next request carries a token from a new login, if no other task has filled the cache |
| WriterFacts.FileTokenServesAll | src/targets/openbao.rs:145-153 | A token read from a file serves a whole rotation without another read |
| OpenBao.Client.Invalidate | src/targets/openbao.rs:139-141 | Empties the cache and nothing else |
| OpenBao.Client.SendRequest | src/targets/openbao.rs:191-207 | One request with a token obtained for it |
| OpenBao.Client.WriteSecret | src/targets/openbao.rs:210-251 | The loop with its retry flag computes the specified write |
| OpenBao.Client.WriteTarget | src/targets/openbao.rs:267-274 | A target without a store fails and sends nothing |
| WriterFacts.WriteKeyBounds | src/targets/openbao.rs:222-250 | Against any answers: a PATCH possibly followed by a POST, or with Kubernetes auth two PATCHes around one invalidation possibly followed by a POST; at most one login per request sent, plus a last failing one |
| WriterFacts.EveryTokenIsSound | src/targets/openbao.rs:126-189 | Over every run sharing the cache, each request carries a token from a login that was then new, had no expiry, or had more than 30 s left; tokens hold the text the login gave and expire with its lease, or never for a file or without a lease |
| WriterFacts.CachedTokenOutlivesItsRequest | src/targets/openbao.rs:182-186 | Over every run, a request with a cached token is over before the lease of that token ends on the server, if login and request each took no longer than the client's timeout |
| WriterFacts.WriteKeyEffect | src/targets/openbao.rs:210-251 | Success stores the value, whatever happens no other location changes, and the other keys of the secret are lost only to a POST on a path that exists |
| WriteResults.WriteSucceedsIff | src/targets/openbao.rs:222-250 | A write returns Ok if and only if a token is to be had, the path exists and the PATCH is allowed; or the PATCH is answered 404 and the POST gets a token and is allowed; or, with Kubernetes auth, after a first 403 one of these holds with a new token |
| WriteResults.ResultTellsLastFate | src/targets/openbao.rs:222-250 | The result tells what became of the last request: Ok that it was carried out and answered, and each error its status and detail, the failed login or the broken connection, and whether it was the PATCH or the POST |
| OtherKeys.WriteKeepsOtherKeysIff | src/targets/openbao.rs:209-251 | The other keys at the path are kept if and only if there are none or the server is not going to deny that the path exists and then carry out the POST, decided from token, login and replies to come |
| OtherKeys.ClobbersDecides | src/targets/openbao.rs:222-250 | A path that exists stays, and its secret becomes the one new key or keeps all others, as that condition says |
| WriterFacts.TruthfulNeverOverwrites | src/targets/openbao.rs:231-239 | If the server never denies an existing path, no POST hits one |
| OtherKeys.DeniedPathLosesItsOtherKeys | src/targets/openbao.rs:231-239 | A concrete run in which a false 404 costs another key |
| OtherKeys.RotationKeepsIff | src/rotation.rs:253-263 | Against any answers, a key written last by a target without error holds the value, and a key no target names is as it was, each if and only if no (later) write of the rotation replaces its path; then it is gone |
| WriterFacts.RotationWritesExactlyTheTargets | src/rotation.rs:253-263 | Against an honest server, all targets written without error hold the value and everything untargeted is unchanged, also for targets that share a new path |
| WriterFacts.EachTargetOnce | src/rotation.rs:254-263 | Result number i is that of writing target number i after those before it, also after a failure |
| WriterFacts.WriteAllAlike | src/targets/openbao.rs:210-251 | Requests, tokens and results do not depend on the value written or on stored values |
| Locations.RequestGoesToTheCheckedPathIff | src/crd.rs:148-155 | The request goes to the path that was checked if and only if neither the mount nor an inner segment is empty, "." or ".." |
| Locations.WrittenWhereAllowedIff | src/validation.rs:6-8 | For every allow-list that admits the checked path to admit the path written, it takes exactly that no segment is dropped |
| Locations.AcceptedButWrittenElsewhere | src/validation.rs:126-136 | For every mount, path and key: validation accepts `./path` where only `<mount>/data/+/path` is allowed, and it is written at a path that is not allowed |
| Rotation.WritesOnlyBehindTheGates | src/rotation.rs:204-251 | A key is written if and only if it is known, not blank, its spec is well formed with a target, and the probe succeeded, was skipped or is unsupported |
| Rotation.OutcomesMatchTheSpec | src/rotation.rs:253-284 | Each target is reported once, in order, under pairwise distinct references, and the status is told exactly that |
| Rotation.SubmissionCarriesTheProbe | src/rotation.rs:266-282 | What is submitted holds the time, actor and manual expiry of the request, and the probe's identity and expiry exactly when the provider was asked and answered; a mismatch is reported by the days of the two expiries |
| Rotation.RefusalsSayWhy | src/rotation.rs:204-251 | Each refusal names the first check that failed, in order, and only a failed probe leaves an event |
| Rotation.CompletedIff | src/rotation.rs:253-264 | A target is reported as written if and only if its write was going to succeed, and the rotation completes if and only if all were |
| Rotation.WillingServerCompletes | src/rotation.rs:253-264 | Against a server that grants tokens and carries out every request, every submission completes, with the value at all targets and nothing else changed |
| Rotation.StoredTargetsAreTheSpecs | src/rotation.rs:284-319 | Whatever was listed before, the stored status lists every spec target once with its outcome and no other |
| Rotation.StoreAfterRotation | src/rotation.rs:253-264 | Against any answers, what every key at every path holds after a completed or partial rotation: the value if written, what it held if not named, nothing exactly if its path was replaced |
| Rotation.StoreAfterHonestRotation | src/rotation.rs:253-264 | Against an honest server a completed rotation leaves the value at every target, a partial one at every target without error, and nothing else changes |
| Rotation.ValueLeavesNoTrace | src/rotation.rs:199-368 | Two different non-blank values with equal replies and clock give equal requests, mutation, outcome and event |
| Rotation.LabelsMeanWhatTheySay | src/rotation.rs:188-193 | Ok, failed and partial mean all, none and some but not all targets written |
| Rotation.FailedRefsAreTheFailures | src/rotation.rs:324-328 | The failure event names exactly the targets not written |
| Rotation.EventTells | src/rotation.rs:324-356 | The event is a rotation with the number of targets exactly if all were written, and otherwise a failure that names exactly the others, each once |
| Rotation.MismatchIsByDayIff | src/rotation.rs:275-282 | A mismatch is reported exactly when the two expiries fall on different UTC days, if and only if they are not a moment inside a day before 1970 and one counted right on the same or the next day |
| Rotator.RotationService.RunPrecheck | src/rotation.rs:204-251 | Gates and probe in order; a failed probe alone leaves an event |
| Rotator.RotationService.WriteTargets | src/rotation.rs:253-263 | The loop writes the targets and pushes their outcomes |
| Rotator.RotationService.RotateInner | src/rotation.rs:199-368 | A refused request changes nothing; a submitted one is written, exactly its mutation committed with the guarantees of update_status and whenever that can succeed, and its event recorded only then |
| Rotator.RotationService.Rotate | src/rotation.rs:182-197 | The request is carried out, and exactly one of the four counters goes up, so their sum is the number of calls |
| Rotator.RotationService.Record | src/rotation.rs:65-105 | Future dates and expiries before the rotation are refused without effect; otherwise the recording is committed and its event follows |
| EndToEnd.SavedRotation | src/rotation.rs:284-368 | However many others wrote meanwhile, the saved object reports exactly the spec's targets with their outcomes; if all were written it has this rotation first in its history, and its expiry and source are the probe's, or else the manual one, or none; otherwise all else is as stored right before |
| EndToEnd.ServiceSavesRotation | src/rotation.rs:199-368 | The same for the running service after `rotate` has carried out a request |
| Glob.GlobMatch | src/validation.rs:43-81 | The loop over string remainders computes the segment-wise semantics of + and a trailing * |
| Glob.PlainPatterns | src/validation.rs:43-81 | Without a + segment, p* matches exactly the strings starting with p, and a star-free p only itself |
| Glob.MatchesInstances | src/validation.rs:6-8 | For every pattern: a star-free one matches exactly the strings that fill each + segment with non-empty text without slash, and p* exactly those that start with such a string |
| Glob.StarAbsorbsSuffixes | src/validation.rs:6-8 | What p* matches it matches with any suffix, and so does it what p itself matches |
| Glob.AllowListMeaning | src/validation.rs:15-36 | A path is allowed exactly when some configured pattern that is not blank matches it |
| Validation.Validate | src/validation.rs:84-146 | The loops and the hash set report the specified problems in order |
| Validation.ValidateDecides | src/validation.rs:84-146 | No problem is reported exactly for well-formed specs: durations, thresholds, URL, and set, non-blank, allowed targets with distinct references |
| Validation.ReportsWhatIsThere | src/validation.rs:84-146 | A problem is reported, with its field, text and target number, if and only if the spec has it |
| Validation.DuplicatesInReport | src/validation.rs:139-141 | Duplicate reports number the set targets less their distinct references |
| Duration.ParseExactly | src/duration.rs:10-32 | Accepts exactly the trimmed strings of the pattern whose value fits an i64, and yields that value |
| Duration.ParseAgreesWithCrdPattern | src/crd.rs:14-15 | On strings the API server admits, parsing fails only by overflow |
| Duration.UnitsMean | src/duration.rs:22-29 | For every number, the letters stand for seconds, minutes, hours, days and weeks, up to overflow |
| Duration.HumanizeParses | src/duration.rs:35-47 | The output parses back to the duration rounded down to the unit shown |
| Duration.HumanizeUnits | src/duration.rs:35-47 | The unit shown is the largest that the duration fills, up to days |
| Duration.HumanizeStable | src/duration.rs:35-47 | Printing what was read back gives the same output |
| Duration.HumanizeParsesIff | src/duration.rs:36 | The output can be read back for every duration except the i64 minimum |
| Schedule.ScheduleOfTheKey | src/schedule.rs:84-120 | The schedule has both bounds of the key, the nearer as deadline with its kind, expiry when they coincide, and the key's own thresholds or the defaults |
| Schedule.StateOfTheKey | src/schedule.rs:84-134 | The state in terms of the key: the nearer of expiry and last rotation plus maximum age, measured against the key's own thresholds or the defaults |
| Schedule.UrgencyGrows | src/schedule.rs:126-134 | The state only grows more urgent as time passes, for any thresholds |
| Schedule.AlertsMatchStates | deploy/helm/you-spin-me/files/alerts.yaml:3-45 | The two near-deadline alerts never hold together; each alert holds exactly in the state it is named after, and at most one holds, if and only if the key is not past due while inside the warning window and not below the critical threshold; always so for a threshold above zero |
| Schedule.TwoAlertsAtTheDeadline | deploy/helm/you-spin-me/files/alerts.yaml:5-34 | A key with critical threshold "0s" is expired and expiring soon at its deadline |
| Schedule.AlertsBetweenMillisIff | src/metrics.rs:105-107 | For every deadline, also between milliseconds, the rules agree with the page exactly when cutting the deadline to the millisecond changes neither the state nor what AlertsMatchStates asks |
| Auth.CallbackAcceptsIff | src/web/auth.rs:252-270 | A callback is accepted exactly within 600 s, and for a forced login with a claim between its start and the callback up to 60 s of skew; the session gets the provider's claim and nothing else |
| Auth.NoClaimIsNeverFresh | src/web/auth.rs:62-70 | A login without the provider's auth_time never passes step-up, unless no maximum age is set |
| Auth.ReauthStaysFresh | src/web/auth.rs:62-70 | An accepted forced re-login passes step-up until the maximum age after the login started |
| Auth.NoReloginLoopIff | src/web/auth.rs:252-270 | Every accepted re-login is fresh at the callback if and only if the maximum age is at least the 600 s a login may take |
| Auth.StepUpBounds | src/web/auth.rs:62-70 | Passing step-up means a login at most the maximum age plus 60 s ago and at most 60 s ahead |
| Auth.SessionLifetime | src/web/auth.rs:421-429 | A session expires exactly its lifetime after the callback |
| Auth.HugeMaxAgeIsNeverFresh | src/web/auth.rs:67 | A maximum age within a minute of the largest i64 wraps around and no session is fresh |
| Auth.ConstantTimeEqDecides | src/web/auth.rs:90-95 | Comparing all bytes without stopping decides equality |
| Text.TrimMeaning | src/duration.rs:12 | Trimming removes white space at both ends only, and all of it |

## Left out

- NoReloginLoopIff: stated for moments that the timestamp libraries can represent and maximum ages that do not overflow; the overflow is covered by HugeMaxAgeIsNeverFresh.
- Watch, reflector and controller runtime: the controller may run at any time with any copy of the object, and the repository's own copies are brought up to date one at a time, whenever it is told to.
- Retries of the HTTP client and server-side no-op detection: every accepted write gets a new resourceVersion.
- Files with tokens and certificates: reading them is part of the login reply.
- The bodies of error replies: the detail is an input, so that it does not echo the value is not stated.
- Serialisation of the status: the merge patch is proved for any JSON of the rotation fields; timestamps keep their nanoseconds.
- Probe counters, log lines and the rendering of events and error messages.
- Zeroing of secrets in memory: not expressible; ValueLeavesNoTrace is the part that is.
- OIDC discovery, token verification, cookies, CSRF tokens, admin claims and redirects.
- Pages, list sorting and filtering, demo data, configuration flags, dashboards and deployment files.
