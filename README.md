# Portunes and Trireme cores, modelled in Dafny

This project models three sequential cores of the Deis repository and proves properties about them.

- **Portunes** (`portunes.dfy`, module `Portunes`) is the exam runner's result store, `results`. Each exam has a bounded history kept most-recent-first. `Add` pushes a result onto the front and evicts the oldest once the length passes `max`. The readers are `Empty`, `Last`, `List`, `Len` and `Exams`. The module also models the `preflight` validator over a `Battery`, and the part of `runExam` that writes records: the initial `Unknown` record, then one `Pass`/`Fail` record per ticker tick. `New` chooses the history bound.
- **Trireme storage** (`storage.dfy`, module `Storage`) is the namespaced key/value store `JSONStorage`: `Get`, `Set` and `Remove` over a two-level map. A namespace is created on first write and dropped once emptied. Every successful change hands the map to `Save`.
- **Trireme platform** (`platform.dfy`, module `Platform`) is the order in which `kubectl create -f` and `kubectl delete -f` are issued over the manifests of a list of `Component`s.
  - Within one component, each operation stops at the first failure.
  - `InstallAll` installs every selected component's prerequisites before any component's workloads, and stops at the first error.
  - `DeleteAll` carries on past failures and reports "Incomplete deletion".
- `wrappers.dfy` (module `Wrappers`) holds `Option`, `Min` and associativity of concatenation.

State that the Go code updates in place is modelled as classes:

- `Results.res` is a `map<string, seq<Result>>`, with the front of the list at index 0.
- `JSONStorage.s` is the two-level map. `JSONStorage.saved` records each snapshot passed to `Save`, and `JSONStorage.outcomes` records what each call of `Save` returned.
- `Kubectl.trace` is the sequence of issued commands.

Each method is proved against a specification function on values:

- `Pushed` and `AddAll` for the history.
- `Violation` for pre-flight.
- `Put` and `Delete` for the store.
- `FailFast`, `FirstRejected`, `SelectedPlan` and `Attempts` for the platform.

The properties the code promises are proved as lemmas about those functions.

Collaborators outside the core become parameters:

- The router's routes are a set of names.
- `time.ParseDuration` is a predicate `validDuration` on the interval text.
- The handler's outcome on each tick is an optional error text in `Tick`.
- Timestamps are opaque integers.
- Which kubectl invocations fail is a fixed set `Kubectl.failing`.
- The outcome of writing the storage file is left open.

## Model

| member | source | states |
|---|---|---|
| Portunes.Pushed | portunes/portunes.go:279-282 | One push on a list within the bound gives `[r] + h`, cut to `min(|h|+1, max)`. Below the bound it grows by exactly one. At the bound, exactly the oldest (last) entry is dropped. The new front is `r`. |
| Portunes.AddAllNewestFirst | portunes/portunes.go:269-283 | After any sequence of adds, the list is the added results newest first, followed by the earlier list, cut to `max`. So exactly the `max` most recent results survive. |
| Portunes.AddAllBounded | portunes/portunes.go:280-282 | After any sequence of adds, the length is `min(adds + previous length, max)`, so it never exceeds `max`. |
| Portunes.AddAllAppend | portunes/portunes.go:269-283 | Adding `a` and then `b` is the same as adding `a + b`. |
| Portunes.ResultsScenario | portunes/portunes_test.go:30-50 | TestResults on a store bounded by 3: one add gives length 1, `Empty` gives length 0, and four adds of one exam leave exactly the last three, newest first. |
| Portunes.FourAddsLeaveThree | portunes/portunes_test.go:44-49 | With `max` 3, four adds leave the last three, newest first. |
| Portunes.HistoryLenAsWritten | portunes/portunes.go:77-79 | `New` as written: only a zero `HistoryLen` becomes 100. Every other value, negatives included, is kept. |
| Portunes.LastAsWritten | portunes/portunes.go:294-308 | `Last` as written dereferences a nil front exactly when the exam's list is present but empty. Otherwise it returns nil or the front result. |
| Portunes.NegativeHistoryLenEmptiesHistory | portunes/portunes.go:77-79 | With a negative `HistoryLen`, any non-empty run of adds leaves the exam's list present but empty, and `Last` as written then dereferences nil. |
| Portunes.HistoryLen | portunes/portunes.go:77-79 | The corrected bound: positive values are kept, and 0 (and any other non-positive value) becomes 100. The result is always at least 1. |
| Portunes.Results.constructor | portunes/portunes.go:265-267 | `newResults(max)` is an empty store with bound `max`, and the store invariant holds. |
| Portunes.Results.Add | portunes/portunes.go:269-283 | The list is created on first write. The new list is `[r]` followed by the old list, cut to `max`. `Len` grows by one up to `max`. `Last` is `r`. Every other exam's history is unchanged. The invariant (every list has 1..max entries) is preserved. |
| Portunes.Results.Empty | portunes/portunes.go:285-292 | Removes the exam's key. Afterwards `Len` is 0, `List` is empty and `Last` is none. Other exams are untouched, and an absent name is a no-op. |
| Portunes.Results.Last | portunes/portunes.go:294-308 | Gives none iff the exam has no history, and otherwise the front of its list. |
| Portunes.Results.Len | portunes/portunes.go:327-335 | Gives the length of the exam's list: 0 without history, never above `max`, and 0 iff the exam is absent. |
| Portunes.Results.List | portunes/portunes.go:310-325 | The copy filled front to back equals the exam's list, most recent first, and is empty without history. It has at most `max` entries, and its first entry is `Last`. The store is not changed. |
| Portunes.Results.Exams | portunes/portunes.go:337-347 | Exactly the stored exams are keys. Each maps to its front outcome's name, or to "unknown" without a front. Under the invariant, that is `Last`'s outcome. |
| Portunes.FirstMissing | portunes/portunes.go:155-159 | The reported name is in the list and not known. There is none iff every name is known. |
| Portunes.FirstMissingIsFirst | portunes/portunes.go:155-159 | The reported name is the earliest unknown one: every name before it is known. |
| Portunes.ExamViolation | portunes/portunes.go:150-177 | There is no violation iff the exam passes every check. The checks run in order: name a route, each dependency a route, the interval parses, each notify entry a declared notifier. Each error carries the offending name and implies that every earlier check passed. |
| Portunes.Violation | portunes/portunes.go:149-181 | `preflight` reports nothing iff every exam passes every check. |
| Portunes.ViolationIsFirst | portunes/portunes.go:149-181 | A reported violation belongs to the first failing exam in declaration order, and every exam before it passes. |
| Portunes.BasicBatteryPreflight | portunes/portunes_test.go:12-28 | With no routes, the test battery fails on exam "test1". With routes for all three exams, it passes. |
| Portunes.FindNotifier | portunes/portunes.go:165-171 | The search finds `n` iff some declared notifier has that name. |
| Portunes.CheckExam | portunes/portunes.go:150-177 | The per-exam loop body returns exactly `ExamViolation`. |
| Portunes.Portunes.Preflight | portunes/portunes.go:149-181 | The nested loops with early returns compute `Violation`. So the result is none iff every exam passes every check. |
| Portunes.InitialResult | portunes/portunes.go:110-117 | The record written on load has outcome `Unknown` and message "Exam loaded, but not run yet.". |
| Portunes.TickResult | portunes/portunes.go:130-139 | A tick records `Fail` with the error's text iff the handler returned an error. Otherwise it records `Pass` with an empty message, dated at the tick. |
| Portunes.TickResults | portunes/portunes.go:128-140 | One record per tick, in tick order. |
| Portunes.FreshRunHistory | portunes/portunes.go:108-140 | On an exam without history, a run leaves the tick records newest first, then the initial `Unknown` record, cut to `max`. The newest entry is the last tick's. The `Unknown` record stays last until it is evicted. |
| Portunes.UnparsableIntervalStaysUnknown | portunes/portunes.go:119-126 | An interval that does not parse leaves only the initial `Unknown` record. |
| Portunes.OneTickHistory | portunes/portunes_test.go:52-88 | After one tick the list is `[tick record, Unknown record]`. The front is `Pass` iff the handler succeeded and `Fail` iff it failed. |
| Portunes.Portunes.New | portunes/portunes.go:75-91 | With the corrected `HistoryLen` rule (see Findings): the battery's history length becomes `HistoryLen` of the configured one, so 0 becomes 100 and positive lengths are kept. The store is empty and bounded by it. |
| Portunes.Portunes.RecordTick | portunes/portunes.go:130-140 | One tick pushes that tick's record onto the exam's list and keeps the store invariant. |
| Portunes.Portunes.RecordTicks | portunes/portunes.go:128-145 | The ticker loop leaves the exam's list as `AddAll` of the tick records. Nothing else changes. |
| Portunes.Portunes.RunExam | portunes/portunes.go:108-145 | A run adds exactly `RunRecords` to the exam's history. These are the initial record, then one per tick, or nothing more when the interval does not parse. |
| Storage.Put | trireme/storage/storage.go:54-61 | After `Set`, the pair holds the value. An absent namespace is created holding only `{key: value}`. Every other pair and namespace is unchanged. |
| Storage.Delete | trireme/storage/storage.go:63-72 | After `Remove` of a stored key, the key is gone. Its namespace survives iff other keys remain in it. All other pairs are unchanged. |
| Storage.PutKeepsNamespacesNonEmpty | trireme/storage/storage.go:54-61 | `Set` preserves "no stored namespace is empty". |
| Storage.DeleteKeepsNamespacesNonEmpty | trireme/storage/storage.go:66-69 | `Remove` preserves "no stored namespace is empty", because it drops the namespace it empties. |
| Storage.PutThenDeleteRestores | trireme/storage/storage.go:54-74 | `Set` then `Remove` of a key in a new namespace gives back the original map. |
| Storage.PutThenDeleteRestoresAbsentKey | trireme/storage/storage.go:54-74 | In a map with no empty namespace, `Set` then `Remove` of any absent key, in a new or an existing namespace, gives back the original map. |
| Storage.StorageScenario | trireme/storage/jsonstorage_test.go:10-47 | TestJSONStorage on a store opened on a missing file: the key is first absent (`KeyNotFound`), `Set` stores "C0FF33", `Get` returns it with no error, `Remove` deletes it, a following `Get` is `KeyNotFound`, and the map is empty again. The errors of `Set` and `Remove` are never `KeyNotFound`. |
| Storage.JSONStorage.constructor | trireme/storage/storage.go:28-52 | The store starts from the decoded map (empty for a missing file) with nothing saved yet. |
| Storage.JSONStorage.Get | trireme/storage/storage.go:75-82 | Gives no error iff the namespace and key are stored, and then the stored value. Otherwise it gives `""` and `KeyNotFound`. |
| Storage.JSONStorage.Save | trireme/storage/storage.go:84-90 | Hands the current map to the file, without changing it. The error is never `KeyNotFound`. |
| Storage.JSONStorage.Set | trireme/storage/storage.go:54-61 | The map becomes `Put`, which is saved. The error returned is the outcome that this `Save` recorded. A following `Get` gives the value. The non-empty-namespace invariant is kept. |
| Storage.JSONStorage.Remove | trireme/storage/storage.go:63-74 | A stored key: the map becomes `Delete`, it is saved, and the error returned is the outcome that this `Save` recorded. A missing namespace or key: `KeyNotFound`, with no change, no save and no outcome recorded. Either way a following `Get` fails, and the invariant is kept. |
| Platform.FirstRejectedIsFailure | trireme/platform/platform.go:25-31 | The reported failure is a failing command of the loop. There is none iff every command succeeds. |
| Platform.FailFastIsPrefix | trireme/platform/platform.go:25-31 | What is issued is a prefix of the commands. It is all of them when nothing fails, and otherwise ends with the first failure. |
| Platform.FailFastStopsAtFirstFailure | trireme/platform/platform.go:25-31 | On failure, the issued commands are exactly those up to and including the first failing one, and every earlier one succeeded. |
| Platform.FailFastAppend | trireme/platform/platform.go:24-54 | Two consecutive fail-fast loops: the second is reached only when every command of the first succeeded, and its failure is then the overall one. |
| Platform.Kubectl.Run | trireme/platform/platform.go:26-30 | One `KubectlCreate`/`KubectlDelete` on `(dir, file)` is appended to the trace. It fails iff the failing set holds it. |
| Platform.Kubectl.RunAll | trireme/platform/platform.go:25-31 | One `for` loop: the trace grows by `FailFast` of the loop's commands, and the error is the first failure. |
| Platform.Kubectl.RunPhases | trireme/platform/platform.go:24-54 | Consecutive loops with the same verb: the trace grows by `FailFast` of their concatenated commands, and the error is the first failure. |
| Platform.Component.InstallPrereqs | trireme/platform/platform.go:24-54 | Creates Namespaces, Services, Volumes, Secrets, each in list order under `dir`. The trace is `FailFast` of that plan, and the first failure is returned, with nothing issued after it. |
| Platform.Component.DeletePrereqs | trireme/platform/platform.go:59-89 | Deletes Secrets, Volumes, Services, Namespaces in that order, fail-fast, returning the first failure. |
| Platform.Component.Install | trireme/platform/platform.go:92-108 | Creates Pods then RCs, fail-fast, returning the first failure. |
| Platform.Component.Delete | trireme/platform/platform.go:113-129 | Deletes Pods then RCs, fail-fast, returning the first failure. |
| Platform.PrereqDeletionMirrorsCreation | trireme/platform/platform.go:56-89 | Prerequisite deletion has as many commands as creation, and deletes exactly the files creation creates. |
| Platform.Selected | trireme/platform/platform.go:137 | A component is installed iff it is not optional or optional components were asked for. |
| Platform.InstallSelectedPrereqs | trireme/platform/platform.go:136-142 | `InstallAll`'s first loop issues `FailFast` of the selected components' prerequisite plans and returns the first failure. |
| Platform.InstallSelected | trireme/platform/platform.go:143-149 | `InstallAll`'s second loop issues `FailFast` of the selected components' install plans and returns the first failure. |
| Platform.InstallAll | trireme/platform/platform.go:135-151 | Issues `FailFast` of all selected prerequisites followed by all selected installs, and returns the first failure. |
| Platform.InstallsFollowAllPrereqs | trireme/platform/platform.go:135-151 | `InstallAll` issues an install only after every selected prerequisite was issued and succeeded. |
| Platform.DeleteComponents | trireme/platform/platform.go:156-161 | `DeleteAll`'s first loop runs `Delete` for every component, each cut at its own first failure. The flag is set iff some component failed. |
| Platform.DeleteComponentPrereqs | trireme/platform/platform.go:162-167 | `DeleteAll`'s second loop runs `DeletePrereqs` for every component in the same way. |
| Platform.AnyRejectedMeans | trireme/platform/platform.go:155-171 | The incomplete flag holds exactly when some component's plan hit a failure. |
| Platform.AttemptsReachEveryComponent | trireme/platform/platform.go:154-167 | A failure does not stop `DeleteAll`: the first command of every component's plan is issued. |
| Platform.DeleteAll | trireme/platform/platform.go:154-172 | Issues every component's `Delete`, then every component's `DeletePrereqs` (each fail-fast, none stopping the others). It returns "Incomplete deletion" iff any of them failed, and no error otherwise. |

## Left out

- Goroutines, the ticker and the cancel channel (`Run`, the `select` loop of `runExam`) are not modelled. The ticks arrive as a finite sequence, and cancellation is its end.
- The `sync.RWMutex` of `results` is not modelled, since the model is sequential. So is the fact that `Exams` reads without the lock.
- The cookoo router and registry are reduced to a set of route names and a per-tick handler outcome.
- `time.ParseDuration` is an abstract predicate, and timestamps (`time.Now`) are opaque integers.
- The HTTP layer is not modelled: `ServeHTTP`, `pong`, `jsonify`, `getBattery`, `getExam`, `getExamHistory`. It only reads the store getters modelled here.
- The dependency gating described in the comment on `Exam.Depends` is not modelled. `runExam` does not enforce `Depends`, and neither does the model.
- Notifier dispatch and notifier configuration are not modelled: a `Notifier`'s `Config` is carried but never used.
- `println` and `fmt.Printf` progress output are not modelled.
- Portunes.Portunes.New: uses the corrected `HistoryLen`. As written, `New` keeps a negative length and passes it to `newResults`; `NegativeHistoryLenEmptiesHistory` models what then happens.
- Portunes.Results.Exams: `Outcome` is a closed datatype of the three constants `pass`, `fail` and `unknown`. In Go it is an open string type, and `Add` accepts a `Result` with any outcome, for example the zero outcome `""` that `TestResults` stores, which `Exams` would then report. The model only covers results with one of the three outcomes, which are the only ones `runExam` writes. So its clause that every reported outcome is one of the three names holds because of that narrower type.
- Portunes.Portunes.RunExam: `time.ParseDuration` accepts zero and negative durations such as `"0s"` or `"-1s"`, and `preflight` lets them through. For them `time.NewTicker` panics after the initial record, inside the goroutine. The model does not model the panic. It covers such a run only when the caller passes an empty tick sequence, which leaves just the initial `Unknown` record. `FreshRunHistory` is stated for any tick sequence, so it does not single out these intervals.
- Portunes.Results.constructor: requires `max >= 1`, which `newResults` does not. A non-positive bound can only come from `New` as written, and `NegativeHistoryLenEmptiesHistory` covers it.
- Portunes.Portunes.RecordTicks: requires that the exam already has a list, which `runExam` guarantees by writing the initial record first.
- Portunes.Results.List: returns the copy as a sequence of the `Result` values. Go returns a slice of the pointers stored in the list, so aliasing between the copy and the store is not modelled.
- Storage.JSONStorage.Save: the JSON encoding and the file write are not modelled. The outcome is left open: success or some failure text.
- Storage.JSONStorage.constructor: the model receives the decoded map. `New`'s `os.Stat`, `ReadFile` and `json.Unmarshal` are not modelled, nor its I/O error paths.
- A namespace decoded from the file as JSON `null` (a nil inner map, on which Go's `Set` would panic) is not modelled: every namespace holds a map.
- A storage file holding just JSON `null` is not modelled either. `json.Unmarshal` (storage.go:46) then leaves the outer map nil, and the first `Set` panics on the assignment at storage.go:56. The model's map is always a value.
- `filepath.Join(dir, file)` is kept as the pair `(dir, file)`, so path normalisation is not modelled.
- Running the `kubectl` process (`trireme/k8s/kubectl.go`) is not modelled. Whether an invocation fails depends only on the command, through the fixed set `Kubectl.failing`, and its error is reported as the failed command.
- A nil `*Component` in the list, on which Go would panic, is not modelled: the list holds values.
- A nil `*Exam` or `*Notifier` in a battery (a YAML entry `- ~`) is not modelled. `preflight` would panic on `e.Name` (portunes.go:151) or `ns.Name` (portunes.go:168). The battery holds values.
- Platform.Kubectl.RunPhases: each Component method's consecutive `for` loops (one per manifest category) are executed by one loop over the list of categories. Each of those categories is one `RunAll` loop.
- Platform.InstallAll: the two loops of `InstallAll` are the helper methods `InstallSelectedPrereqs` and `InstallSelected`.
- Platform.DeleteAll: the two loops of `DeleteAll` are the helper methods `DeleteComponents` and `DeleteComponentPrereqs`.
- Portunes.Portunes.Preflight: the body of `preflight`'s exam loop is the method `CheckExam`, and the notifier search is the method `FindNotifier`.
- The YAML loading of a battery and the CLI (`portunes/cli/portunes.go`, `trireme/main.go`) are not part of this model.

## Findings

| source | as written | input that shows it | evidently intended | confidence | as-written member | corrected member |
|---|---|---|---|---|---|---|
| portunes/portunes.go:77-79 | `New` replaces only `HistoryLen == 0` with the default, so a negative length reaches `newResults`. `Add` then pushes and removes the same result every time (`Len() > max` always holds). The list stays present but empty, and `Last` calls `.Value` on the nil `Front()` (line 303). | A battery with `historyLen: -1` and one exam run: any sequence of adds, then `Last` on that exam | a non-positive history length falls back to the default (or is rejected), so every stored list is non-empty and `Last` is safe | medium, not executed | Portunes.NegativeHistoryLenEmptiesHistory | Portunes.HistoryLen |
