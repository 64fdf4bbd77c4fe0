# Service registry: stores and health polling, in Dafny

This project models the in-memory bookkeeping of a small service registry.
Clients register service records and list them. A record is keyed by its
service URL and may name a health-check URL. The model covers three parts of
the registry's core:

- **The service record and its validation** (`internal/service.go`, module
  `Services`). `Service` is a class. Its descriptive fields are constants.
  Its three health fields (`Available`, `LastChecked`, `LastAvailable`) are
  variables. `Validate` is the check the HTTP layer runs before a record
  reaches a store. Go's `url.ParseRequestURI` is a function parameter
  `parsesAsRequestURI: string -> bool`, and its rules stay abstract.
- **The volatile backend** (`internal/servicestore.go`, module `ServiceStore`).
  `MapServiceStore` is a class over a `map<string, Service>`. `AddService`
  upserts by URL. `GetServices` fills a preallocated slice by walking the
  map in an unspecified order. `Upsert` and `RegisterAll` are the pure view
  of registration, and the lemmas state the idempotent-upsert properties.
- **The health-polling decorator** (`internal/pollingservicestore.go`,
  module `Polling`). `PollingServiceStore` keeps the launch set
  `pollingMap` and the three per-URL health maps. It also has a ghost log,
  `launched`, with one entry for every polling task it starts. Each locked
  region of the source is one method. The wrapped store is reached through a
  Go interface, so each decorator operation that delegates receives the
  wrapped store's answer as a parameter (`delegated`, `listing`). The GET
  result and the clock reading are parameters too (`outcome`, `now`). Pure
  functions (`ResetLastAvailable`, `RecordPoll`, `Overlay`, `AddLaunch`,
  `AddAll`, `StartupLaunches`) give the meaning of each state change. The
  lemmas connect them: launch-once, what a listing reports after any run of
  polls, and that a task touches only its own URL.

Records are objects, so pointer aliasing is modelled directly. The map
backend hands out the objects it stores, and the decorator's listing writes
the polled state into them. `Polling.ListOverMapStore` states the result:
after a listing through the decorator over the map backend, the stored
records themselves carry the overlaid health state.

Two behaviours worth noting:

- **Startup:** construction launches polling tasks for the records that are
  already stored, but does not add their URLs to `pollingMap`
  (`internal/pollingservicestore.go:48-52`). See the findings below.
- **Order in `addService`:** the launch decision is taken before the call is
  delegated to the wrapped store, and it does not depend on that call's
  result (`internal/pollingservicestore.go:57-69`).

`Time` is an integer clock reading. `ZeroTime` (0) stands for Go's zero
`time.Time`. A Go map index on a missing key reads as the zero value; `TimeAt`
models this for the time maps.

## Model

| member | source | states |
|---|---|---|
| `Services.Service.constructor` | internal/service.go:8-17 | a record holds exactly the eight fields it is built from |
| `Services.Validate` | internal/service.go:19-42 | rejects when the service URL, spec URL or description is empty; rejects when the service or spec URL fails request-URI parsing; rejects a non-empty health-check URL that fails parsing; accepts when all of these pass |
| `Services.EmptyHealthcheckNeverRejects` | internal/service.go:34-39 | with an empty health-check URL, the verdict depends only on the required fields and the two URL parses |
| `Services.ValidateIgnoresTagsAndHealth` | internal/service.go:19 | tags and the three health fields never change the verdict; validation reads none of the record's variable fields, so it cannot change the record |
| `ServiceStore.Upsert` | internal/servicestore.go:28 | after registering `s`, the table maps `s.ServiceURL` to `s`, its keys gain that URL and nothing else, every other entry is unchanged, and the size grows by one exactly when the URL was new |
| `ServiceStore.RegisteredKeys` | internal/servicestore.go:24-31 | after a run of registrations, the stored URLs are exactly the earlier ones plus the registered ones |
| `ServiceStore.RegisteredLatestWins` | internal/servicestore.go:28 | after a run of registrations, each URL holds the record registered last under it |
| `ServiceStore.ReRegisterDoesNotGrow` | internal/servicestore.go:28 | re-registering only URLs that are already stored keeps the same keys and size, so no duplicate entry is ever created |
| `ServiceStore.MapServiceStore.constructor` | internal/servicestore.go:17-22 | a new map store is empty and valid (every record filed under its own URL) |
| `ServiceStore.MapServiceStore.AddService` | internal/servicestore.go:24-31 | the table becomes `Upsert(old table, service)`, the store stays valid, and the result is the nil error |
| `ServiceStore.MapServiceStore.GetServices` | internal/servicestore.go:33-46 | returns the nil error and a slice as long as the table; every element is the stored object for its own URL, no element appears twice, and every stored record appears; the table is not changed |
| `ServiceStore.MapServiceStore.Close` | internal/servicestore.go:48-50 | returns the nil error and changes nothing |
| `ServiceStore.MapServiceStore.String` | internal/servicestore.go:52-54 | the backend's name is `"map"` |
| `Polling.ResetLastAvailable` | internal/pollingservicestore.go:94-96 | a task's reset sets its URL's last-available time to zero, adds no other key, and leaves the availability and last-checked maps and all other URLs untouched |
| `Polling.RecordPoll` | internal/pollingservicestore.go:118-129 | a poll sets the URL's availability to its status and last-checked to `now`; it sets last-available to `now` only on success and leaves it unchanged on failure; other URLs are untouched |
| `Polling.PollSucceeded` | internal/pollingservicestore.go:105-116 | a poll succeeds exactly when the GET had no transport error and answered status 200 |
| `Polling.OverlayKeepsUnpolled` | internal/pollingservicestore.go:82-83 | a record whose URL has no availability entry is listed with the fields its store returned |
| `Polling.OverlayIdempotent` | internal/pollingservicestore.go:81-88 | overlaying the same state twice reports the same as once |
| `Polling.ListedAfterSuccessfulPoll` | internal/pollingservicestore.go:124-128 | after a successful poll at `now`, the record is listed as available, checked at `now` and last available at `now` |
| `Polling.ListedAfterFailedPoll` | internal/pollingservicestore.go:124-128 | after a failed poll at `now`, the record is listed as unavailable, checked at `now`, with the last-available time it had before |
| `Polling.PollsLeaveOtherURLs` | internal/pollingservicestore.go:118-129 | any run of polls by the task of one URL leaves every other URL's entries in all three maps as they were |
| `Polling.LastAvailableIsLastSuccess` | internal/pollingservicestore.go:93-102 | after a task's reset and any run of its polls, its URL's last-available time is the time of the latest successful poll, or zero if none succeeded |
| `Polling.ZeroLastAvailableMeansNoSuccess` | internal/pollingservicestore.go:93-102 | with every poll made at a positive clock reading, a task's last-available time is zero exactly when none of its polls has succeeded |
| `Polling.ListedAfterPolls` | internal/pollingservicestore.go:93-102 | once a task has polled, a listing reports the latest poll's outcome and time and the latest success time, whatever the store held |
| `Polling.AddAllLaunchesOnce` | internal/pollingservicestore.go:57-69 | a run of registrations launches one task for each health-checked URL not yet in `pollingMap` and for no other URL; no URL is launched twice; afterwards `pollingMap` holds exactly the earlier URLs plus the health-checked ones |
| `Polling.RepeatedAddsLaunchAtMostOnce` | internal/pollingservicestore.go:58-66 | registering the same URL any number of times launches one task if the URL was untracked and some registration had a health-check URL, and none otherwise |
| `Polling.StartupLaunches` | internal/pollingservicestore.go:48-52 | construction launches exactly one task per listed record with a non-empty health-check URL (the launch count equals the number of such records), and a URL is launched exactly when some listed record with that URL has a health-check URL |
| `Polling.StartupThenReAddLaunchesTwice` | internal/pollingservicestore.go:48-52 | as written, a health-checked service found at startup and then registered again gets two polling tasks |
| `Polling.SecondTaskResetHidesLastAvailable` | internal/pollingservicestore.go:95 | a second task's reset, arriving after the first task saw the service up at `t`, makes the listing report it available at `t` but never available |
| `Polling.CorrectedStartupLaunchesOnce` | internal/pollingservicestore.go:48-52 | with startup records put through the launch-once step, no URL is launched twice by construction plus any later registrations |
| `Polling.PollingServiceStore.Init` | internal/pollingservicestore.go:26-41 | a fresh decorator has an empty `pollingMap`, empty health maps and no launched tasks |
| `Polling.PollingServiceStore.New` | internal/pollingservicestore.go:25-55 | a failed initial listing yields that error and no store; otherwise the store has empty health maps and an empty `pollingMap`, and exactly the listed health-checked records have had tasks launched, in listing order |
| `Polling.PollingServiceStore.AddService` | internal/pollingservicestore.go:57-70 | `pollingMap` and the launch log change exactly as `AddLaunch` says, whatever the wrapped store answers; afterwards a health-checked record's URL is in `pollingMap` and has a launched task; the health maps are untouched; the wrapped store's answer is returned unchanged |
| `Polling.PollingServiceStore.GetServices` | internal/pollingservicestore.go:72-91 | a failed listing is returned as it is, with no record changed; otherwise the same slice is returned, and each listed record's health fields become `Overlay` of the health maps, so only records whose URL has an availability entry change, and their last-checked time is the stored one, never a default; the decorator's maps are not modified |
| `Polling.PollingServiceStore.StartServicePolling` | internal/pollingservicestore.go:93-96 | the health maps become `ResetLastAvailable` of the old ones for the record's URL |
| `Polling.PollingServiceStore.PollService` | internal/pollingservicestore.go:105-116 | the health maps become `RecordPoll` of the old ones with the status `PollSucceeded(outcome)` |
| `Polling.PollingServiceStore.UpdatePollStatus` | internal/pollingservicestore.go:118-129 | the health maps become `RecordPoll` of the old ones; the launch set is untouched |
| `Polling.PollingServiceStore.Close` | internal/pollingservicestore.go:131-133 | returns the wrapped store's answer to `Close` unchanged |
| `Polling.ListOverMapStore` | internal/pollingservicestore.go:84-86 | listing through the decorator over the map backend returns each stored record, and only stored records, in a slice as long as the table, and writes the overlaid health state into the map backend's own stored records |

## Left out

- The bolt-backed durable store (`internal/boltdbservicestore.go`) is not part of this model. It wraps a transactional file store and a msgpack codec, and neither library is modelled.
- The HTTP layer (`internal/api.go`), the HTML page (`internal/htmlpage.go`) and process start-up and shutdown (`cmd/registry.go`) are transport, rendering and process I/O.
- Goroutines, the mutexes and the `time.Tick` loop that repeats polls forever (`internal/pollingservicestore.go:98-102`). Each locked region is one atomic method. Launching a task is one entry in the ghost log `launched`. A task's life is modelled as its reset followed by any finite run of polls (`RunPolls`). Interleavings of several tasks are not enumerated.
- The `http.Client` configuration and the GET itself. The GET is reduced to its outcome (`GetOutcome`). Closing the response body is not modelled.
- `url.ParseRequestURI` is the abstract parameter `parsesAsRequestURI`.
- `PollingServiceStore.String` formats the polling interval with Go's duration printing. That formatting is library code and is not modelled.
- The `ServiceStore` interface as a type: the decorator's methods take the wrapped store's answers as parameters. `Polling.ListOverMapStore` composes the decorator with the map backend.
- `Time` is an unbounded integer and the zero time is 0. Go's clock never reads the zero time; the model only knows this where a lemma requires positive poll times (`Polling.ZeroLastAvailableMeansNoSuccess`). Elsewhere a poll at time 0 cannot be told apart from no successful poll.
- Descriptive record fields are constants. In the source they are ordinary struct fields, but no code in the core writes them after a record exists.

## Findings

| source | as written | input that shows it | evidently intended | confidence | as-written member | corrected member |
|---|---|---|---|---|---|---|
| internal/pollingservicestore.go:48-52 | construction launches a polling task for each stored health-checked record but never adds its URL to `pollingMap`, which `addService` uses to launch only once | a store that already holds a record with a health-check URL; construct the decorator, then register that record again; two tasks now poll the same URL, and the second task's reset can make a listing show the service as available but never available | startup URLs enter `pollingMap`, like registrations, so each URL has at most one task | high (not executed) | `Polling.StartupThenReAddLaunchesTwice` | `Polling.CorrectedStartupLaunchesOnce` |

`Polling.PollingServiceStore.New` keeps the constructor's behaviour as
written, because it models the source. The corrected construction is
`Polling.CorrectedStartupState`. It puts each listed record through the same
launch-once step as a registration (`AddAll`). The no-duplicate-launch
property is proved for that corrected construction.
