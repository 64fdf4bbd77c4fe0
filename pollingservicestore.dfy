/**
 The health-polling decorator (internal/pollingservicestore.go): a store that
 wraps another one, launches one polling task per health-checked service
 URL, and overlays the polled state onto the records it lists.

 The wrapped store is reached through an interface, so the decorator only
 sees what each delegated call returned; every operation that delegates takes
 that answer as a parameter. Each locked region of the source is one method.
 Launching a polling task is recorded in a ghost log; the task's endless
 poll loop is not modelled, only the state change each of its locked regions
 makes (StartServicePolling, UpdatePollStatus).
 */
module Polling {
  import opened Services
  import opened ServiceStore

  // ---------------------------------------------------------------------------
  // Health state

  /** The three per-URL maps kept under the decorator's state lock. */
  datatype HealthMaps = HealthMaps(availability: map<string, bool>,
                                   lastChecked: map<string, Time>,
                                   lastAvailable: map<string, Time>)

  /** The three health fields of one record. */
  datatype HealthFields = HealthFields(available: bool, lastChecked: Time, lastAvailable: Time)

  function HealthOf(s: Service): HealthFields
    reads s
  {
    HealthFields(s.Available, s.LastChecked, s.LastAvailable)
  }

  /** Go's map index on a time map: a missing key reads as the zero time. */
  function TimeAt(m: map<string, Time>, u: string): Time
  {
    if u in m then m[u] else ZeroTime
  }

  /** `u`'s entries agree in `h` and `h'`, in all three maps. */
  ghost predicate SameAt(h: HealthMaps, h': HealthMaps, u: string)
  {
    && (u in h.availability <==> u in h'.availability)
    && (u in h.availability ==> h.availability[u] == h'.availability[u])
    && (u in h.lastChecked <==> u in h'.lastChecked)
    && (u in h.lastChecked ==> h.lastChecked[u] == h'.lastChecked[u])
    && (u in h.lastAvailable <==> u in h'.lastAvailable)
    && (u in h.lastAvailable ==> h.lastAvailable[u] == h'.lastAvailable[u])
  }

  /** The first locked region of `startServicePolling`: before its first
      poll, a task marks its URL as never available. */
  function ResetLastAvailable(h: HealthMaps, u: string): (r: HealthMaps)
    ensures r.availability == h.availability && r.lastChecked == h.lastChecked
    ensures u in r.lastAvailable && r.lastAvailable[u] == ZeroTime
    ensures r.lastAvailable.Keys == h.lastAvailable.Keys + {u}
    ensures forall v :: v != u ==> SameAt(h, r, v)
  {
    h.(lastAvailable := h.lastAvailable[u := ZeroTime])
  }

  /** `updatePollStatus`: record the outcome of one poll of `u` made at `now`. */
  function RecordPoll(h: HealthMaps, u: string, status: bool, now: Time): (r: HealthMaps)
    ensures u in r.availability && r.availability[u] == status
    ensures u in r.lastChecked && r.lastChecked[u] == now
    ensures status ==> u in r.lastAvailable && r.lastAvailable[u] == now
    ensures !status ==> r.lastAvailable == h.lastAvailable
    ensures r.availability.Keys == h.availability.Keys + {u}
    ensures r.lastChecked.Keys == h.lastChecked.Keys + {u}
    ensures forall v :: v != u ==> SameAt(h, r, v)
  {
    HealthMaps(h.availability[u := status],
               h.lastChecked[u := now],
               if status then h.lastAvailable[u := now] else h.lastAvailable)
  }

  /** The fields `getServices` reports for a record with URL `u` whose
      wrapped store reported `cur`: the polled state once `u` has been polled
      at all, the stored fields otherwise. */
  function Overlay(h: HealthMaps, u: string, cur: HealthFields): (r: HealthFields)
  {
    if u in h.availability then HealthFields(h.availability[u], TimeAt(h.lastChecked, u), TimeAt(h.lastAvailable, u))
    else cur
  }

  /** What the health-check GET produced. */
  datatype GetOutcome = TransportError | Response(statusCode: int)

  const StatusOK: int := 200

  /** The success decision of `pollService`. */
  function PollSucceeded(outcome: GetOutcome): (ok: bool)
    ensures ok <==> outcome.Response? && outcome.statusCode == StatusOK
  {
    match outcome
    case TransportError => false
    case Response(code) => code == StatusOK
  }

  // ---------------------------------------------------------------------------
  // What a listing reports after polling

  /** A service that was never polled is listed with the fields its store holds. */
  lemma OverlayKeepsUnpolled(h: HealthMaps, u: string, cur: HealthFields)
    requires u !in h.availability
    ensures Overlay(h, u, cur) == cur
  {
  }

  /** Listing twice reports the same: the overlay is idempotent. */
  lemma OverlayIdempotent(h: HealthMaps, u: string, cur: HealthFields)
    ensures Overlay(h, u, Overlay(h, u, cur)) == Overlay(h, u, cur)
  {
  }

  /** After a successful poll at `now`, the service is listed as available,
      checked and last seen available at `now`, whatever it held before. */
  lemma ListedAfterSuccessfulPoll(h: HealthMaps, u: string, now: Time, cur: HealthFields)
    ensures Overlay(RecordPoll(h, u, true, now), u, cur) == HealthFields(true, now, now)
  {
  }

  /** After a failed poll at `now`, the service is listed as unavailable and
      checked at `now`; its last-available time is what it was before. */
  lemma ListedAfterFailedPoll(h: HealthMaps, u: string, now: Time, cur: HealthFields)
    ensures Overlay(RecordPoll(h, u, false, now), u, cur) == HealthFields(false, now, TimeAt(h.lastAvailable, u))
  {
  }

  /** One poll of one task: whether it succeeded and the clock reading. */
  datatype Poll = Poll(succeeded: bool, at: Time)

  /** The health maps after the task of `u` recorded `polls`, in order. */
  function RunPolls(h: HealthMaps, u: string, polls: seq<Poll>): (r: HealthMaps)
    decreases |polls|
  {
    if polls == [] then h
    else
      var last := polls[|polls| - 1];
      RecordPoll(RunPolls(h, u, polls[..|polls| - 1]), u, last.succeeded, last.at)
  }

  /** The time of the last successful poll, or the zero time if none succeeded. */
  function LastSuccessTime(polls: seq<Poll>): (t: Time)
    decreases |polls|
  {
    if polls == [] then ZeroTime
    else if polls[|polls| - 1].succeeded then polls[|polls| - 1].at
    else LastSuccessTime(polls[..|polls| - 1])
  }

  /** A polling task touches only its own URL's entries. */
  lemma {:induction false} PollsLeaveOtherURLs(h: HealthMaps, u: string, polls: seq<Poll>, v: string)
    requires v != u
    ensures SameAt(h, RunPolls(h, u, polls), v)
    decreases |polls|
  {
    if polls != [] {
      PollsLeaveOtherURLs(h, u, polls[..|polls| - 1], v);
    }
  }

  /** After the reset that starts a task, the last-available entry of its URL
      is the time of its last successful poll, or zero if none succeeded. */
  lemma {:induction false} LastAvailableIsLastSuccess(h: HealthMaps, u: string, polls: seq<Poll>)
    ensures u in RunPolls(ResetLastAvailable(h, u), u, polls).lastAvailable
    ensures RunPolls(ResetLastAvailable(h, u), u, polls).lastAvailable[u] == LastSuccessTime(polls)
    decreases |polls|
  {
    if polls != [] {
      LastAvailableIsLastSuccess(h, u, polls[..|polls| - 1]);
    }
  }

  /** Go's clock never reads the zero time, so with every poll made at a
      positive clock reading, a zero last-available time after the reset means
      exactly that no poll has succeeded yet. */
  lemma {:induction false} ZeroLastAvailableMeansNoSuccess(h: HealthMaps, u: string, polls: seq<Poll>)
    requires forall i :: 0 <= i < |polls| ==> polls[i].at > ZeroTime
    ensures u in RunPolls(ResetLastAvailable(h, u), u, polls).lastAvailable
    ensures RunPolls(ResetLastAvailable(h, u), u, polls).lastAvailable[u] == ZeroTime
            <==> forall i :: 0 <= i < |polls| ==> !polls[i].succeeded
    decreases |polls|
  {
    LastAvailableIsLastSuccess(h, u, polls);
    NoSuccessIffZero(polls);
  }

  /** `LastSuccessTime` is zero exactly when no poll succeeded, given positive times. */
  lemma {:induction false} NoSuccessIffZero(polls: seq<Poll>)
    requires forall i :: 0 <= i < |polls| ==> polls[i].at > ZeroTime
    ensures LastSuccessTime(polls) == ZeroTime <==> forall i :: 0 <= i < |polls| ==> !polls[i].succeeded
    decreases |polls|
  {
    if polls != [] {
      var n := |polls| - 1;
      NoSuccessIffZero(polls[..n]);
      assert forall i :: 0 <= i < n ==> polls[..n][i] == polls[i];
    }
  }

  /** What a listing shows for a service whose task has polled at least once:
      the outcome and time of the latest poll, and the time of the latest
      successful one (zero if none succeeded); the stored fields are ignored. */
  lemma ListedAfterPolls(h: HealthMaps, u: string, polls: seq<Poll>, cur: HealthFields)
    requires polls != []
    ensures var last := polls[|polls| - 1];
            Overlay(RunPolls(ResetLastAvailable(h, u), u, polls), u, cur)
            == HealthFields(last.succeeded, last.at, LastSuccessTime(polls))
  {
  }

  // ---------------------------------------------------------------------------
  // Launching polling tasks

  /** The launch bookkeeping: the URLs in `pollingMap` and the URLs whose
      polling tasks were launched, in launch order. */
  datatype Launches = Launches(pollingMap: set<string>, launched: seq<string>)

  /** The locked region of `addService`: a task is launched for a
      health-checked record whose URL is not yet in `pollingMap`. */
  function AddLaunch(pollingMap: set<string>, s: Service): (r: Launches)
  {
    if s.HealthcheckURL != "" && s.ServiceURL !in pollingMap then
      Launches(pollingMap + {s.ServiceURL}, [s.ServiceURL])
    else Launches(pollingMap, [])
  }

  /** The launch bookkeeping after `addService` of each of `adds`, in order. */
  function AddAll(pollingMap: set<string>, adds: seq<Service>): (r: Launches)
    decreases |adds|
  {
    if adds == [] then Launches(pollingMap, [])
    else
      var first := AddLaunch(pollingMap, adds[0]);
      var rest := AddAll(first.pollingMap, adds[1..]);
      Launches(rest.pollingMap, first.launched + rest.launched)
  }

  ghost predicate NoDuplicates(s: seq<string>)
  {
    forall i, j :: 0 <= i < j < |s| ==> s[i] != s[j]
  }

  /** The health-checked URLs among `adds`. */
  function CheckedURLs(adds: seq<Service>): (r: set<string>)
  {
    set i | 0 <= i < |adds| && adds[i].HealthcheckURL != "" :: adds[i].ServiceURL
  }

  /** Launch once: a run of registrations launches one task for each
      health-checked URL not already in `pollingMap`, and no other; no URL is
      launched twice; afterwards every health-checked URL is in `pollingMap`. */
  lemma {:induction false} AddAllLaunchesOnce(pollingMap: set<string>, adds: seq<Service>)
    ensures NoDuplicates(AddAll(pollingMap, adds).launched)
    ensures forall u :: u in AddAll(pollingMap, adds).launched <==> u !in pollingMap && u in CheckedURLs(adds)
    ensures AddAll(pollingMap, adds).pollingMap == pollingMap + CheckedURLs(adds)
    decreases |adds|
  {
    if adds != [] {
      var first := AddLaunch(pollingMap, adds[0]);
      AddAllLaunchesOnce(first.pollingMap, adds[1..]);
      CheckedURLsOfCons(adds);
    }
  }

  /** `CheckedURLs` split after the first record. */
  lemma CheckedURLsOfCons(adds: seq<Service>)
    requires adds != []
    ensures CheckedURLs(adds) == CheckedURLs(adds[1..]) + (if adds[0].HealthcheckURL != "" then {adds[0].ServiceURL} else {})
  {
  }

  /** Registering the same service URL any number of times launches at most
      one polling task: one if the URL was not yet tracked and some
      registration carried a health-check URL, none otherwise. */
  lemma {:induction false} RepeatedAddsLaunchAtMostOnce(pollingMap: set<string>, adds: seq<Service>, u: string)
    requires forall i :: 0 <= i < |adds| ==> adds[i].ServiceURL == u
    ensures AddAll(pollingMap, adds).launched
            == if u !in pollingMap && u in CheckedURLs(adds) then [u] else []
    decreases |adds|
  {
    if adds != [] {
      var first := AddLaunch(pollingMap, adds[0]);
      RepeatedAddsLaunchAtMostOnce(first.pollingMap, adds[1..], u);
      CheckedURLsOfCons(adds);
    }
  }

  /** The number of records among `listed` that have a health-check URL. */
  function CountChecked(listed: seq<Service>): (n: nat)
    decreases |listed|
  {
    if listed == [] then 0
    else CountChecked(listed[..|listed| - 1]) + (if listed[|listed| - 1].HealthcheckURL != "" then 1 else 0)
  }

  /** The URLs for which construction launches polling tasks: those of the
      listed records with a health-check URL, one per record, in listing order. */
  function StartupLaunches(listed: seq<Service>): (r: seq<string>)
    ensures |r| == CountChecked(listed) <= |listed|
    ensures forall u :: u in r <==> u in CheckedURLs(listed)
    decreases |listed|
  {
    if listed == [] then []
    else
      var n := |listed| - 1;
      var init := StartupLaunches(listed[..n]);
      assert CheckedURLs(listed) == CheckedURLs(listed[..n]) + (if listed[n].HealthcheckURL != "" then {listed[n].ServiceURL} else {}) by {
        CheckedURLsOfSnoc(listed);
      }
      init + (if listed[n].HealthcheckURL != "" then [listed[n].ServiceURL] else [])
  }

  /** `CheckedURLs` split before the last record. */
  lemma CheckedURLsOfSnoc(listed: seq<Service>)
    requires listed != []
    ensures var n := |listed| - 1;
            CheckedURLs(listed) == CheckedURLs(listed[..n]) + (if listed[n].HealthcheckURL != "" then {listed[n].ServiceURL} else {})
  {
  }

  /** The launch bookkeeping right after construction, as the source has it:
      tasks are launched for the listed health-checked records, but their
      URLs are not put into `pollingMap`. */
  function StartupState(listed: seq<Service>): Launches
  {
    Launches({}, StartupLaunches(listed))
  }

  /** Construction as evidently intended: each listed record goes through the
      same launch-once step as a registration, so its URL enters `pollingMap`. */
  function CorrectedStartupState(listed: seq<Service>): Launches
  {
    AddAll({}, listed)
  }

  /** As written, re-registering a health-checked service found at startup
      launches a second polling task for the same URL. */
  lemma StartupThenReAddLaunchesTwice(s: Service)
    requires s.HealthcheckURL != ""
    ensures var st := StartupState([s]);
            st.launched + AddLaunch(st.pollingMap, s).launched == [s.ServiceURL, s.ServiceURL]
  {
  }

  /** What the second task does to a listing: its reset, arriving after the
      first task found the service up at `t`, makes the listing report the
      service as available yet never seen available. */
  lemma SecondTaskResetHidesLastAvailable(h: HealthMaps, u: string, t: Time, cur: HealthFields)
    ensures Overlay(ResetLastAvailable(RecordPoll(h, u, true, t), u), u, cur) == HealthFields(true, t, ZeroTime)
  {
  }

  /** With the corrected construction, no URL is ever launched twice, however
      many registrations follow. */
  lemma CorrectedStartupLaunchesOnce(listed: seq<Service>, adds: seq<Service>)
    ensures var st := CorrectedStartupState(listed);
            NoDuplicates(st.launched + AddAll(st.pollingMap, adds).launched)
  {
    var st := CorrectedStartupState(listed);
    var later := AddAll(st.pollingMap, adds);
    AddAllLaunchesOnce({}, listed);
    AddAllLaunchesOnce(st.pollingMap, adds);
    var all := st.launched + later.launched;
    forall i, j | 0 <= i < j < |all| ensures all[i] != all[j] {
      if j >= |st.launched| && i < |st.launched| {
        assert all[i] in st.launched;
        assert all[j] in later.launched;
      } else if i >= |st.launched| {
        assert all[i] == later.launched[i - |st.launched|];
        assert all[j] == later.launched[j - |st.launched|];
      }
    }
  }

  // ---------------------------------------------------------------------------
  // The decorator

  class PollingServiceStore {
    /** URLs for which `addService` launched a polling task (a Go map whose
        values are always true, so a set). Guarded by the launch lock. */
    var pollingMap: set<string>
    /** Guarded together by the state lock. */
    var availabilityMap: map<string, bool>
    var lastCheckedMap: map<string, Time>
    var lastAvailableMap: map<string, Time>
    const pollingInterval: int
    /** Every `go startServicePolling(...)`, as the URL it polls, in order. */
    ghost var launched: seq<string>

    function Health(): HealthMaps
      reads this
    {
      HealthMaps(availabilityMap, lastCheckedMap, lastAvailableMap)
    }

    /** Every poll writes the availability and last-checked maps together,
        and every URL in `pollingMap` has had its task launched. */
    ghost predicate Valid()
      reads this
    {
      && availabilityMap.Keys == lastCheckedMap.Keys
      && forall u :: u in pollingMap ==> u in launched
    }

    constructor Init(pollingInterval: int)
      ensures Valid()
      ensures this.pollingInterval == pollingInterval
      ensures pollingMap == {} && launched == []
      ensures Health() == HealthMaps(map[], map[], map[])
    {
      this.pollingInterval := pollingInterval;
      pollingMap := {};
      availabilityMap := map[];
      lastCheckedMap := map[];
      lastAvailableMap := map[];
      launched := [];
    }

    /** `NewPollingServiceStore`, given what the wrapped store's initial
        `getServices` returned: a failed listing is returned as the error,
        with no store; otherwise a task is launched for each listed record
        with a health-check URL, while `pollingMap` stays empty. */
    static method New(listing: Listing, pollingInterval: int) returns (ps: PollingServiceStore?, err: Error)
      ensures listing.err != Nil ==> ps == null && err == listing.err
      ensures listing.err == Nil ==> ps != null && fresh(ps) && ps.Valid() && err == Nil
      ensures listing.err == Nil ==> ps.pollingInterval == pollingInterval
      ensures listing.err == Nil ==> ps.pollingMap == StartupState(listing.services).pollingMap
      ensures listing.err == Nil ==> ps.launched == StartupState(listing.services).launched
      ensures listing.err == Nil ==> ps.Health() == HealthMaps(map[], map[], map[])
    {
      var store := new PollingServiceStore.Init(pollingInterval);
      if listing.err != Nil {
        return null, listing.err;
      }
      var existing := listing.services;
      var i := 0;
      while i < |existing|
        invariant 0 <= i <= |existing|
        invariant store.Valid() && store.pollingInterval == pollingInterval && store.pollingMap == {}
        invariant store.launched == StartupLaunches(existing[..i])
        invariant store.Health() == HealthMaps(map[], map[], map[])
      {
        var service := existing[i];
        assert existing[..i + 1][..i] == existing[..i];
        if service.HealthcheckURL != "" {
          // launch the polling task for this URL
          store.launched := store.launched + [service.ServiceURL];
        }
        i := i + 1;
      }
      assert existing[..i] == existing;
      return store, Nil;
    }

    /** `addService`, given what the wrapped store's `addService` returned.
        The launch decision is taken first, under the launch lock, and does
        not depend on that answer, which is returned unchanged. */
    method AddService(service: Service, delegated: Error) returns (err: Error)
      requires Valid()
      modifies this`pollingMap, this`launched
      ensures Valid()
      ensures pollingMap == AddLaunch(old(pollingMap), service).pollingMap
      ensures launched == old(launched) + AddLaunch(old(pollingMap), service).launched
      ensures service.HealthcheckURL != "" ==> service.ServiceURL in pollingMap && service.ServiceURL in launched
      ensures err == delegated
    {
      if service.HealthcheckURL != "" {
        if service.ServiceURL !in pollingMap {
          // launch the polling task for this URL
          launched := launched + [service.ServiceURL];
          pollingMap := pollingMap + {service.ServiceURL};
        }
      }
      err := delegated;
    }

    /** `getServices`, given what the wrapped store's `getServices` returned.
        A failed listing is passed on as it is. Otherwise each listed record
        whose URL has been polled gets the polled state written into it, in
        place, through the reference the wrapped store handed out; the slice
        itself, its order and all other fields are those of the wrapped store. */
    method GetServices(listing: Listing) returns (r: Listing)
      requires Valid()
      modifies set i | 0 <= i < |listing.services| :: listing.services[i]
      ensures r == listing
      ensures listing.err != Nil ==>
                forall i :: 0 <= i < |listing.services| ==> HealthOf(listing.services[i]) == old(HealthOf(listing.services[i]))
      ensures listing.err == Nil ==>
                forall i :: 0 <= i < |listing.services| ==>
                  HealthOf(listing.services[i])
                  == Overlay(Health(), listing.services[i].ServiceURL, old(HealthOf(listing.services[i])))
      ensures listing.err == Nil ==>
                forall i :: 0 <= i < |listing.services| && listing.services[i].ServiceURL in availabilityMap ==>
                  listing.services[i].LastChecked == lastCheckedMap[listing.services[i].ServiceURL]
    {
      r := listing;
      if listing.err != Nil {
        return;
      }
      var slice := listing.services;
      var i := 0;
      while i < |slice|
        invariant 0 <= i <= |slice|
        invariant forall j :: 0 <= j < i ==>
                    HealthOf(slice[j]) == Overlay(Health(), slice[j].ServiceURL, old(HealthOf(slice[j])))
        invariant forall j :: i <= j < |slice| && slice[j] !in slice[..i] ==> HealthOf(slice[j]) == old(HealthOf(slice[j]))
      {
        var service := slice[i];
        assert slice[..i + 1] == slice[..i] + [service];
        if service.ServiceURL in availabilityMap {
          service.Available := availabilityMap[service.ServiceURL];
          service.LastChecked := TimeAt(lastCheckedMap, service.ServiceURL);
          service.LastAvailable := TimeAt(lastAvailableMap, service.ServiceURL);
        }
        i := i + 1;
      }
    }

    /** The first locked region of `startServicePolling`, run by a newly
        launched task before its first poll. */
    method StartServicePolling(service: Service)
      requires Valid()
      modifies this`lastAvailableMap
      ensures Valid()
      ensures Health() == ResetLastAvailable(old(Health()), service.ServiceURL)
    {
      lastAvailableMap := lastAvailableMap[service.ServiceURL := ZeroTime];
    }

    /** `pollService`, given the outcome of the GET and the clock reading the
        status update takes. */
    method PollService(service: Service, outcome: GetOutcome, now: Time)
      requires Valid()
      modifies this`availabilityMap, this`lastCheckedMap, this`lastAvailableMap
      ensures Valid()
      ensures Health() == RecordPoll(old(Health()), service.ServiceURL, PollSucceeded(outcome), now)
    {
      var pollSuccess := false;
      if outcome.Response? {
        if outcome.statusCode == StatusOK {
          pollSuccess := true;
        }
      }
      UpdatePollStatus(service, pollSuccess, now);
    }

    /** `updatePollStatus`: one locked write of a poll's outcome. */
    method UpdatePollStatus(service: Service, status: bool, now: Time)
      requires Valid()
      modifies this`availabilityMap, this`lastCheckedMap, this`lastAvailableMap
      ensures Valid()
      ensures Health() == RecordPoll(old(Health()), service.ServiceURL, status, now)
    {
      availabilityMap := availabilityMap[service.ServiceURL := status];
      lastCheckedMap := lastCheckedMap[service.ServiceURL := now];
      if status {
        lastAvailableMap := lastAvailableMap[service.ServiceURL := now];
      }
    }

    /** `Close`: the wrapped store's answer to `Close`, unchanged. */
    method Close(delegated: Error) returns (err: Error)
      ensures err == delegated
    {
      err := delegated;
    }
  }

  /** Listing through the decorator when it wraps the map backend: the
      records the map store keeps are the ones the overlay writes, so after
      the listing the stored records themselves carry the polled state. */
  method ListOverMapStore(ps: PollingServiceStore, m: MapServiceStore) returns (r: Listing)
    requires ps.Valid() && m.Valid()
    modifies m.services.Values
    ensures r.err == Nil && |r.services| == |m.services|
    ensures forall u :: u in m.services ==> m.services[u] in r.services
    ensures forall i :: 0 <= i < |r.services| ==> r.services[i] in m.services.Values
    ensures forall u :: u in m.services ==>
              HealthOf(m.services[u]) == Overlay(ps.Health(), u, old(HealthOf(m.services[u])))
  {
    var listing := m.GetServices();
    assert forall i :: 0 <= i < |listing.services| ==> listing.services[i] in m.services.Values;
    r := ps.GetServices(listing);
    forall u | u in m.services
      ensures HealthOf(m.services[u]) == Overlay(ps.Health(), u, old(HealthOf(m.services[u])))
    {
      var i :| 0 <= i < |listing.services| && listing.services[i] == m.services[u];
    }
  }
}
