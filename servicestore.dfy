/**
 The store contract and the volatile, map-backed backend
 (internal/servicestore.go).
 */
module ServiceStore {
  import opened Services

  /** Go's `error` value: `Nil` is the nil error, `Err` any failure. */
  datatype Error = Nil | Err(reason: string)

  /** What `getServices` returns: Go returns the slice and the error together,
      and a caller may see both. */
  datatype Listing = Listing(services: seq<Service>, err: Error)

  /** The table after `addService(s)`: an upsert keyed by the service URL. */
  function Upsert(table: map<string, Service>, s: Service): (r: map<string, Service>)
    ensures s.ServiceURL in r && r[s.ServiceURL] == s
    ensures r.Keys == table.Keys + {s.ServiceURL}
    ensures forall u :: u in table && u != s.ServiceURL ==> r[u] == table[u]
    ensures |r| == if s.ServiceURL in table then |table| else |table| + 1
  {
    var r := table[s.ServiceURL := s];
    assert r.Keys == table.Keys + {s.ServiceURL};
    r
  }

  /** The table after registering `adds` one after another. */
  function RegisterAll(table: map<string, Service>, adds: seq<Service>): (r: map<string, Service>)
    decreases |adds|
  {
    if adds == [] then table
    else Upsert(RegisterAll(table, adds[..|adds| - 1]), adds[|adds| - 1])
  }

  /** The service URLs of a run of registrations. */
  function URLs(adds: seq<Service>): (r: set<string>)
  {
    set i | 0 <= i < |adds| :: adds[i].ServiceURL
  }

  /** The URLs of a run grow by the URL of its last registration. */
  lemma URLsOfSnoc(adds: seq<Service>)
    requires adds != []
    ensures URLs(adds) == URLs(adds[..|adds| - 1]) + {adds[|adds| - 1].ServiceURL}
  {
  }

  /** After a run of registrations, a URL is stored exactly when it was stored
      before or was registered. */
  lemma {:induction false} RegisteredKeys(table: map<string, Service>, adds: seq<Service>)
    ensures RegisterAll(table, adds).Keys == table.Keys + URLs(adds)
    decreases |adds|
  {
    if adds != [] {
      var n := |adds| - 1;
      RegisteredKeys(table, adds[..n]);
      URLsOfSnoc(adds);
    }
  }

  /** After a run of registrations, each URL holds the record registered last
      under it (the latest description wins). */
  lemma {:induction false} RegisteredLatestWins(table: map<string, Service>, adds: seq<Service>, i: nat)
    requires i < |adds|
    requires forall j :: i < j < |adds| ==> adds[j].ServiceURL != adds[i].ServiceURL
    ensures adds[i].ServiceURL in RegisterAll(table, adds)
    ensures RegisterAll(table, adds)[adds[i].ServiceURL] == adds[i]
    decreases |adds|
  {
    var n := |adds| - 1;
    if i < n {
      var init := adds[..n];
      assert init[i] == adds[i];
      assert adds[n].ServiceURL != adds[i].ServiceURL;
      RegisteredLatestWins(table, init, i);
    }
  }

  /** Registering only URLs that are already stored never adds an entry. */
  lemma {:induction false} ReRegisterDoesNotGrow(table: map<string, Service>, adds: seq<Service>)
    requires forall i :: 0 <= i < |adds| ==> adds[i].ServiceURL in table
    ensures RegisterAll(table, adds).Keys == table.Keys
    ensures |RegisterAll(table, adds)| == |table|
    decreases |adds|
  {
    if adds != [] {
      var n := |adds| - 1;
      ReRegisterDoesNotGrow(table, adds[..n]);
    }
  }

  /** The volatile backend: a table from service URL to record, guarded in the
      source by one reader/writer lock; each method is one locked region. */
  class MapServiceStore {
    var services: map<string, Service>

    /** Every record is filed under its own service URL. */
    ghost predicate Valid()
      reads this
    {
      forall u :: u in services ==> services[u].ServiceURL == u
    }

    /** `NewMapServiceStore`: an empty table. */
    constructor ()
      ensures Valid() && services == map[]
    {
      services := map[];
    }

    /** `addService`: upsert under the record's URL; never fails. */
    method AddService(service: Service) returns (err: Error)
      requires Valid()
      modifies this
      ensures Valid()
      ensures services == Upsert(old(services), service)
      ensures err == Nil
    {
      services := services[service.ServiceURL := service];
      err := Nil;
    }

    /** `getServices`: every stored record exactly once, in an unspecified
        order (Go's map iteration order), in a slice of exactly the table's
        size; the records are the stored objects themselves, not copies. */
    method GetServices() returns (listing: Listing)
      requires Valid()
      ensures listing.err == Nil
      ensures |listing.services| == |services|
      ensures forall i :: 0 <= i < |listing.services| ==>
                listing.services[i].ServiceURL in services
                && services[listing.services[i].ServiceURL] == listing.services[i]
      ensures forall i, j :: 0 <= i < j < |listing.services| ==> listing.services[i] != listing.services[j]
      ensures forall u :: u in services ==> services[u] in listing.services
    {
      var slice := new Service?[|services|];
      var remaining := services.Keys;
      var i := 0;
      while remaining != {}
        invariant remaining <= services.Keys
        invariant i + |remaining| == |services|
        invariant forall j :: 0 <= j < i ==>
                    slice[j] != null && slice[j].ServiceURL in services && slice[j].ServiceURL !in remaining
                    && services[slice[j].ServiceURL] == slice[j]
        invariant forall j, k :: 0 <= j < k < i ==> slice[j] != slice[k]
        invariant forall u :: u in services && u !in remaining ==> services[u] in slice[..i]
        decreases remaining
      {
        var u :| u in remaining;
        ghost var done := slice[..i];
        slice[i] := services[u];
        assert slice[..i + 1] == done + [services[u]];
        remaining := remaining - {u};
        i := i + 1;
      }
      var result: seq<Service> := slice[..];
      listing := Listing(result, Nil);
    }

    /** `Close`: nothing to release; never fails and changes nothing. */
    method Close() returns (err: Error)
      ensures err == Nil
    {
      err := Nil;
    }

    /** `String`: the backend's name in diagnostics. */
    method String() returns (name: string)
      ensures name == "map"
    {
      name := "map";
    }
  }
}
