/** The observable result of fetchLatestVersions in main.go. The registry call
    getLatestVersion is an oracle `lookup` that gives a version or fails. The
    worker pool, job and result channels and the mutex only decide the order in
    which results reach the collector; here that order is the arbitrary order in
    which the collector loop picks the remaining names. */
module Fetch {
  import opened Wrappers

  /** The map the collector ends with: every name whose lookup succeeded, mapped
      to the version the lookup returned. */
  function FetchResult(names: set<string>, lookup: string -> Option<string>): map<string, string> {
    map name | name in names && lookup(name).Some? :: lookup(name).value
  }

  /** The collector loop at main.go:132-136, fed with one result per package
      name (main.go:99-105, 119-121), the names taken in any order. A failed
      lookup adds nothing and does not stop the others. */
  method FetchLatestVersions(packages: map<string, string>, lookup: string -> Option<string>)
    returns (latest: map<string, string>)
    ensures latest.Keys <= packages.Keys
    ensures forall name :: name in latest <==> name in packages && lookup(name).Some?
    ensures forall name :: name in latest ==> lookup(name) == Some(latest[name])
    ensures latest == FetchResult(packages.Keys, lookup)
  {
    latest := map[];
    var pending := packages.Keys;
    while pending != {}
      invariant pending <= packages.Keys
      invariant latest == FetchResult(packages.Keys - pending, lookup)
      decreases pending
    {
      var name :| name in pending;
      var done := packages.Keys - pending;
      pending := pending - {name};
      assert packages.Keys - pending == done + {name};
      var result := lookup(name);
      if result.Some? {
        latest := latest[name := result.value];
      }
      assert latest == FetchResult(done + {name}, lookup);
    }
    assert packages.Keys - pending == packages.Keys;
  }

}
