/** The caches of the service as code, one call at a time (internal/service); RefreshProtocol is about many at once. */
module Service {
  import opened Iteration
  import opened Model
  import opened Options
  import opened RefreshProtocol

  /** What discovering an environment, or fetching an upstream, comes to. */
  datatype Answer<+T> = Reached(value: T) | Failed(error: string)

  /** The clock at the first check, at the check under the refresh lock, and when the round is done. */
  datatype Clock = Clock(first: nat, second: nat, done: nat)

  function Report(a: Answer<Inventory>): Inventory {
    match a
    case Reached(inventory) => inventory
    case Failed(error) => Inventory([], "", [error])
  }

  /** The components a platform knows of: what its inventories hold and what its releases pin. */
  ghost predicate Mentions(invs: map<string, Inventory>, releases: seq<PlatformRelease>, name: string) {
    || (exists e | e in invs :: exists c | c in invs[e].components :: c.name == name)
    || (exists r | r in releases :: name in r.components)
  }

  /** Every name that has an upstream has releases or an error. */
  ghost predicate CoversAll(
    cfg: Config, ups: map<string, seq<UpstreamRelease>>, errs: map<string, string>, names: set<string>)
  {
    forall n | n in names && cfg.tracked(n) :: n in ups || n in errs
  }

  class Service {
    const cfg: Config
    var invs: Option<map<string, Inventory>>
    var invsAt: nat
    var ups: Option<map<string, seq<UpstreamRelease>>>
    var upsErrs: map<string, string>
    var upsAt: nat

    constructor (cfg: Config)
      ensures this.cfg == cfg && invs == None && ups == None && upsErrs == map[]
    {
      this.cfg, invs, invsAt, ups, upsErrs, upsAt := cfg, None, 0, None, map[], 0;
    }

    /** One inventory for each environment, whether it can be reached or not, in whatever order the workers finish. */
    method Discover(answer: string -> Answer<Inventory>) returns (out: map<string, Inventory>)
      ensures out == map e | e in cfg.environments :: Report(answer(e))
      ensures forall e | e in cfg.environments ::
                match answer(e)
                case Reached(inventory) => out[e] == inventory
                case Failed(error) => out[e].components == [] && out[e].errors == [error] && out[e].clusterVersion == ""
    {
      out := map[];
      var order := AnyOrder(cfg.environments);
      for i := 0 to |order|
        invariant out.Keys == set j | 0 <= j < i :: order[j]
        invariant forall e | e in out :: out[e] == Report(answer(e))
      {
        out := out[order[i] := Report(answer(order[i]))];
      }
      assert out.Keys == cfg.environments by {
        forall e | e in cfg.environments ensures e in out {
          assert e in order;
        }
      }
    }

    /** Takes the cache while it is young enough, or a map that was made less than a second ago; else a new round. */
    method Inventories(refresh: bool, clock: Clock, answer: string -> Answer<Inventory>)
      returns (out: map<string, Inventory>)
      modifies this`invs, this`invsAt
      ensures
        if old(invs).Some? &&
           ((!refresh && clock.first - old(invsAt) < cfg.ttl) || clock.second - old(invsAt) < SECOND)
        then out == old(invs).value && invs == old(invs) && invsAt == old(invsAt)
        else out == (map e | e in cfg.environments :: Report(answer(e))) && invs == Some(out) && invsAt == clock.done
    {
      if !refresh && invs.Some? && clock.first - invsAt < cfg.ttl {
        return invs.value;
      }
      var recent := invs.Some? && clock.second - invsAt < SECOND;
      if recent {
        return invs.value;
      }
      out := Discover(answer);
      invs, invsAt := Some(out), clock.done;
    }

    /** The cache at any age, and a round only if there is none. */
    method CachedInventories(clock: Clock, answer: string -> Answer<Inventory>) returns (out: map<string, Inventory>)
      modifies this`invs, this`invsAt
      ensures old(invs).Some? ==> out == old(invs).value && invs == old(invs) && invsAt == old(invsAt)
      ensures old(invs).None? ==> out.Keys == cfg.environments && invs == Some(out) && invsAt == clock.done
    {
      if invs.Some? {
        return invs.value;
      }
      out := Inventories(false, clock, answer);
    }

    /** Whether every name that has an upstream has releases or an error. */
    method CoversNames(ups: map<string, seq<UpstreamRelease>>, errs: map<string, string>, names: set<string>)
      returns (all: bool)
      ensures all <==> CoversAll(cfg, ups, errs, names)
    {
      var order := AnyOrder(names);
      for i := 0 to |order|
        invariant forall j | 0 <= j < i && cfg.tracked(order[j]) :: order[j] in ups || order[j] in errs
      {
        var n := order[i];
        if !cfg.tracked(n) || n in ups || n in errs {
          continue;
        }
        assert n in names;
        return false;
      }
      assert forall n | n in names :: n in order;
      return true;
    }

    /** Fetches each name that has an upstream; a name ends up with its releases or with its error. */
    method FetchAll(names: set<string>, fetch: string -> Answer<seq<UpstreamRelease>>)
      returns (found: map<string, seq<UpstreamRelease>>, errs: map<string, string>)
      ensures found == map n | n in names && cfg.tracked(n) && fetch(n).Reached? :: fetch(n).value
      ensures errs == map n | n in names && cfg.tracked(n) && fetch(n).Failed? :: fetch(n).error
    {
      found, errs := map[], map[];
      var order := AnyOrder(names);
      for i := 0 to |order|
        invariant forall n :: n in found <==> n in order[..i] && cfg.tracked(n) && fetch(n).Reached?
        invariant forall n | n in found :: found[n] == fetch(n).value
        invariant forall n :: n in errs <==> n in order[..i] && cfg.tracked(n) && fetch(n).Failed?
        invariant forall n | n in errs :: errs[n] == fetch(n).error
      {
        var n := order[i];
        assert order[..i + 1] == order[..i] + [n];
        if !cfg.tracked(n) {
          continue;
        }
        match fetch(n) {
          case Reached(releases) => found := found[n := releases];
          case Failed(error) => errs := errs[n := error];
        }
      }
      assert order[..|order|] == order;
    }

    /** Takes the cache while it is young enough and covers the names; else a new round. Nothing without a client. */
    method UpstreamFor(
      names: set<string>, refresh: bool, now: nat, done: nat, fetch: string -> Answer<seq<UpstreamRelease>>)
      returns (found: map<string, seq<UpstreamRelease>>, errs: map<string, string>)
      requires Disjoint()
      modifies this`ups, this`upsErrs, this`upsAt
      ensures Disjoint()
      ensures !cfg.hasUpstream ==> found == map[] && errs == map[]
      ensures
        if !cfg.hasUpstream then ups == old(ups) && upsErrs == old(upsErrs) && upsAt == old(upsAt)
        else if !refresh && old(ups).Some? && now - old(upsAt) < cfg.ttl
                && CoversAll(cfg, old(ups).value, old(upsErrs), names)
        then found == old(ups).value && errs == old(upsErrs) && ups == old(ups) && upsErrs == errs && upsAt == old(upsAt)
        else
          && found == (map n | n in names && cfg.tracked(n) && fetch(n).Reached? :: fetch(n).value)
          && errs == (map n | n in names && cfg.tracked(n) && fetch(n).Failed? :: fetch(n).error)
          && ups == Some(found) && upsErrs == errs && upsAt == done
      ensures cfg.hasUpstream ==> forall n | n in names && cfg.tracked(n) :: n in found <==> n !in errs
    {
      if !cfg.hasUpstream {
        return map[], map[];
      }
      if !refresh && ups.Some? && now - upsAt < cfg.ttl {
        var hit := CoversNames(ups.value, upsErrs, names);
        if hit {
          return ups.value, upsErrs;
        }
      }
      found, errs := FetchAll(names, fetch);
      ups, upsErrs, upsAt := Some(found), errs, done;
    }

    /** No name is in both cached maps. */
    ghost predicate Disjoint()
      reads this
    {
      ups.Some? ==> forall n | n in ups.value :: n !in upsErrs
    }

    /** Everything the analysis needs: each component that an inventory holds or a release pins, and that has an
        upstream, comes with its releases or with an error, and not with both. */
    method Input(
      releases: seq<PlatformRelease>, refresh: bool, clock: Clock, answer: string -> Answer<Inventory>,
      now: nat, done: nat, fetch: string -> Answer<seq<UpstreamRelease>>)
      returns (found: map<string, Inventory>, upstream: map<string, seq<UpstreamRelease>>, errs: map<string, string>)
      requires Disjoint()
      modifies this
      ensures Disjoint() && invs == Some(found)
      ensures cfg.hasUpstream ==> ups == Some(upstream) && upsErrs == errs
      ensures cfg.hasUpstream ==>
                forall n | Mentions(found, releases, n) && cfg.tracked(n) :: n in upstream <==> n !in errs
    {
      found := Inventories(refresh, clock, answer);
      var running := RunningNames(found);
      var pinned := PinnedNames(releases);
      upstream, errs := UpstreamFor(running + pinned, refresh, now, done, fetch);
    }
  }

  method RunningNames(invs: map<string, Inventory>) returns (names: set<string>)
    ensures forall n :: n in names <==> exists e | e in invs :: exists c | c in invs[e].components :: c.name == n
  {
    names := {};
    var order := AnyOrder(invs.Keys);
    for i := 0 to |order|
      invariant forall n :: n in names <==> exists e | e in order[..i] :: exists c | c in invs[e].components :: c.name == n
    {
      var components := invs[order[i]].components;
      assert order[..i + 1] == order[..i] + [order[i]];
      names := AddNames(names, components);
    }
    assert order[..|order|] == order;
  }

  method AddNames(before: set<string>, components: seq<DiscoveredComponent>) returns (names: set<string>)
    ensures forall n :: n in names <==> n in before || exists c | c in components :: c.name == n
  {
    names := before;
    for i := 0 to |components|
      invariant forall n :: n in names <==> n in before || exists c | c in components[..i] :: c.name == n
    {
      assert components[..i + 1] == components[..i] + [components[i]];
      names := names + {components[i].name};
    }
    assert components[..|components|] == components;
  }

  method PinnedNames(releases: seq<PlatformRelease>) returns (names: set<string>)
    ensures forall n :: n in names <==> exists r | r in releases :: n in r.components
  {
    names := {};
    for i := 0 to |releases|
      invariant forall n :: n in names <==> exists r | r in releases[..i] :: n in r.components
    {
      assert releases[..i + 1] == releases[..i] + [releases[i]];
      names := names + releases[i].components.Keys;
    }
    assert releases[..|releases|] == releases;
  }
}
