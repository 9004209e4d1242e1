/** Completing a platform document with drafted parts (internal/draft). */
module Draft {
  import opened Matrix
  import opened MatrixLaws
  import opened Model
  import opened Options
  import opened Releases
  import opened Text
  import opened Version

  const FIRST_RELEASE := "1.0.0"
  const LABEL := "pbom.dev/drafted"

  /** A platform as the program holds it: its environments are a slice that a copy of the platform shares. */
  class PlatformObject {
    var description: string
    var offerings: seq<Offering>
    var environments: array<Environment>

    constructor (description: string, offerings: seq<Offering>, environments: array<Environment>)
      ensures this.description == description && this.offerings == offerings && this.environments == environments
    {
      this.description, this.offerings, this.environments := description, offerings, environments;
    }

    function View(): Platform
      reads this, environments
    {
      Platform(description, offerings, environments[..])
    }
  }

  /** The text that is drafted: arbitrary fixed functions of what was found. */
  datatype Drafter = Drafter(
    offerings: seq<Inventory> -> seq<Offering>, description: (seq<Inventory>, seq<Offering>) -> string)

  predicate Contains(s: string, part: string) {
    exists i | 0 <= i <= |s| :: HasPrefix(s[i..], part)
  }

  predicate IsProduction(e: Environment) {
    e.tier == "production" || Contains(e.name, "prod")
  }

  predicate FoundIn(byEnv: map<string, Inventory>, e: Environment) {
    e.name in byEnv && byEnv[e.name].components != []
  }

  function SourceFrom(envs: seq<Environment>, byEnv: map<string, Inventory>, first: string): string {
    if envs == [] then first
    else if !FoundIn(byEnv, envs[0]) then SourceFrom(envs[1..], byEnv, first)
    else if IsProduction(envs[0]) then envs[0].name
    else SourceFrom(envs[1..], byEnv, if first == "" then envs[0].name else first)
  }

  function Source(envs: seq<Environment>, byEnv: map<string, Inventory>): string {
    SourceFrom(envs, byEnv, "")
  }

  method SourceEnvironment(envs: array<Environment>, byEnv: map<string, Inventory>) returns (name: string)
    ensures name == Source(envs[..], byEnv)
  {
    hide IsProduction;
    var first := "";
    assert envs[0..] == envs[..];
    for i := 0 to envs.Length
      invariant Source(envs[..], byEnv) == SourceFrom(envs[i..], byEnv, first)
    {
      var e := envs[i];
      assert envs[i..][1..] == envs[i + 1..];
      if !FoundIn(byEnv, e) {
        continue;
      }
      if IsProduction(e) {
        return e.name;
      }
      if first == "" {
        first := e.name;
      }
    }
    return first;
  }

  predicate FirstWith(envs: seq<Environment>, p: Environment -> bool, i: nat) {
    i < |envs| && p(envs[i]) && forall j | 0 <= j < i :: !p(envs[j])
  }

  function Found(byEnv: map<string, Inventory>): Environment -> bool {
    (e: Environment) => FoundIn(byEnv, e)
  }

  function FoundProduction(byEnv: map<string, Inventory>): Environment -> bool {
    (e: Environment) => FoundIn(byEnv, e) && IsProduction(e)
  }

  lemma {:induction false} SourceIsFirstProduction(
      envs: seq<Environment>, byEnv: map<string, Inventory>, first: string, i: nat)
    requires FirstWith(envs, FoundProduction(byEnv), i)
    ensures SourceFrom(envs, byEnv, first) == envs[i].name
  {
    hide IsProduction, FoundIn;
    if i == 0 {
      assert FoundProduction(byEnv)(envs[0]);
    } else {
      assert !FoundProduction(byEnv)(envs[0]);
      var rest := envs[1..];
      assert rest[i - 1] == envs[i] && forall j | 0 <= j < i - 1 :: rest[j] == envs[j + 1];
      SourceIsFirstProduction(rest, byEnv, first, i - 1);
      SourceIsFirstProduction(rest, byEnv, envs[0].name, i - 1);
    }
  }

  lemma {:induction false} FirstStays(envs: seq<Environment>, byEnv: map<string, Inventory>, first: string)
    requires first != "" && forall e | e in envs :: !FoundProduction(byEnv)(e)
    ensures SourceFrom(envs, byEnv, first) == first
  {
    hide IsProduction, FoundIn;
    if envs != [] {
      assert !FoundProduction(byEnv)(envs[0]);
      FirstStays(envs[1..], byEnv, first);
    }
  }

  lemma {:induction false} SourceIsFirstFound(envs: seq<Environment>, byEnv: map<string, Inventory>, i: nat)
    requires forall e | e in envs :: e.name != "" && !FoundProduction(byEnv)(e)
    ensures FirstWith(envs, Found(byEnv), i) ==> Source(envs, byEnv) == envs[i].name
    ensures (forall e | e in envs :: !FoundIn(byEnv, e)) ==> Source(envs, byEnv) == ""
  {
    if envs != [] {
      hide IsProduction, FoundIn, SourceFrom;
      var rest := envs[1..];
      assert envs == [envs[0]] + rest;
      SourceGoesOn(envs, byEnv);
      if FoundIn(byEnv, envs[0]) {
        FirstStays(rest, byEnv, envs[0].name);
      } else if i > 0 {
        assert i < |envs| ==> rest[i - 1] == envs[i] && forall j | 0 <= j < i - 1 :: rest[j] == envs[j + 1];
        SourceIsFirstFound(rest, byEnv, i - 1);
      } else {
        SourceIsFirstFound(rest, byEnv, 0);
      }
    } else {
      assert Source(envs, byEnv) == "";
    }
  }

  lemma SourceGoesOn(envs: seq<Environment>, byEnv: map<string, Inventory>)
    requires envs != [] && !FoundProduction(byEnv)(envs[0])
    ensures Source(envs, byEnv) == SourceFrom(envs[1..], byEnv, if FoundIn(byEnv, envs[0]) then envs[0].name else "")
    ensures Found(byEnv)(envs[0]) <==> FoundIn(byEnv, envs[0])
  {
    hide IsProduction, FoundIn;
  }

  /** The source is the first production environment that found something, if there is one;
      otherwise the first environment that did; otherwise none. */
  lemma SourceIsBest(envs: seq<Environment>, byEnv: map<string, Inventory>, i: nat)
    requires forall e | e in envs :: e.name != ""
    ensures FirstWith(envs, FoundProduction(byEnv), i) ==> Source(envs, byEnv) == envs[i].name
    ensures (forall e | e in envs :: !FoundProduction(byEnv)(e)) ==>
              && (FirstWith(envs, Found(byEnv), i) ==> Source(envs, byEnv) == envs[i].name)
              && ((forall e | e in envs :: !FoundIn(byEnv, e)) ==> Source(envs, byEnv) == "")
  {
    hide IsProduction, FoundIn, SourceFrom;
    if FirstWith(envs, FoundProduction(byEnv), i) {
      SourceIsFirstProduction(envs, byEnv, "", i);
    }
    if forall e | e in envs :: !FoundProduction(byEnv)(e) {
      SourceIsFirstFound(envs, byEnv, i);
    }
  }

  // ---------------------------------------------------------------- applying the drafts

  function InventoriesOf(envs: seq<Environment>, byEnv: map<string, Inventory>): seq<Inventory> {
    if envs == [] then []
    else
      var last := envs[|envs| - 1].name;
      InventoriesOf(envs[..|envs| - 1], byEnv) + if last in byEnv then [byEnv[last]] else []
  }

  /** What env runs now, as a release of that name. */
  function Snapshot(name: string, env: string, inv: Inventory, offerings: seq<Offering>, today: string): PlatformRelease {
    PlatformRelease(name, map[], Normalize(name), today, "What " + env + " runs now",
                    PinnedVersions(inv.components), ReleasedOfferings(offerings))
  }

  function FirstSnapshot(env: string, inv: Inventory, offerings: seq<Offering>, today: string): PlatformRelease {
    Snapshot(FIRST_RELEASE, env, inv, offerings, today).(labels := map[LABEL := "true"])
  }

  function Retarget(envs: seq<Environment>, release: string): (r: seq<Environment>)
    ensures |r| == |envs|
    ensures forall i | 0 <= i < |envs| ::
              r[i] == if envs[i].targetRelease == "" then envs[i].(targetRelease := release) else envs[i]
  {
    seq(|envs|, i requires 0 <= i < |envs| =>
      if envs[i].targetRelease == "" then envs[i].(targetRelease := release) else envs[i])
  }

  predicate Untargeted(envs: seq<Environment>) {
    exists e | e in envs :: e.targetRelease == ""
  }

  function FirstReleases(
      p: Platform, releases: seq<PlatformRelease>, byEnv: map<string, Inventory>, today: string): seq<PlatformRelease>
  {
    var source := Source(p.environments, byEnv);
    if releases == [] && source != "" && source in byEnv then [FirstSnapshot(source, byEnv[source], p.offerings, today)]
    else releases
  }

  datatype Drafts = Drafts(platform: Platform, releases: seq<PlatformRelease>, drafted: seq<string>)

  /** What Apply makes of a platform's value. */
  function Applied(
      p: Platform, releases: seq<PlatformRelease>, byEnv: map<string, Inventory>, drafter: Drafter, today: string): Drafts
  {
    var invs := InventoriesOf(p.environments, byEnv);
    var offerings := if p.offerings == [] then drafter.offerings(invs) else p.offerings;
    var description := if p.description == "" then drafter.description(invs, offerings) else p.description;
    var described := Platform(description, offerings, p.environments);
    var rels := FirstReleases(described, releases, byEnv, today);
    var targeted := rels != [] && Untargeted(p.environments);
    Drafts(
      if targeted then described.(environments := Retarget(p.environments, rels[0].name)) else described,
      rels,
      (if p.offerings == [] && offerings != [] then ["offerings"] else [])
      + (if p.description == "" && description != "" then ["description"] else [])
      + (if releases == [] && rels != [] then ["release"] else [])
      + (if targeted then ["targets"] else []))
  }

  lemma {:induction false} SourceWasFound(envs: seq<Environment>, byEnv: map<string, Inventory>, first: string)
    requires first == "" || (exists e :: FoundIn(byEnv, e) && e.name == first)
    ensures var s := SourceFrom(envs, byEnv, first); s == "" || (s in byEnv && byEnv[s].components != [])
  {
    hide IsProduction;
    if envs != [] {
      SourceWasFound(envs[1..], byEnv,
                     if FoundIn(byEnv, envs[0]) && !IsProduction(envs[0]) && first == "" then envs[0].name else first);
    }
  }

  method CollectInventories(envs: array<Environment>, byEnv: map<string, Inventory>) returns (invs: seq<Inventory>)
    ensures invs == InventoriesOf(envs[..], byEnv)
  {
    invs := [];
    for i := 0 to envs.Length
      invariant invs == InventoriesOf(envs[..i], byEnv)
    {
      assert envs[..i + 1][..i] == envs[..i];
      if envs[i].name in byEnv {
        invs := invs + [byEnv[envs[i].name]];
      }
    }
    assert envs[..envs.Length] == envs[..];
  }

  /** Fills empty offerings, then an empty description, of a platform copy. */
  method DraftTexts(out: PlatformObject, invs: seq<Inventory>, drafter: Drafter) returns (drafted: seq<string>)
    modifies out
    ensures out.environments == old(out.environments)
    ensures out.offerings == if old(out.offerings) == [] then drafter.offerings(invs) else old(out.offerings)
    ensures out.description ==
            if old(out.description) == "" then drafter.description(invs, out.offerings) else old(out.description)
    ensures drafted == (if old(out.offerings) == [] && out.offerings != [] then ["offerings"] else [])
                       + (if old(out.description) == "" && out.description != "" then ["description"] else [])
  {
    drafted := [];
    if out.offerings == [] {
      var offs := drafter.offerings(invs);
      if offs != [] {
        out.offerings := offs;
        drafted := drafted + ["offerings"];
      }
    }
    if out.description == "" {
      var desc := drafter.description(invs, out.offerings);
      if desc != "" {
        out.description := desc;
        drafted := drafted + ["description"];
      }
    }
  }

  /** A first release from the source environment, when there are no releases and there is a source. */
  method DraftRelease(out: PlatformObject, releases: seq<PlatformRelease>, byEnv: map<string, Inventory>, today: string)
    returns (rels: seq<PlatformRelease>)
    ensures rels == FirstReleases(out.View(), releases, byEnv, today)
  {
    hide SourceFrom, Snapshot;
    rels := releases;
    if rels == [] {
      var env := SourceEnvironment(out.environments, byEnv);
      if env != "" {
        SourceWasFound(out.environments[..], byEnv, "");
        var rel := Release(FIRST_RELEASE, env, byEnv[env], out.offerings, today);
        rels := [rel.(labels := map[LABEL := "true"])];
      }
    }
  }

  /** The texts and the release put together: what is left are the targets. */
  lemma AppliedInSteps(
      p: Platform, releases: seq<PlatformRelease>, byEnv: map<string, Inventory>, drafter: Drafter, today: string,
      described: Platform, rels: seq<PlatformRelease>, texts: seq<string>, targeted: bool)
    requires described.environments == p.environments
    requires
      var invs := InventoriesOf(p.environments, byEnv);
      && described.offerings == (if p.offerings == [] then drafter.offerings(invs) else p.offerings)
      && described.description ==
         (if p.description == "" then drafter.description(invs, described.offerings) else p.description)
    requires texts == (if p.offerings == [] && described.offerings != [] then ["offerings"] else [])
                      + (if p.description == "" && described.description != "" then ["description"] else [])
    requires rels == FirstReleases(described, releases, byEnv, today)
    requires targeted <==> rels != [] && Untargeted(p.environments)
    ensures
      Applied(p, releases, byEnv, drafter, today) ==
      Drafts(
        if targeted then described.(environments := Retarget(p.environments, rels[0].name)) else described,
        rels,
        texts + (if releases == [] && rels != [] then ["release"] else []) + if targeted then ["targets"] else [])
  {
    hide InventoriesOf, FirstReleases, Untargeted, Retarget;
  }

  /** Drafts what the platform leaves empty. It modifies nothing that existed before the call:
      the platform, its environments and the releases of the caller stay as they are. */
  method Apply(
      p: PlatformObject, releases: seq<PlatformRelease>, byEnv: map<string, Inventory>, drafter: Drafter, today: string)
    returns (out: PlatformObject, rels: seq<PlatformRelease>, drafted: seq<string>)
    ensures fresh(out)
    ensures out.environments == p.environments || fresh(out.environments)
    ensures Drafts(out.View(), rels, drafted) == Applied(p.View(), releases, byEnv, drafter, today)
    ensures p.View() == old(p.View())
  {
    hide Source, InventoriesOf, Untargeted, FirstReleases, Retarget, Applied;
    ghost var was := p.View();
    var invs := CollectInventories(p.environments, byEnv);
    out := new PlatformObject(p.description, p.offerings, p.environments);
    drafted := DraftTexts(out, invs, drafter);
    ghost var described, texts := out.View(), drafted;
    rels := DraftRelease(out, releases, byEnv, today);
    if releases == [] && rels != [] {
      drafted := drafted + ["release"];
    }
    var targeted := DraftTargets(out, rels);
    AppliedInSteps(was, releases, byEnv, drafter, today, described, rels, texts, targeted);
    if targeted {
      drafted := drafted + ["targets"];
    }
  }

  /** Gives the environments without a target the newest release, on a copy. */
  method DraftTargets(out: PlatformObject, rels: seq<PlatformRelease>) returns (targeted: bool)
    modifies out`environments
    ensures targeted <==> rels != [] && Untargeted(old(out.environments[..]))
    ensures targeted ==>
              fresh(out.environments) && out.environments[..] == Retarget(old(out.environments[..]), rels[0].name)
    ensures !targeted ==> out.environments == old(out.environments)
  {
    targeted := false;
    if rels != [] {
      var envs;
      envs, targeted := RetargetCopy(out.environments, rels[0].name);
      if targeted {
        out.environments := envs;
      }
    }
  }

  method Release(name: string, env: string, inv: Inventory, offerings: seq<Offering>, today: string)
    returns (r: PlatformRelease)
    ensures r == Snapshot(name, env, inv, offerings, today)
  {
    r := FromInventory(name, inv, offerings, "What " + env + " runs now", today);
  }

  /** Copies the environments and gives the copies without a target the release. */
  method RetargetCopy(was: array<Environment>, release: string) returns (envs: array<Environment>, targeted: bool)
    ensures fresh(envs) && envs[..] == Retarget(was[..], release)
    ensures targeted == Untargeted(was[..])
  {
    envs := new Environment[was.Length](i requires 0 <= i < was.Length reads was => was[i]);
    targeted := false;
    for i := 0 to envs.Length
      invariant forall j | 0 <= j < i :: envs[j] == Retarget(was[..], release)[j]
      invariant forall j | i <= j < envs.Length :: envs[j] == was[j]
      invariant targeted == Untargeted(was[..i])
    {
      assert was[..i + 1] == was[..i] + [was[i]];
      if envs[i].targetRelease == "" {
        assert was[i] in was[..i + 1];
        envs[i] := envs[i].(targetRelease := release);
        targeted := true;
      }
    }
    assert was[..was.Length] == was[..];
  }

  // ---------------------------------------------------------------- what drafting promises

  lemma {:induction false} RetargetKeepsNames(envs: seq<Environment>, release: string, byEnv: map<string, Inventory>)
    ensures InventoriesOf(Retarget(envs, release), byEnv) == InventoriesOf(envs, byEnv)
  {
    if envs != [] {
      RetargetKeepsNames(envs[..|envs| - 1], release, byEnv);
      assert Retarget(envs, release)[..|envs| - 1] == Retarget(envs[..|envs| - 1], release);
    }
  }

  lemma {:induction false} RetargetKeepsSource(
      envs: seq<Environment>, release: string, byEnv: map<string, Inventory>, first: string)
    ensures SourceFrom(Retarget(envs, release), byEnv, first) == SourceFrom(envs, byEnv, first)
  {
    hide Contains;
    if envs != [] {
      var first' := if FoundIn(byEnv, envs[0]) && !IsProduction(envs[0]) && first == "" then envs[0].name else first;
      RetargetKeepsSource(envs[1..], release, byEnv, first');
      assert Retarget(envs, release)[1..] == Retarget(envs[1..], release);
    }
  }

  /** Drafting twice changes nothing more, and drafts nothing more exactly when
      no environment was left without a target for lack of a release name. */
  lemma ApplyIsIdempotent(
      p: Platform, releases: seq<PlatformRelease>, byEnv: map<string, Inventory>, drafter: Drafter, today: string)
    ensures
      var once := Applied(p, releases, byEnv, drafter, today);
      var twice := Applied(once.platform, once.releases, byEnv, drafter, today);
      && twice.platform == once.platform && twice.releases == once.releases
      && (twice.drafted == [] <==> !(releases != [] && releases[0].name == "" && Untargeted(p.environments)))
  {
    hide SourceFrom, InventoriesOf, Snapshot;
    var once := Applied(p, releases, byEnv, drafter, today);
    if once.releases != [] {
      RetargetKeepsNames(p.environments, once.releases[0].name, byEnv);
      RetargetKeepsSource(p.environments, once.releases[0].name, byEnv, "");
      RetargetTwice(p.environments, once.releases[0].name);
      if releases == [] {
        SnapshotName(p, releases, byEnv, drafter, today);
      }
    }
  }

  lemma SnapshotName(
      p: Platform, releases: seq<PlatformRelease>, byEnv: map<string, Inventory>, drafter: Drafter, today: string)
    requires releases == []
    ensures var rels := Applied(p, releases, byEnv, drafter, today).releases; rels != [] ==> rels[0].name == FIRST_RELEASE
  {
  }

  lemma RetargetTwice(envs: seq<Environment>, release: string)
    ensures Retarget(Retarget(envs, release), release) == Retarget(envs, release)
    ensures Untargeted(Retarget(envs, release)) <==> release == "" && Untargeted(envs)
  {
    var r := Retarget(envs, release);
    if Untargeted(r) {
      var e :| e in r && e.targetRelease == "";
      var i :| 0 <= i < |r| && r[i] == e;
      assert envs[i].targetRelease == "";
    }
    if release == "" && Untargeted(envs) {
      var e :| e in envs && e.targetRelease == "";
      var i :| 0 <= i < |envs| && envs[i] == e;
      assert r[i] in r;
    }
  }

  /** Whenever there is a release, every environment ends with a target, and keeps the one it had. */
  lemma EveryEnvironmentTargeted(
      p: Platform, releases: seq<PlatformRelease>, byEnv: map<string, Inventory>, drafter: Drafter, today: string)
    requires forall r | r in releases :: r.name != ""
    ensures
      var d := Applied(p, releases, byEnv, drafter, today);
      && |d.platform.environments| == |p.environments|
      && forall i | 0 <= i < |p.environments| ::
           var e := d.platform.environments[i];
           && e == p.environments[i].(targetRelease := e.targetRelease)
           && (p.environments[i].targetRelease != "" ==> e == p.environments[i])
           && (d.releases != [] ==> e.targetRelease != "")
  {
    hide SourceFrom, InventoriesOf;
    var d := Applied(p, releases, byEnv, drafter, today);
    if d.releases != [] {
      assert releases != [] ==> d.releases[0] in releases;
      assert !Untargeted(p.environments) ==> forall i | 0 <= i < |p.environments| :: p.environments[i] in p.environments;
    }
  }

  /** A name listed with a version is listed with one the last time too. Unique names suffice. */
  predicate LastListedWithVersion(components: seq<DiscoveredComponent>) {
    forall i | 0 <= i < |components| && components[i].version != "" ::
      components[i].name in VersionsOf(components) && VersionsOf(components)[components[i].name] != ""
  }

  lemma {:induction false} PinnedAndObserved(components: seq<DiscoveredComponent>, n: string)
    ensures n in PinnedVersions(components) ==> n in VersionsOf(components)
    ensures n in VersionsOf(components) && VersionsOf(components)[n] != "" ==>
              n in PinnedVersions(components) && PinnedVersions(components)[n] == VersionsOf(components)[n]
    ensures n in PinnedVersions(components) ==>
              PinnedVersions(components)[n] != ""
              && exists i | 0 <= i < |components| :: components[i].name == n && components[i].version != ""
    ensures (exists i | 0 <= i < |components| :: components[i].name == n && components[i].version != "") ==>
              n in PinnedVersions(components)
  {
    if components != [] {
      PinnedAndObserved(components[..|components| - 1], n);
    }
  }

  /** A release cut from components is satisfied by them exactly when no repeated name loses its version. */
  lemma CutIsSatisfiedExactly(release: PlatformRelease, components: seq<DiscoveredComponent>)
    requires release.components == PinnedVersions(components)
    ensures Satisfies(release, VersionsOf(components)) <==> LastListedWithVersion(components)
  {
    hide PinnedVersions, VersionsOf, Parse;
    var pinned, actual := PinnedVersions(components), VersionsOf(components);
    if LastListedWithVersion(components) {
      forall n | n in pinned ensures SatisfiedAt(pinned, actual, n) {
        PinnedAndObserved(components, n);
        MatchesReflexive(pinned[n]);
      }
    }
    if Satisfies(release, actual) {
      forall i | 0 <= i < |components| && components[i].version != ""
        ensures components[i].name in actual && actual[components[i].name] != ""
      {
        PinnedAndObserved(components, components[i].name);
        assert SatisfiedAt(pinned, actual, components[i].name);
      }
    }
  }

  /** A release of any name, cut from what an environment runs, is met by it under the same condition. */
  lemma SnapshotIsSatisfiedExactly(name: string, env: string, inv: Inventory, offerings: seq<Offering>, today: string)
    ensures Satisfies(Snapshot(name, env, inv, offerings, today), VersionsOf(inv.components)) <==>
            LastListedWithVersion(inv.components)
  {
    hide LastListedWithVersion, Satisfies, VersionsOf;
    CutIsSatisfiedExactly(Snapshot(name, env, inv, offerings, today), inv.components);
  }

  lemma {:induction false} UniqueNamesKeepVersions(components: seq<DiscoveredComponent>)
    requires UniqueComponents(components)
    ensures forall i | 0 <= i < |components| ::
              components[i].name in VersionsOf(components)
              && VersionsOf(components)[components[i].name] == components[i].version
  {
    if components != [] {
      UniqueNamesKeepVersions(components[..|components| - 1]);
    }
  }

  /** After the first install, the environment that the release was drafted from runs release 1.0.0
      without anything missing or untracked, and complies exactly when no repeated name loses its version. */
  lemma FirstInstall(
      p: Platform, byEnv: map<string, Inventory>, drafter: Drafter, today: string, data: Input, env: Environment)
    requires env in p.environments && env.targetRelease == ""
    requires env.name == Source(p.environments, byEnv) != ""
    requires
      var d := Applied(p, [], byEnv, drafter, today);
      data.platform == d.platform && data.releases == d.releases && data.inventories == byEnv
    ensures env.name in byEnv
    ensures
      var drafted := env.(targetRelease := FIRST_RELEASE);
      var es := EnvStatusOf(data, drafted);
      var components := byEnv[env.name].components;
      && drafted in data.platform.environments
      && es.missing == 0 && es.untracked == 0
      && (es.compliant <==> LastListedWithVersion(components))
      && (es.compliant <==> es.drift == 0)
      && (es.compliant ==> es.matchedRelease == FIRST_RELEASE)
      && (UniqueComponents(components) ==> es.compliant)
  {
    hide SourceFrom, InventoriesOf, PinnedVersions, VersionsOf, CountStatus, Satisfies, SatisfiedAt;
    hide ReleasedOfferings, Normalize, RowNames;
    var d := Applied(p, [], byEnv, drafter, today);
    SourceWasFound(p.environments, byEnv, "");
    var drafted := env.(targetRelease := FIRST_RELEASE);
    var components := byEnv[env.name].components;
    var release := d.releases[0];
    assert release.components == PinnedVersions(components) && release.name == FIRST_RELEASE;
    var i :| 0 <= i < |p.environments| && p.environments[i] == env;
    assert d.platform.environments[i] == drafted;
    assert Target(data, drafted) == Some(release);
    CutIsSatisfiedExactly(release, components);
    CompliantExactlyWhenSatisfied(data, drafted);
    CountersMean(data, drafted);
    var target, actual := release.components, Actual(data, env.name);
    assert (set n | n in target && n !in actual) == {} by {
      forall n | n in target ensures n in actual { PinnedAndObserved(components, n); }
    }
    assert (set n | n in actual && n !in target && actual[n] != "") == {} by {
      forall n | n in actual && actual[n] != "" ensures n in target { PinnedAndObserved(components, n); }
    }
    if UniqueComponents(components) {
      UniqueNamesKeepVersions(components);
    }
  }

  /** The same, read off the matrix that is built next: with distinct component names, no drift at all. */
  lemma FirstInstallShowsNoDrift(
      p: Platform, byEnv: map<string, Inventory>, drafter: Drafter, today: string, data: Input, env: Environment, m: Matrix)
    requires env in p.environments && env.targetRelease == ""
    requires env.name == Source(p.environments, byEnv) != ""
    requires
      var d := Applied(p, [], byEnv, drafter, today);
      data.platform == d.platform && data.releases == d.releases && data.inventories == byEnv
    requires IsMatrix(data, m) && env.name in byEnv && UniqueComponents(byEnv[env.name].components)
    ensures exists es | es in m.environments ::
              && es.name == env.name && es.targetRelease == FIRST_RELEASE && es.matchedRelease == FIRST_RELEASE
              && es.compliant && es.drift == 0 && es.missing == 0 && es.untracked == 0
  {
    hide SourceFrom, Applied, IsMatrix, EnvStatusOf;
    FirstInstall(p, byEnv, drafter, today, data, env);
    var drafted := env.(targetRelease := FIRST_RELEASE);
    StatusInMatrix(data, m, drafted);
  }

  // ---------------------------------------------------------------- in terms of what the caller passes

  /** An environment of the production tier, or one with "prod" in its name. */
  ghost predicate Production(e: Environment) {
    e.tier == "production" || exists before, after :: e.name == before + "prod" + after
  }

  lemma ProductionExactly(e: Environment)
    ensures IsProduction(e) <==> Production(e)
  {
    if k :| 0 <= k <= |e.name| && HasPrefix(e.name[k..], "prod") {
      assert e.name == e.name[..k] + "prod" + e.name[k..][4..];
    }
    if before, after :| e.name == before + "prod" + after {
      assert e.name[|before|..][..4] == "prod";
      assert HasPrefix(e.name[|before|..], "prod");
    }
  }

  predicate HasComponents(byEnv: map<string, Inventory>, e: Environment) {
    e.name in byEnv && |byEnv[e.name].components| > 0
  }

  /** The environments that come before the i-th in preference: a production one before any other, and otherwise an
      earlier before a later one. */
  ghost predicate IsSource(envs: seq<Environment>, byEnv: map<string, Inventory>, i: nat) {
    && i < |envs| && HasComponents(byEnv, envs[i])
    && forall j | 0 <= j < |envs| && HasComponents(byEnv, envs[j]) ::
         if Production(envs[i]) then Production(envs[j]) ==> i <= j else !Production(envs[j]) && i <= j
  }

  lemma SourceExactly(envs: seq<Environment>, byEnv: map<string, Inventory>, i: nat)
    requires forall e | e in envs :: e.name != ""
    ensures IsSource(envs, byEnv, i) ==> Source(envs, byEnv) == envs[i].name
    ensures (forall e | e in envs :: !HasComponents(byEnv, e)) ==> Source(envs, byEnv) == ""
  {
    hide Source, Contains, Production;
    forall e: Environment ensures IsProduction(e) <==> Production(e) {
      ProductionExactly(e);
    }
    hide IsProduction;
    SourceIsBest(envs, byEnv, i);
    if IsSource(envs, byEnv, i) && !Production(envs[i]) {
      assert forall e | e in envs :: !FoundProduction(byEnv)(e);
    }
  }

  /** The inventories that texts are drafted from: those of the platform's environments, in order. */
  lemma {:induction false} InventoriesInOrder(envs: seq<Environment>, more: seq<Environment>, byEnv: map<string, Inventory>)
    ensures InventoriesOf(envs + more, byEnv) == InventoriesOf(envs, byEnv) + InventoriesOf(more, byEnv)
    ensures |more| == 1 ==> InventoriesOf(more, byEnv) == if more[0].name in byEnv then [byEnv[more[0].name]] else []
  {
    if more == [] {
      assert envs + more == envs;
    } else {
      var rest, last := more[..|more| - 1], more[|more| - 1];
      assert (envs + more)[..|envs + more| - 1] == envs + rest && (envs + more)[|envs + more| - 1] == last;
      InventoriesInOrder(envs, rest, byEnv);
      var own := if last.name in byEnv then [byEnv[last.name]] else [];
      assert InventoriesOf(envs + more, byEnv) == InventoriesOf(envs + rest, byEnv) + own;
      assert InventoriesOf(more, byEnv) == InventoriesOf(rest, byEnv) + own;
    }
  }

  predicate HasTargets(d: Drafts, p: Platform) {
    && |d.platform.environments| == |p.environments|
    && forall i | 0 <= i < |p.environments| ::
         d.platform.environments[i] ==
         if p.environments[i].targetRelease == "" && d.releases != [] then
           p.environments[i].(targetRelease := d.releases[0].name)
         else p.environments[i]
  }

  /** What the caller left empty is filled in, and reported, and nothing else is touched. */
  lemma DraftsExactly(
      p: Platform, releases: seq<PlatformRelease>, byEnv: map<string, Inventory>, drafter: Drafter, today: string)
    ensures
      var d := Applied(p, releases, byEnv, drafter, today);
      var invs, source := InventoriesOf(p.environments, byEnv), Source(p.environments, byEnv);
      && d.platform.offerings == (if |p.offerings| > 0 then p.offerings else drafter.offerings(invs))
      && d.platform.description ==
         (if |p.description| > 0 then p.description else drafter.description(invs, d.platform.offerings))
      && (releases != [] || source == "" ==> d.releases == releases)
      && (releases == [] && source != "" ==>
            && source in byEnv
            && d.releases == [PlatformRelease(
                 "1.0.0", map["pbom.dev/drafted" := "true"], "1.0.0", today, "What " + source + " runs now",
                 PinnedVersions(byEnv[source].components), ReleasedOfferings(d.platform.offerings))])
      && HasTargets(d, p)
      && d.drafted ==
         (if p.offerings == [] && d.platform.offerings != [] then ["offerings"] else [])
         + (if p.description == "" && d.platform.description != "" then ["description"] else [])
         + (if releases == [] && source != "" then ["release"] else [])
         + (if d.releases != [] && exists e | e in p.environments :: e.targetRelease == "" then ["targets"] else [])
  {
    hide SourceFrom, InventoriesOf, PinnedVersions, ReleasedOfferings, Normalize;
    SourceWasFound(p.environments, byEnv, "");
    FirstReleaseIsNormal();
    var d := Applied(p, releases, byEnv, drafter, today);
    assert !Untargeted(p.environments) ==> forall i | 0 <= i < |p.environments| :: p.environments[i] in p.environments;
  }

  lemma FirstReleaseIsNormal()
    ensures Normalize("1.0.0") == "1.0.0"
  {
    var v := V(1, 0, 0, 3, "");
    assert Itoa(1) == "1" && Itoa(0) == "0";
    assert CoreText(v) + "" == "1.0.0";
    ParseReads(v, "");
  }
}
