/** Inputs at which properties that one would expect of the code fail. Each belongs to a lemma that says exactly when
    the property holds. */
module Failures {
  import opened Draft
  import opened Images
  import opened Matrix
  import opened MatrixLaws
  import opened Model
  import opened Options
  import Releases
  import Text
  import opened Updates
  import opened UpdatesLaws
  import opened Version
  import Upstream
  import UpstreamLaws

  // ---------------------------------------------------------------- versions

  /** What a printed version without a suffix reads as. */
  lemma Reads(v: V)
    requires FromText(v) && v.suffix == ""
    ensures Parse(CoreText(v)) == Some(v)
  {
    ParseReads(v, "");
    assert CoreText(v) + "" == CoreText(v);
  }

  lemma ThreePartsRead(major: nat, minor: nat, patch: nat, text: string)
    requires major < 10 && minor < 10 && patch < 10
    requires text == [('0' as int + major) as char, '.', ('0' as int + minor) as char, '.', ('0' as int + patch) as char]
    ensures Parse(text) == Some(V(major, minor, patch, 3, ""))
  {
    hide Parse, Text.Itoa;
    var v := V(major, minor, patch, 3, "");
    Reads(v);
    OneDigit(major);
    OneDigit(minor);
    OneDigit(patch);
    assert CoreText(v) == text;
  }

  lemma OneDigit(n: nat)
    requires n < 10
    ensures Text.Itoa(n) == [('0' as int + n) as char]
  {
    assert n % 10 == n;
  }

  /** Transitivity of matching (MatchesTransitiveExactly). */
  lemma MatchingNotTransitive()
    ensures Matches("1.2.0", "1.2") && Matches("1.2", "1.2.5") && !Matches("1.2.0", "1.2.5")
  {
    hide Parse, PrereleaseSuffix;
    ThreePartsRead(1, 2, 0, "1.2.0");
    ThreePartsRead(1, 2, 5, "1.2.5");
    TwoPartsRead();
  }

  lemma TwoPartsRead()
    ensures Parse("1.2") == Some(V(1, 2, 0, 2, ""))
  {
    hide Parse, Text.Itoa;
    Reads(V(1, 2, 0, 2, ""));
    OneDigit(1);
    OneDigit(2);
    assert CoreText(V(1, 2, 0, 2, "")) == "1.2";
  }

  /** Convexity of the accepted versions (AcceptsAnIntervalExactly). */
  lemma PrereleaseAcceptsNoInterval()
    ensures PinsPrerelease("1.0.0-rc.1") && !AcceptsAnInterval("1.0.0-rc.1")
  {
    hide Parse, PrereleaseSuffix, AcceptsAnInterval;
    RcReads();
    MarkedRc();
    AcceptsAnIntervalExactly("1.0.0-rc.1");
  }

  lemma RcReads()
    ensures Parse("1.0.0-rc.1") == Some(V(1, 0, 0, 3, "rc.1"))
  {
    hide Parse, Text.Itoa;
    var v := V(1, 0, 0, 3, "rc.1");
    ParseReads(v, "-rc.1");
    OneDigit(1);
    OneDigit(0);
    assert CoreText(v) == "1.0.0";
    assert "1.0.0" + "-rc.1" == "1.0.0-rc.1" && "-rc.1"[1..] == "rc.1";
  }

  lemma MarkedRc()
    ensures PrereleaseSuffix("rc.1")
  {
    assert PRERELEASE_WORDS[2] == "rc";
    assert Text.HasPrefix(Text.ToLower("rc.1"[0..]), "rc");
    assert MarksPrerelease("rc.1", 0);
  }

  // ---------------------------------------------------------------- assessments

  const NEWEST := [UpstreamRelease("2.5.0", "v2.5.0", false, 0)]

  /** Monotone assessment (AssessMonotoneExactly): the older version looks less outdated than the newer one. */
  lemma OlderLooksFresher()
    ensures Version.CompareStrings("1.9.0", "2.1.0") < 0
    ensures Assess("1.9.0", NEWEST, 3).0 == FreshMajor && Assess("2.1.0", NEWEST, 3).0 == FreshUnsupported
    ensures Rank(Assess("1.9.0", NEWEST, 3).0) < Rank(Assess("2.1.0", NEWEST, 3).0)
  {
    hide Parse, PrereleaseSuffix;
    ThreePartsRead(1, 9, 0, "1.9.0");
    ThreePartsRead(2, 1, 0, "2.1.0");
    ThreePartsRead(2, 5, 0, "2.5.0");
    var newest := NEWEST[0].version;
    assert newest == "2.5.0";
  }

  function Running(version: string): Inventory {
    Inventory([DiscoveredComponent("c", "C", "other", version, true, "")], "", [])
  }

  /** One component at two versions, with a support window of three minors. */
  const TWO_VERSIONS := Input(
    Platform("", [], [Environment("a", "", ""), Environment("b", "", "")]),
    (name: string) => Some(CatalogComponent("C", "other", Some(UpstreamSource("o/r", "", false, 3)))),
    [], map["a" := Running("1.9.0"), "b" := Running("2.1.0")], map["c" := NEWEST], map[])

  lemma TwoVersionsRun()
    ensures "c" in AllVersions(TWO_VERSIONS)
    ensures "1.9.0" in AllVersions(TWO_VERSIONS)["c"].Values && "2.1.0" in AllVersions(TWO_VERSIONS)["c"].Values
  {
    var data, envs := TWO_VERSIONS, TWO_VERSIONS.platform.environments;
    var a, b := envs[0], envs[1];
    assert a in envs && b in envs;
    RunsIn(Running("1.9.0"), "1.9.0");
    RunsIn(Running("2.1.0"), "2.1.0");
    hide VersionsOf, VersionsIn, Observed;
    VersionsInMeans(data, envs, "c");
    ReportedIsObserved(data, envs, "c", a);
    ReportedIsObserved(data, envs, "c", b);
    var perEnv := AllVersions(data)["c"];
    assert perEnv["a"] == "1.9.0" && perEnv["b"] == "2.1.0";
  }

  lemma RunsIn(inventory: Inventory, version: string)
    requires inventory == Running(version)
    ensures VersionsOf(inventory.components) == map["c" := version]
  {
    assert inventory.components[..0] == [];
  }

  /** Agreement of matrix and advice (MatrixAndUpdatesAgreeExactly): row and recommendation of the component differ,
      whatever the order in which maps are visited. */
  lemma RowAndRecommendationDiffer(m: Matrix, row: Row, out: seq<Update>, u: Update)
    ensures "c" in AllRows(TWO_VERSIONS) && "c" in AllVersions(TWO_VERSIONS)
    ensures (&& IsMatrix(TWO_VERSIONS, m) && row in m.rows && row.component == "c"
             && AreUpdates(TWO_VERSIONS, out) && u in out && u.component == "c") ==> row.freshness != u.freshness
  {
    TwoVersionsRun();
    TwoVersionsNotComparable();
    hide VersionsIn, AllVersions, IsMatrix, Comparable, IsUpdate, RowNames;
    DistinctNames();
    UpdatesHaveRows(TWO_VERSIONS, "c");
    if && IsMatrix(TWO_VERSIONS, m) && row in m.rows && row.component == "c"
       && AreUpdates(TWO_VERSIONS, out) && u in out && u.component == "c" {
      MatrixAndUpdatesAgreeExactly(TWO_VERSIONS, m, row, out, u);
      UsesItsVersions(out, u);
    }
  }

  lemma DistinctNames()
    ensures UniqueEnvironments(TWO_VERSIONS.platform.environments)
    ensures forall e | e in TWO_VERSIONS.platform.environments :: UniqueComponents(ComponentsIn(TWO_VERSIONS, e.name))
  {
  }

  lemma UsesItsVersions(out: seq<Update>, u: Update)
    requires AreUpdates(TWO_VERSIONS, out) && u in out
    ensures u.component in AllVersions(TWO_VERSIONS) && u.versions == AllVersions(TWO_VERSIONS)[u.component]
  {
    hide AllVersions, IsOldest, IsFirst;
    assert IsUpdate(TWO_VERSIONS, AllVersions(TWO_VERSIONS), u);
  }

  lemma TwoVersionsNotComparable()
    requires "c" in AllVersions(TWO_VERSIONS)
    requires "1.9.0" in AllVersions(TWO_VERSIONS)["c"].Values && "2.1.0" in AllVersions(TWO_VERSIONS)["c"].Values
    ensures UpstreamOf(TWO_VERSIONS, "c") == NEWEST && SupportedMinors(TWO_VERSIONS.catalog, "c") == 3
    ensures !Comparable(AllVersions(TWO_VERSIONS)["c"].Values, NEWEST, 3)
  {
    hide AllVersions;
    NotComparable(AllVersions(TWO_VERSIONS)["c"].Values);
    hide Comparable;
  }

  lemma NotComparable(running: set<string>)
    requires "1.9.0" in running && "2.1.0" in running
    ensures !Comparable(running, NEWEST, 3)
  {
    hide Parse;
    ThreePartsRead(1, 9, 0, "1.9.0");
    ThreePartsRead(2, 1, 0, "2.1.0");
    ThreePartsRead(2, 5, 0, "2.5.0");
    assert NEWEST[0].version == "2.5.0";
  }

  // ---------------------------------------------------------------- drafts

  /** Drafting nothing the second time (ApplyIsIdempotent): with a release without a name, targets are drafted again. */
  lemma UnnamedReleaseDraftsAgain(drafter: Drafter, today: string)
    ensures
      var p := Platform("text", [Offering("o", "O", "other", "")], [Environment("a", "", "")]);
      var once := Applied(p, [PlatformRelease("", map[], "1.0.0", "", "", map[], [])], map[], drafter, today);
      var twice := Applied(once.platform, once.releases, map[], drafter, today);
      "targets" in once.drafted && "targets" in twice.drafted
  {
    var e := Environment("a", "", "");
    var p := Platform("text", [Offering("o", "O", "other", "")], [e]);
    assert e in p.environments;
    RetargetTwice(p.environments, "");
    assert Retarget(p.environments, "") == [e];
  }

  // ---------------------------------------------------------------- images

  /** Recognition as the same component (ImageRecognised): an earlier one takes only the mirrored path. */
  lemma EarlierTakesMirror(glob: Glob)
    requires forall pattern, path :: glob(pattern, path) <==> pattern == path
    ensures
      var entries := [Entry("a", ["m/r"]), Entry("b", ["r"])];
      FirstMatch(glob, entries, "r") == Some(1) && FirstMatch(glob, entries, "m/r") == Some(0)
  {
    hide MatchRef, FirstMatch, EntryMatches;
    PlainPatterns(glob);
    var a, b := Entry("a", ["m/r"]), Entry("b", ["r"]);
    OnePattern(glob, "a", "m/r", "r");
    OnePattern(glob, "a", "m/r", "m/r");
    OnePattern(glob, "b", "r", "r");
    OfTwo(glob, a, b, "r");
    OfTwo(glob, a, b, "m/r");
  }

  lemma OnePattern(glob: Glob, name: string, pattern: string, ref: string)
    ensures EntryMatches(glob, Entry(name, [pattern]), ref) <==> MatchRef(glob, pattern, ref)
  {
    hide MatchRef;
    assert [pattern][0] == pattern;
  }

  lemma OfTwo(glob: Glob, a: Entry, b: Entry, ref: string)
    ensures EntryMatches(glob, a, ref) ==> FirstMatch(glob, [a, b], ref) == Some(0)
    ensures !EntryMatches(glob, a, ref) && EntryMatches(glob, b, ref) ==> FirstMatch(glob, [a, b], ref) == Some(1)
  {
    hide EntryMatches, FirstMatch;
    assert [a, b][0] == a && [a, b][1] == b;
  }

  lemma PlainPatterns(glob: Glob)
    requires forall pattern, path :: glob(pattern, path) <==> pattern == path
    ensures MatchRef(glob, "r", "r") && !MatchRef(glob, "m/r", "r") && MatchRef(glob, "m/r", "m/r")
  {
    hide MatchRef;
    MatchRefExactly(glob, "m/r", "r");
    MatchRefExactly(glob, "r", "r");
    MatchRefExactly(glob, "m/r", "m/r");
    assert "r"[0..] == "r" && StartsSegment("r", 0) && glob("r", "r"[0..]);
    assert "m/r"[0..] == "m/r" && StartsSegment("m/r", 0) && glob("m/r", "m/r"[0..]);
    assert |"m/r"| == 3;
    assert forall k | 0 <= k <= |"r"| :: |"r"[k..]| <= 1;
  }

  // ---------------------------------------------------------------- cut releases

  const LISTED_TWICE := [
    DiscoveredComponent("c", "C", "other", "1.0.0", true, ""), DiscoveredComponent("c", "C", "other", "", true, "")]

  /** Satisfying a release cut from what runs (CutIsSatisfiedExactly): the name is listed again, without a version. */
  lemma RepeatedNameLosesVersion(release: PlatformRelease)
    requires release.components == Releases.PinnedVersions(LISTED_TWICE)
    ensures !Satisfies(release, VersionsOf(LISTED_TWICE))
  {
    var components := LISTED_TWICE;
    var first := components[0];
    assert components[..1] == [first] && [first][..0] == [];
    assert VersionsOf(components) == map["c" := ""];
    assert components[0].version != "" && components[0].name == "c";
    CutIsSatisfiedExactly(release, components);
  }

  // ---------------------------------------------------------------- the upstream client

  /** Separate cache files (CollisionExactly). */
  lemma TwoSlugsOneFile()
    ensures Upstream.CacheFile("a/b__c") == Upstream.CacheFile("a__b/c")
  {
    UpstreamLaws.CacheFileOf("a", "b__c");
    UpstreamLaws.CacheFileOf("a__b", "c");
    assert "a" + "/" + "b__c" == "a/b__c" && "a__b" + "/" + "c" == "a__b/c";
    assert "a" + "__" + "b__c" + ".json" == "a__b" + "__" + "c" + ".json";
    hide Upstream.ReplaceSlash;
  }

  /** Waiting for the announced reset (RespectsRateLimit): the client that heard of it is replaced. */
  lemma ReplacedClientForgetsReset() returns (events: seq<UpstreamLaws.Event>)
    ensures |events| == 3 && UpstreamLaws.InOrder(events) && UpstreamLaws.IsCall(events, 2)
    ensures
      var cfg := UpstreamLaws.Config(10, true);
      && events[2].call.limitAt < UpstreamLaws.LastReset(cfg, events[..2])
      && UpstreamLaws.OutcomeAt(cfg, events, 2).askedApi
  {
    hide Upstream.CacheFile;
    var cfg := UpstreamLaws.Config(10, true);
    var limited: seq<Upstream.Page> := [Upstream.Limited(Some(100)), Upstream.Limited(Some(100))];
    var c := Upstream.Call("a/b", 1, 1, 1, 1, 1, limited, None, true);
    events := [UpstreamLaws.Ask(c), UpstreamLaws.Replace, UpstreamLaws.Ask(c)];
    assert events[..2] == [events[0], events[1]] && events[..2][..1] == [events[0]] && [events[0]][..0] == [];
    assert Upstream.ReadPages(limited) == Upstream.ApiLimited(Some(100));
    assert Upstream.FetchWith(0, c) == Upstream.Fetched(100, None, true, Some(100));
    assert UpstreamLaws.StateAfter(cfg, []) == UpstreamLaws.EMPTY;
    var heard := UpstreamLaws.StateAfter(cfg, [events[0]]);
    assert heard == UpstreamLaws.EMPTY.(limitedUntil := 100);
    assert UpstreamLaws.OutcomeAt(cfg, [events[0]], 0).announced == Some(100);
    assert UpstreamLaws.LastReset(cfg, [events[0]]) == 100;
    assert UpstreamLaws.StateAfter(cfg, events[..2]) == UpstreamLaws.EMPTY;
  }
}
