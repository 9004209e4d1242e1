/** Sorting, cutting and diffing platform releases (internal/release). */
module Releases {
  import opened Iteration
  import opened Model
  import opened Sorting
  import opened Version

  const BY_VERSION := (a: PlatformRelease, b: PlatformRelease) => CompareStrings(a.version, b.version)

  lemma ByVersionIsPreorder()
    ensures TotalPreorder(BY_VERSION)
  {
    forall a: PlatformRelease, b: PlatformRelease ensures BY_VERSION(a, b) >= 0 <==> BY_VERSION(b, a) <= 0 {
      CompareStringsAntisymmetric(a.version, b.version);
    }
    forall a: PlatformRelease, b: PlatformRelease, c: PlatformRelease | BY_VERSION(a, b) >= 0 && BY_VERSION(b, c) >= 0
      ensures BY_VERSION(a, c) >= 0
    {
      NotOlderTransitive(a.version, b.version, c.version);
    }
  }

  lemma NotOlderTransitive(a: string, b: string, c: string)
    requires CompareStrings(a, b) >= 0 && CompareStrings(b, c) >= 0
    ensures CompareStrings(a, c) >= 0
    ensures CompareStrings(a, b) > 0 || CompareStrings(b, c) > 0 ==> CompareStrings(a, c) > 0
  {
    hide CompareStrings;
    CompareStringsAntisymmetric(a, b);
    CompareStringsAntisymmetric(b, c);
    CompareStringsAntisymmetric(a, c);
    CompareStringsTransitive(c, b, a);
  }

  ghost predicate NewestFirst(releases: seq<PlatformRelease>) {
    forall i, j | 0 <= i < j < |releases| :: CompareStrings(releases[i].version, releases[j].version) >= 0
  }

  /** Stable, by falling version. */
  method Sort(releases: array<PlatformRelease>)
    modifies releases
    ensures releases[..] == Sorted(old(releases[..]), BY_VERSION)
  {
    SortInPlace(releases, BY_VERSION);
  }

  /** What Sort promises: the same releases, newest first. */
  lemma SortedReleases(releases: seq<PlatformRelease>)
    ensures multiset(Sorted(releases, BY_VERSION)) == multiset(releases)
    ensures NewestFirst(Sorted(releases, BY_VERSION))
  {
    ByVersionIsPreorder();
    SortedIsStableSort(releases, BY_VERSION);
    var sorted := Sorted(releases, BY_VERSION);
    forall i, j | 0 <= i < j < |sorted| ensures CompareStrings(sorted[i].version, sorted[j].version) >= 0 {
      assert BY_VERSION(sorted[i], sorted[j]) >= 0;
    }
  }

  // ---------------------------------------------------------------- cutting a release

  /** The versions a release cut from these components pins: version-less components are skipped. */
  function PinnedVersions(components: seq<DiscoveredComponent>): map<string, string> {
    if components == [] then map[]
    else
      var rest, last := components[..|components| - 1], components[|components| - 1];
      if last.version != "" then PinnedVersions(rest)[last.name := last.version] else PinnedVersions(rest)
  }

  function ReleasedOfferings(offerings: seq<Offering>): seq<string> {
    if offerings == [] then []
    else
      var rest, last := offerings[..|offerings| - 1], offerings[|offerings| - 1];
      if last.status == "planned" then ReleasedOfferings(rest) else ReleasedOfferings(rest) + [last.name]
  }

  method FromInventory(name: string, inv: Inventory, offerings: seq<Offering>, summary: string, today: string)
    returns (r: PlatformRelease)
    ensures r == PlatformRelease(name, map[], Normalize(name), today, summary,
                                 PinnedVersions(inv.components), ReleasedOfferings(offerings))
  {
    var pinned: map<string, string> := map[];
    for i := 0 to |inv.components|
      invariant pinned == PinnedVersions(inv.components[..i])
    {
      assert inv.components[..i + 1][..i] == inv.components[..i];
      if inv.components[i].version != "" {
        pinned := pinned[inv.components[i].name := inv.components[i].version];
      }
    }
    var names: seq<string> := [];
    for i := 0 to |offerings|
      invariant names == ReleasedOfferings(offerings[..i])
    {
      assert offerings[..i + 1][..i] == offerings[..i];
      if offerings[i].status != "planned" {
        names := names + [offerings[i].name];
      }
    }
    assert inv.components == inv.components[..|inv.components|] && offerings == offerings[..|offerings|];
    r := PlatformRelease(name, map[], Normalize(name), today, summary, pinned, names);
  }

  /** When names are unique, a cut release pins exactly the versioned components, at their versions. */
  lemma {:induction false} PinsWhatRuns(components: seq<DiscoveredComponent>, c: DiscoveredComponent)
    requires UniqueComponents(components) && c in components
    ensures c.name in PinnedVersions(components) <==> c.version != ""
    ensures c.version != "" ==> PinnedVersions(components)[c.name] == c.version
  {
    var rest, last := components[..|components| - 1], components[|components| - 1];
    if c == last {
      PinsOnlyListed(rest);
    } else {
      assert c in rest;
      PinsWhatRuns(rest, c);
    }
  }

  lemma {:induction false} PinsOnlyListed(components: seq<DiscoveredComponent>)
    ensures forall n | n in PinnedVersions(components) ::
              exists i | 0 <= i < |components| :: components[i].name == n && components[i].version != ""
    ensures "" !in PinnedVersions(components).Values
  {
    if components != [] {
      PinsOnlyListed(components[..|components| - 1]);
    }
  }

  /** A cut release pins a component exactly when it is listed with a version, at the last one listed. */
  lemma {:induction false} PinsLastVersion(components: seq<DiscoveredComponent>, name: string)
    ensures name in PinnedVersions(components) <==> exists i: nat, v :: LastVersion(components, name, v, i)
    ensures forall i: nat, v | LastVersion(components, name, v, i) :: PinnedVersions(components)[name] == v
  {
    if components != [] {
      var rest, last := components[..|components| - 1], components[|components| - 1];
      PinsLastVersion(rest, name);
      forall i: nat, v | LastVersion(components, name, v, i) && i < |rest| ensures LastVersion(rest, name, v, i) {
        assert forall j | i < j < |rest| :: rest[j] == components[j];
      }
      if last.name == name && last.version != "" {
        assert LastVersion(components, name, last.version, |rest|);
      } else {
        forall i: nat, v | LastVersion(rest, name, v, i) ensures LastVersion(components, name, v, i) {
          assert forall j | i < j < |rest| :: rest[j] == components[j];
        }
      }
    }
  }

  predicate LastVersion(components: seq<DiscoveredComponent>, name: string, version: string, i: nat) {
    && i < |components| && components[i].name == name && components[i].version == version != ""
    && forall j | i < j < |components| :: components[j].name == name ==> components[j].version == ""
  }

  /** A cut release offers what is not planned, in order. */
  lemma {:induction false} ReleasedInOrder(offerings: seq<Offering>, more: seq<Offering>)
    ensures ReleasedOfferings(offerings + more) == ReleasedOfferings(offerings) + ReleasedOfferings(more)
    ensures forall o: Offering :: ReleasedOfferings([o]) == if o.status == "planned" then [] else [o.name]
  {
    forall o: Offering ensures ReleasedOfferings([o]) == if o.status == "planned" then [] else [o.name] {
      assert [o][..0] == [];
    }
    if more == [] {
      assert offerings + more == offerings;
    } else {
      assert (offerings + more)[..|offerings + more| - 1] == offerings + more[..|more| - 1];
      ReleasedInOrder(offerings, more[..|more| - 1]);
    }
  }

  // ---------------------------------------------------------------- diffing two releases

  datatype Change = Added | Removed | Upgraded | Downgraded | Unchanged

  datatype ComponentChange = ComponentChange(component: string, from: string, to: string, change: Change)

  datatype Diff = Diff(
    from: string, to: string, components: seq<ComponentChange>, offeringsAdded: seq<string>, offeringsRemoved: seq<string>)

  function VersionIn(components: map<string, string>, name: string): string {
    if name in components then components[name] else ""
  }

  function ChangeOf(from: map<string, string>, to: map<string, string>, name: string): (c: ComponentChange)
    ensures c.component == name
  {
    var a, b := VersionIn(from, name), VersionIn(to, name);
    var order := CompareStrings(a, b);
    var change :=
      if name !in from then Added
      else if name !in to then Removed
      else if order < 0 then Upgraded
      else if order > 0 then Downgraded
      else Unchanged;
    ComponentChange(name, a, b, change)
  }

  /** The elements of a that are not in b, in order. */
  function Minus(a: seq<string>, b: seq<string>): seq<string> {
    if a == [] then []
    else
      var last := a[|a| - 1];
      Minus(a[..|a| - 1], b) + if last in b then [] else [last]
  }

  method MinusOf(a: seq<string>, b: seq<string>) returns (out: seq<string>)
    ensures out == Minus(a, b)
  {
    var inB: set<string> := {};
    for i := 0 to |b|
      invariant inB == set j | 0 <= j < i :: b[j]
    {
      inB := inB + {b[i]};
    }
    out := [];
    for i := 0 to |a|
      invariant out == Minus(a[..i], b)
    {
      assert a[..i + 1][..i] == a[..i];
      if a[i] !in inB {
        out := out + [a[i]];
      }
    }
    assert a[..|a|] == a;
  }

  lemma {:induction false} MinusElements(a: seq<string>, b: seq<string>, x: string)
    ensures x in Minus(a, b) <==> x in a && x !in b
  {
    if a != [] {
      MinusElements(a[..|a| - 1], b, x);
      assert a == a[..|a| - 1] + [a[|a| - 1]];
    }
  }

  function Names(changes: seq<ComponentChange>): (r: seq<string>)
    ensures |r| == |changes| && forall i | 0 <= i < |r| :: r[i] == changes[i].component
  {
    seq(|changes|, i requires 0 <= i < |changes| => changes[i].component)
  }

  /** Whether d is a diff of two releases: one change for each name in either, in any order. */
  ghost predicate IsDiff(from: PlatformRelease, to: PlatformRelease, d: Diff) {
    && d.from == from.name && d.to == to.name
    && Lists(Names(d.components), from.components.Keys + to.components.Keys)
    && (forall i | 0 <= i < |d.components| ::
          d.components[i] == ChangeOf(from.components, to.components, d.components[i].component))
    && d.offeringsAdded == Minus(to.offerings, from.offerings)
    && d.offeringsRemoved == Minus(from.offerings, to.offerings)
  }

  /** Compares two releases, visiting the names in any order. */
  method Compare(from: PlatformRelease, to: PlatformRelease) returns (d: Diff)
    ensures IsDiff(from, to, d)
  {
    hide ChangeOf, Minus;
    var order := AnyOrder(from.components.Keys + to.components.Keys);
    var changes: seq<ComponentChange> := [];
    for i := 0 to |order|
      invariant |changes| == i
      invariant forall j | 0 <= j < i :: changes[j] == ChangeOf(from.components, to.components, order[j])
    {
      changes := changes + [ChangeOf(from.components, to.components, order[i])];
    }
    assert Names(changes) == order;
    var added := MinusOf(to.offerings, from.offerings);
    var removed := MinusOf(from.offerings, to.offerings);
    d := Diff(from.name, to.name, changes, added, removed);
  }

  /** What the change of a component is, by the versions that the two releases pin, if they do. */
  predicate IsChange(from: map<string, string>, to: map<string, string>, c: ComponentChange) {
    var n := c.component;
    && c.from == (if n in from then from[n] else "") && c.to == (if n in to then to[n] else "")
    && match c.change
       case Added => n !in from && n in to
       case Removed => n in from && n !in to
       case Upgraded => n in from && n in to && CompareStrings(from[n], to[n]) < 0
       case Downgraded => n in from && n in to && CompareStrings(from[n], to[n]) > 0
       case Unchanged => n in from && n in to && CompareStrings(from[n], to[n]) == 0
  }

  /** A diff has this one change for each component of either release, and none besides. */
  lemma DiffExactly(from: PlatformRelease, to: PlatformRelease, d: Diff)
    requires IsDiff(from, to, d)
    ensures forall c | c in d.components :: IsChange(from.components, to.components, c)
    ensures forall n :: n in from.components || n in to.components <==> exists c | c in d.components :: c.component == n
    ensures forall i, j | 0 <= i < j < |d.components| :: d.components[i].component != d.components[j].component
    ensures forall o :: o in d.offeringsAdded <==> o in to.offerings && o !in from.offerings
    ensures forall o :: o in d.offeringsRemoved <==> o in from.offerings && o !in to.offerings
  {
    hide CompareStrings, Minus;
    forall n
      ensures n in Names(d.components) <==> exists c | c in d.components :: c.component == n
    {
      NamesExactly(d.components, n);
    }
    DistinctNames(d.components);
    forall c | c in d.components ensures IsChange(from.components, to.components, c) {
      assert c.component in Names(d.components);
      ChangeExactly(from.components, to.components, c.component);
    }
    forall o
      ensures o in d.offeringsAdded <==> o in to.offerings && o !in from.offerings
      ensures o in d.offeringsRemoved <==> o in from.offerings && o !in to.offerings
    {
      MinusElements(to.offerings, from.offerings, o);
      MinusElements(from.offerings, to.offerings, o);
    }
  }

  lemma ChangeExactly(from: map<string, string>, to: map<string, string>, name: string)
    requires name in from || name in to
    ensures IsChange(from, to, ChangeOf(from, to, name))
  {
    hide CompareStrings;
  }

  lemma NamesExactly(changes: seq<ComponentChange>, name: string)
    ensures name in Names(changes) <==> exists c | c in changes :: c.component == name
  {
    var names := Names(changes);
    if name in names {
      var i :| 0 <= i < |names| && names[i] == name;
      assert changes[i] in changes;
    }
    if c :| c in changes && c.component == name {
      var i :| 0 <= i < |changes| && changes[i] == c;
      assert names[i] == name;
    }
  }

  /** The difference keeps the order and the repetitions of what stays. */
  lemma {:induction false} MinusInOrder(a: seq<string>, more: seq<string>, b: seq<string>)
    ensures Minus(a + more, b) == Minus(a, b) + Minus(more, b)
  {
    if more == [] {
      assert a + more == a;
    } else {
      var rest, last := more[..|more| - 1], more[|more| - 1];
      assert (a + more)[..|a + more| - 1] == a + rest && (a + more)[|a + more| - 1] == last;
      MinusInOrder(a, rest, b);
      var kept := if last in b then [] else [last];
      assert Minus(a + more, b) == Minus(a + rest, b) + kept;
      assert Minus(a, b) + (Minus(rest, b) + kept) == Minus(a, b) + Minus(rest, b) + kept;
    }
  }

  function MirrorChange(c: Change): Change {
    match c
    case Added => Removed
    case Removed => Added
    case Upgraded => Downgraded
    case Downgraded => Upgraded
    case Unchanged => Unchanged
  }

  function MirrorChanges(cs: seq<ComponentChange>): (r: seq<ComponentChange>)
    ensures |r| == |cs|
    ensures forall i | 0 <= i < |cs| ::
              r[i] == ComponentChange(cs[i].component, cs[i].to, cs[i].from, MirrorChange(cs[i].change))
  {
    seq(|cs|, i requires 0 <= i < |cs| =>
      ComponentChange(cs[i].component, cs[i].to, cs[i].from, MirrorChange(cs[i].change)))
  }

  function Mirror(d: Diff): Diff {
    Diff(d.to, d.from, MirrorChanges(d.components), d.offeringsRemoved, d.offeringsAdded)
  }

  /** The change of one component, read in the other direction. */
  lemma ChangeMirrors(from: map<string, string>, to: map<string, string>, name: string)
    requires name in from || name in to
    ensures
      var c := ChangeOf(from, to, name);
      ChangeOf(to, from, name) == ComponentChange(name, c.to, c.from, MirrorChange(c.change))
  {
    hide CompareStrings;
    CompareStringsAntisymmetric(VersionIn(from, name), VersionIn(to, name));
  }

  /** A diff read backwards is a diff of the swapped releases: added with removed, upgraded with downgraded. */
  lemma DiffDuality(from: PlatformRelease, to: PlatformRelease, d: Diff)
    requires IsDiff(from, to, d)
    ensures IsDiff(to, from, Mirror(d))
  {
    hide CompareStrings;
    var m := Mirror(d);
    assert Names(m.components) == Names(d.components);
    assert to.components.Keys + from.components.Keys == from.components.Keys + to.components.Keys;
    forall i | 0 <= i < |m.components|
      ensures m.components[i] == ChangeOf(to.components, from.components, m.components[i].component)
    {
      assert Names(d.components)[i] in Names(d.components);
      ChangeMirrors(from.components, to.components, d.components[i].component);
    }
  }

  /** A release differs from itself in nothing. */
  lemma SelfDiff(r: PlatformRelease, d: Diff)
    requires IsDiff(r, r, d)
    ensures forall c | c in d.components :: c.change == Unchanged && c.from == c.to
    ensures d.offeringsAdded == [] && d.offeringsRemoved == []
  {
    forall i | 0 <= i < |d.components|
      ensures d.components[i].change == Unchanged && d.components[i].from == d.components[i].to
    {
      var c := d.components[i];
      assert Names(d.components)[i] in Names(d.components);
      CompareStringsAntisymmetric(c.from, c.from);
    }
    if d.offeringsAdded != [] {
      MinusElements(r.offerings, r.offerings, d.offeringsAdded[0]);
    }
  }

  predicate NotDowngrade(c: Change) {
    c == Upgraded || c == Unchanged
  }

  /** Over three releases, upgrades compose, and one real upgrade makes the whole an upgrade. */
  lemma UpgradesCompose(a: map<string, string>, b: map<string, string>, c: map<string, string>, name: string)
    requires name in a && name in b && name in c
    requires NotDowngrade(ChangeOf(a, b, name).change) && NotDowngrade(ChangeOf(b, c, name).change)
    ensures
      ChangeOf(a, c, name).change ==
      if ChangeOf(a, b, name).change == Upgraded || ChangeOf(b, c, name).change == Upgraded then Upgraded else Unchanged
  {
    hide CompareStrings;
    CompareStringsTransitive(a[name], b[name], c[name]);
    CompareStringsAntisymmetric(a[name], b[name]);
    CompareStringsAntisymmetric(b[name], c[name]);
    CompareStringsAntisymmetric(a[name], c[name]);
    if ChangeOf(a, b, name).change == Unchanged && ChangeOf(b, c, name).change == Unchanged {
      CompareStringsTransitive(c[name], b[name], a[name]);
    }
  }

  /** Applying the listed changes to a set of components. */
  function Patch(components: map<string, string>, changes: seq<ComponentChange>): map<string, string> {
    if changes == [] then components
    else
      var last := changes[|changes| - 1];
      var patched := Patch(components, changes[..|changes| - 1]);
      if last.change == Removed then patched - {last.component} else patched[last.component := last.to]
  }

  /** A diff is complete: patching the old release with it gives the new one, components and offerings. */
  lemma DiffPatches(from: PlatformRelease, to: PlatformRelease, d: Diff)
    requires IsDiff(from, to, d)
    ensures Patch(from.components, d.components) == to.components
    ensures forall o :: o in to.offerings <==> (o in from.offerings && o !in d.offeringsRemoved) || o in d.offeringsAdded
  {
    hide CompareStrings;
    var p := Patch(from.components, d.components);
    forall i | 0 <= i < |d.components| ensures d.components[i].component in from.components.Keys + to.components.Keys {
      assert Names(d.components)[i] in Names(d.components);
    }
    DistinctNames(d.components);
    forall n ensures SameAt(p, to.components, n) {
      PatchesNamed(from.components, to.components, d.components, n);
    }
    assert p.Keys == to.components.Keys by {
      forall n ensures n in p <==> n in to.components { assert SameAt(p, to.components, n); }
    }
    forall n | n in p ensures p[n] == to.components[n] { assert SameAt(p, to.components, n); }
    forall o ensures o in to.offerings <==> (o in from.offerings && o !in d.offeringsRemoved) || o in d.offeringsAdded {
      MinusElements(to.offerings, from.offerings, o);
      MinusElements(from.offerings, to.offerings, o);
    }
  }

  lemma DistinctNames(changes: seq<ComponentChange>)
    requires forall i, j | 0 <= i < j < |changes| :: Names(changes)[i] != Names(changes)[j]
    ensures forall i, j | 0 <= i < j < |changes| :: changes[i].component != changes[j].component
  {
    assert forall i | 0 <= i < |changes| :: Names(changes)[i] == changes[i].component;
  }

  predicate SameAt(a: map<string, string>, b: map<string, string>, name: string) {
    (name in a <==> name in b) && (name in a ==> a[name] == b[name])
  }

  ghost predicate ChangesBetween(from: map<string, string>, to: map<string, string>, changes: seq<ComponentChange>) {
    && (forall i, j | 0 <= i < j < |changes| :: changes[i].component != changes[j].component)
    && forall i | 0 <= i < |changes| ::
         && changes[i].component in from.Keys + to.Keys
         && changes[i] == ChangeOf(from, to, changes[i].component)
  }

  /** After some changes, a name is as in the new release if it was among them, otherwise as in the old. */
  lemma {:induction false} PatchesNamed(
      from: map<string, string>, to: map<string, string>, changes: seq<ComponentChange>, name: string)
    requires ChangesBetween(from, to, changes)
    ensures SameAt(Patch(from, changes), if name in Names(changes) then to else from, name)
  {
    hide CompareStrings;
    if changes != [] {
      var rest, last := changes[..|changes| - 1], changes[|changes| - 1];
      PatchesNamed(from, to, rest, name);
      assert Names(changes) == Names(rest) + [last.component];
    }
  }
}
