/** Building the served configuration from the objects of four stores (internal/operator, internal/service). */
module Resources {
  import opened Iteration
  import opened Model
  import opened Options
  import opened Releases
  import opened Sorting

  /** One custom resource; a decoder knows what its content says. */
  datatype Object = Object(name: string, content: string)

  /** What a store may hold: an object, or an item of another type. */
  datatype Item = Known(obj: Object) | Foreign

  datatype Problem =
    | ForeignItem | ManyPlatforms | PlatformNotFound | NoPlatform | BadObject(name: string) | Refused

  datatype Result<+T> = Ok(value: T) | Err(problem: Problem)

  datatype Named<+T> = Named(name: string, value: T)

  /** Decoding objects, accepting a platform but for its environments, accepting one environment, and loading the
      builtin catalog with the platform's component directory: arbitrary fixed functions. */
  datatype Config = Config(
    platformName: string,
    platform: Object -> Option<Platform>, accepts: Platform -> bool, validEnvironment: Environment -> bool,
    files: Platform -> Option<map<string, CatalogComponent>>,
    release: Object -> Option<PlatformRelease>,
    component: Object -> Option<CatalogComponent>,
    inventory: Object -> Option<Inventory>)

  /** What is served. */
  datatype Service = Service(
    platform: Platform, releases: seq<PlatformRelease>,
    components: map<string, CatalogComponent>, inventories: map<string, Inventory>)

  /** Platforms, releases, components and inventories. */
  const STORES := 4

  // ---------------------------------------------------------------- selecting the platform

  function FirstNamed(platforms: seq<Object>, name: string): Option<Object> {
    if platforms == [] then None
    else if platforms[0].name == name then Some(platforms[0])
    else FirstNamed(platforms[1..], name)
  }

  function Selected(platforms: seq<Object>, name: string): Result<Object> {
    if name != "" then
      match FirstNamed(platforms, name)
      case Some(o) => Ok(o)
      case None => Err(PlatformNotFound)
    else if |platforms| > 1 then Err(ManyPlatforms)
    else if platforms == [] then Err(NoPlatform)
    else Ok(platforms[0])
  }

  method SelectPlatform(platforms: seq<Object>, name: string) returns (r: Result<Object>)
    ensures r == Selected(platforms, name)
  {
    var selected: Option<Object> := None;
    assert platforms[0..] == platforms;
    for i := 0 to |platforms|
      invariant name != "" ==> selected.None? && FirstNamed(platforms, name) == FirstNamed(platforms[i..], name)
      invariant name == "" ==> i <= 1 && selected == if i == 0 then None else Some(platforms[0])
    {
      assert platforms[i..][1..] == platforms[i + 1..];
      if name != "" && platforms[i].name == name {
        return Ok(platforms[i]);
      }
      if name == "" {
        if selected.Some? {
          return Err(ManyPlatforms);
        }
        selected := Some(platforms[i]);
      }
    }
    if selected.None? {
      return Err(if name != "" then PlatformNotFound else NoPlatform);
    }
    r := Ok(selected.value);
  }

  lemma {:induction false} FirstNamedExactly(platforms: seq<Object>, name: string)
    ensures FirstNamed(platforms, name).Some? <==> exists o | o in platforms :: o.name == name
    ensures FirstNamed(platforms, name).Some? ==>
              FirstNamed(platforms, name).value in platforms && FirstNamed(platforms, name).value.name == name
  {
    if platforms != [] {
      FirstNamedExactly(platforms[1..], name);
      assert platforms == [platforms[0]] + platforms[1..];
    }
  }

  /** No two objects of a store share a name: Kubernetes keys them by it. */
  ghost predicate UniqueNames(store: set<Item>) {
    forall a, b | a in store && b in store && a.Known? && b.Known? && a.obj.name == b.obj.name :: a == b
  }

  ghost predicate UniqueObjects(objects: seq<Object>) {
    forall i, j | 0 <= i < j < |objects| :: objects[i].name != objects[j].name
  }

  /** A platform is selected exactly when the name asked for is there or, with no name, when there is just one. */
  lemma SelectedExactly(platforms: seq<Object>, name: string, o: Object)
    requires UniqueObjects(platforms)
    ensures Selected(platforms, name) == Ok(o) <==>
            o in platforms && if name != "" then o.name == name else |platforms| == 1
  {
    FirstNamedExactly(platforms, name);
  }

  // ---------------------------------------------------------------- decoding

  /** What every object says, or the first object that says nothing. */
  function Decoded<T>(objects: seq<Object>, decode: Object -> Option<T>): Result<seq<Named<T>>> {
    if objects == [] then Ok([])
    else
      var rest, last := Decoded(objects[..|objects| - 1], decode), objects[|objects| - 1];
      if rest.Err? then rest
      else if decode(last).None? then Err(BadObject(last.name))
      else Ok(rest.value + [Named(last.name, decode(last).value)])
  }

  method DecodeEach<T>(objects: seq<Object>, decode: Object -> Option<T>) returns (r: Result<seq<Named<T>>>)
    ensures r == Decoded(objects, decode)
  {
    var out: seq<Named<T>> := [];
    for i := 0 to |objects|
      invariant Decoded(objects[..i], decode) == Ok(out)
    {
      assert objects[..i + 1][..i] == objects[..i];
      var t := decode(objects[i]);
      if t.None? {
        ErrorStays(objects, decode, i + 1);
        return Err(BadObject(objects[i].name));
      }
      out := out + [Named(objects[i].name, t.value)];
    }
    assert objects[..|objects|] == objects;
    r := Ok(out);
  }

  lemma {:induction false} ErrorStays<T>(objects: seq<Object>, decode: Object -> Option<T>, k: nat)
    requires k <= |objects| && Decoded(objects[..k], decode).Err?
    ensures Decoded(objects, decode) == Decoded(objects[..k], decode)
  {
    if k == |objects| {
      assert objects[..k] == objects;
    } else {
      var rest := objects[..|objects| - 1];
      assert rest[..k] == objects[..k];
      ErrorStays(rest, decode, k);
    }
  }

  /** Decoding succeeds exactly when it does for each object, and then keeps their order. */
  lemma {:induction false} DecodedExactly<T>(objects: seq<Object>, decode: Object -> Option<T>)
    ensures Decoded(objects, decode).Ok? <==> forall o | o in objects :: decode(o).Some?
    ensures Decoded(objects, decode).Ok? ==>
              && |Decoded(objects, decode).value| == |objects|
              && forall i | 0 <= i < |objects| ::
                   && decode(objects[i]).Some?
                   && Decoded(objects, decode).value[i] == Named(objects[i].name, decode(objects[i]).value)
  {
    if objects != [] {
      var rest, last := objects[..|objects| - 1], objects[|objects| - 1];
      assert objects == rest + [last];
      DecodedExactly(rest, decode);
    }
  }

  /** Later entries replace earlier ones of the same name. */
  function ByName<T>(entries: seq<Named<T>>): map<string, T> {
    if entries == [] then map[]
    else ByName(entries[..|entries| - 1])[entries[|entries| - 1].name := entries[|entries| - 1].value]
  }

  /** A release without a version takes its name for one. */
  function WithVersion(r: Named<PlatformRelease>): PlatformRelease {
    r.value.(name := r.name, version := if r.value.version == "" then r.name else r.value.version)
  }

  function WithVersions(releases: seq<Named<PlatformRelease>>): seq<PlatformRelease> {
    if releases == [] then []
    else WithVersions(releases[..|releases| - 1]) + [WithVersion(releases[|releases| - 1])]
  }

  function Objects(items: seq<Item>): Option<seq<Object>> {
    if items == [] then Some([])
    else
      var rest, last := Objects(items[..|items| - 1]), items[|items| - 1];
      if rest.None? || last.Foreign? then None else Some(rest.value + [last.obj])
  }

  predicate AnyForeign(items: seq<Item>) {
    exists i | 0 <= i < |items| :: items[i].Foreign?
  }

  lemma {:induction false} ObjectsExactly(items: seq<Item>)
    ensures Objects(items).None? <==> AnyForeign(items)
    ensures Objects(items).Some? ==>
              |Objects(items).value| == |items| && forall i | 0 <= i < |items| :: items[i] == Known(Objects(items).value[i])
  {
    if items != [] {
      ObjectsExactly(items[..|items| - 1]);
    }
  }

  // ---------------------------------------------------------------- building

  predicate AnyUnnamed<T>(entries: seq<Named<T>>) {
    exists i | 0 <= i < |entries| :: entries[i].name == ""
  }

  /** Categories that have been renamed. */
  const LEGACY_CATEGORIES := map["compute" := "infrastructure", "composition" := "infrastructure"]

  function NormalizeCategory(category: string): string {
    if category in LEGACY_CATEGORIES then LEGACY_CATEGORIES[category] else category
  }

  /** What an object leaves empty: its name is shown, and its category is "other". */
  function WithDefaults(name: string, c: CatalogComponent): CatalogComponent {
    c.(displayName := if c.displayName == "" then name else c.displayName,
       category := NormalizeCategory(if c.category == "" then "other" else c.category))
  }

  function AllWithDefaults(components: map<string, CatalogComponent>): map<string, CatalogComponent> {
    map n | n in components :: WithDefaults(n, components[n])
  }

  function Renamed(offerings: seq<Offering>): (r: seq<Offering>)
    ensures |r| == |offerings|
    ensures forall i | 0 <= i < |r| :: r[i] == offerings[i].(category := NormalizeCategory(offerings[i].category))
  {
    seq(|offerings|, i requires 0 <= i < |offerings| =>
      offerings[i].(category := NormalizeCategory(offerings[i].category)))
  }

  /** An accepted platform with its offerings under the categories of today. */
  function Validated(cfg: Config, p: Platform): Option<Platform> {
    if cfg.accepts(p) && (forall e | e in p.environments :: cfg.validEnvironment(e)) && UniqueEnvironments(p.environments) then
      Some(p.(offerings := Renamed(p.offerings)))
    else None
  }

  method ValidatePlatform(cfg: Config, p: Platform) returns (r: Option<Platform>)
    ensures r == Validated(cfg, p)
  {
    if !cfg.accepts(p) {
      return None;
    }
    var seen: set<string> := {};
    for i := 0 to |p.environments|
      invariant seen == set j | 0 <= j < i :: p.environments[j].name
      invariant forall j | 0 <= j < i :: cfg.validEnvironment(p.environments[j])
      invariant UniqueEnvironments(p.environments[..i])
    {
      var e := p.environments[i];
      if !cfg.validEnvironment(e) {
        return None;
      }
      if e.name in seen {
        return None;
      }
      seen := seen + {e.name};
    }
    assert p.environments[..|p.environments|] == p.environments;
    var offerings: seq<Offering> := [];
    for i := 0 to |p.offerings|
      invariant offerings == Renamed(p.offerings)[..i]
    {
      offerings := offerings + [p.offerings[i].(category := NormalizeCategory(p.offerings[i].category))];
    }
    assert offerings == Renamed(p.offerings);
    r := Some(p.(offerings := offerings));
  }

  /** What the service constructor makes of decoded resources. */
  function NewService(
    cfg: Config, platform: Platform, releases: seq<Named<PlatformRelease>>,
    components: seq<Named<CatalogComponent>>, inventories: seq<Named<Inventory>>): Result<Service>
  {
    match Validated(cfg, platform)
    case None => Err(Refused)
    case Some(p) =>
      if AnyUnnamed(releases) || cfg.files(p).None? || AnyUnnamed(components) then Err(Refused)
      else
        Ok(Service(p, Sorted(WithVersions(releases), Releases.BY_VERSION),
                   cfg.files(p).value + AllWithDefaults(ByName(components)), ByName(inventories)))
  }

  function FromObjects(
    cfg: Config, platforms: seq<Object>, releases: seq<Object>, components: seq<Object>, inventories: seq<Object>)
    : Result<Service>
  {
    match Selected(platforms, cfg.platformName)
    case Err(problem) => Err(problem)
    case Ok(o) =>
      if cfg.platform(o).None? then Err(BadObject(o.name))
      else
        match Decoded(releases, cfg.release)
        case Err(problem) => Err(problem)
        case Ok(rels) =>
          match Decoded(components, cfg.component)
          case Err(problem) => Err(problem)
          case Ok(comps) =>
            match Decoded(inventories, cfg.inventory)
            case Err(problem) => Err(problem)
            case Ok(invs) => NewService(cfg, cfg.platform(o).value, rels, comps, invs)
  }

  /** The lists a build has read: all four, or those up to the first with a foreign item, which ends the build. */
  predicate Complete(lists: seq<seq<Item>>) {
    && 0 < |lists| <= STORES
    && (forall i | 0 <= i < |lists| - 1 :: !AnyForeign(lists[i]))
    && (|lists| == STORES || AnyForeign(lists[|lists| - 1]))
  }

  function BuildResult(cfg: Config, lists: seq<seq<Item>>): Result<Service>
    requires Complete(lists)
  {
    ObjectsExactly(lists[|lists| - 1]);
    if Objects(lists[|lists| - 1]).None? then Err(ForeignItem)
    else
      ObjectsExactly(lists[0]);
      ObjectsExactly(lists[1]);
      ObjectsExactly(lists[2]);
      FromObjects(cfg, Objects(lists[0]).value, Objects(lists[1]).value, Objects(lists[2]).value, Objects(lists[3]).value)
  }

  method ReadObjects(items: seq<Item>) returns (r: Option<seq<Object>>)
    ensures r == Objects(items)
  {
    var objects: seq<Object> := [];
    for i := 0 to |items|
      invariant Objects(items[..i]) == Some(objects)
    {
      assert items[..i + 1][..i] == items[..i];
      if items[i].Foreign? {
        ObjectsExactly(items);
        return None;
      }
      objects := objects + [items[i].obj];
    }
    assert items[..|items|] == items;
    r := Some(objects);
  }

  method IndexByName<T>(entries: seq<Named<T>>) returns (m: map<string, T>)
    ensures m == ByName(entries)
  {
    m := map[];
    for i := 0 to |entries|
      invariant m == ByName(entries[..i])
    {
      assert entries[..i + 1][..i] == entries[..i];
      m := m[entries[i].name := entries[i].value];
    }
    assert entries[..|entries|] == entries;
  }

  method FillVersions(releases: seq<Named<PlatformRelease>>) returns (r: Result<seq<PlatformRelease>>)
    ensures r == if AnyUnnamed(releases) then Err(Refused) else Ok(WithVersions(releases))
  {
    var out: seq<PlatformRelease> := [];
    for i := 0 to |releases|
      invariant out == WithVersions(releases[..i]) && forall j | 0 <= j < i :: releases[j].name != ""
    {
      assert releases[..i + 1][..i] == releases[..i];
      if releases[i].name == "" {
        return Err(Refused);
      }
      out := out + [WithVersion(releases[i])];
    }
    assert releases[..|releases|] == releases;
    r := Ok(out);
  }

  method CreateService(
    cfg: Config, platform: Platform, releases: seq<Named<PlatformRelease>>,
    components: seq<Named<CatalogComponent>>, inventories: seq<Named<Inventory>>) returns (r: Result<Service>)
    ensures r == NewService(cfg, platform, releases, components, inventories)
  {
    hide Sorted, WithVersions, ByName, AllWithDefaults, Validated;
    var valid := ValidatePlatform(cfg, platform);
    if valid.None? {
      return Err(Refused);
    }
    var invs := IndexByName(inventories);
    var filled := FillVersions(releases);
    if filled.Err? {
      return Err(Refused);
    }
    var a := new PlatformRelease[|filled.value|](i requires 0 <= i < |filled.value| => filled.value[i]);
    assert a[..] == filled.value;
    Releases.Sort(a);
    var comps := LoadComponents(cfg.files(valid.value), components);
    if comps.Err? {
      return Err(Refused);
    }
    r := Ok(Service(valid.value, a[..], comps.value, invs));
  }

  /** The definitions from files, with those of objects over them. */
  method LoadComponents(files: Option<map<string, CatalogComponent>>, components: seq<Named<CatalogComponent>>)
    returns (r: Result<map<string, CatalogComponent>>)
    ensures r == if files.None? || AnyUnnamed(components) then Err(Refused)
                 else Ok(files.value + AllWithDefaults(ByName(components)))
  {
    if files.None? {
      return Err(Refused);
    }
    var byName := files.value;
    for i := 0 to |components|
      invariant byName == files.value + AllWithDefaults(ByName(components[..i]))
      invariant forall j | 0 <= j < i :: components[j].name != ""
    {
      hide WithDefaults, AllWithDefaults, ByName;
      if components[i].name == "" {
        return Err(Refused);
      }
      OneMoreOverride(files.value, components[..i], components[i]);
      assert components[..i + 1] == components[..i] + [components[i]];
      byName := byName[components[i].name := WithDefaults(components[i].name, components[i].value)];
    }
    assert components[..|components|] == components;
    r := Ok(byName);
  }

  lemma OneMoreOverride(
    files: map<string, CatalogComponent>, components: seq<Named<CatalogComponent>>, c: Named<CatalogComponent>)
    ensures files + AllWithDefaults(ByName(components + [c])) ==
            (files + AllWithDefaults(ByName(components)))[c.name := WithDefaults(c.name, c.value)]
  {
    hide WithDefaults;
    assert (components + [c])[..|components|] == components;
  }

  method ResourcesFromObjects(
    cfg: Config, platforms: seq<Object>, releases: seq<Object>, components: seq<Object>, inventories: seq<Object>)
    returns (r: Result<Service>)
    ensures r == FromObjects(cfg, platforms, releases, components, inventories)
  {
    hide Selected, Decoded, NewService;
    var selected := SelectPlatform(platforms, cfg.platformName);
    if selected.Err? {
      return Err(selected.problem);
    }
    var platform := cfg.platform(selected.value);
    if platform.None? {
      return Err(BadObject(selected.value.name));
    }
    var rels := DecodeEach(releases, cfg.release);
    if rels.Err? {
      return Err(rels.problem);
    }
    var comps := DecodeEach(components, cfg.component);
    if comps.Err? {
      return Err(comps.problem);
    }
    var invs := DecodeEach(inventories, cfg.inventory);
    if invs.Err? {
      return Err(invs.problem);
    }
    r := CreateService(cfg, platform.value, rels.value, comps.value, invs.value);
  }

  /** What is served has unique environment names, and no offering under a category that has been renamed. */
  lemma ServedPlatformIsValid(
    cfg: Config, platform: Platform, releases: seq<Named<PlatformRelease>>,
    components: seq<Named<CatalogComponent>>, inventories: seq<Named<Inventory>>)
    requires NewService(cfg, platform, releases, components, inventories).Ok?
    ensures
      var served := NewService(cfg, platform, releases, components, inventories).value.platform;
      && UniqueEnvironments(served.environments) && served.environments == platform.environments
      && (forall o | o in served.offerings :: o.category !in LEGACY_CATEGORIES)
      && Renamed(served.offerings) == served.offerings
  {
    hide Sorted, WithVersions, ByName, AllWithDefaults;
  }

  /** Whatever the files define, the served definition of a name is that of its object, if there is one. */
  lemma ObjectsOverrideFiles(
    cfg: Config, platform: Platform, releases: seq<Named<PlatformRelease>>, objects: seq<Object>,
    inventories: seq<Named<Inventory>>, name: string)
    requires UniqueObjects(objects) && Decoded(objects, cfg.component).Ok?
    requires NewService(cfg, platform, releases, Decoded(objects, cfg.component).value, inventories).Ok?
    ensures
      var service := NewService(cfg, platform, releases, Decoded(objects, cfg.component).value, inventories).value;
      var served, files := service.components, cfg.files(service.platform);
      && files.Some?
      && (forall o | o in objects && o.name == name ::
            && cfg.component(o).Some? && name in served
            && served[name] == WithDefaults(name, cfg.component(o).value))
      && ((forall o | o in objects :: o.name != name) ==>
            (name in served <==> name in files.value) && (name in served ==> served[name] == files.value[name]))
  {
    hide WithDefaults, Sorted, WithVersions, Validated;
    ByNameExactly(objects, cfg.component, name);
  }

  // ---------------------------------------------------------------- the order of a store's list does not matter

  /** The same configuration, except that releases of tying versions may come in another order. */
  ghost predicate SameService(a: Service, b: Service) {
    && a.platform == b.platform && a.components == b.components && a.inventories == b.inventories
    && multiset(a.releases) == multiset(b.releases)
    && NewestFirst(a.releases) && NewestFirst(b.releases)
  }

  /** Two lists of the same objects. */
  ghost predicate Relisted(a: seq<Object>, b: seq<Object>) {
    UniqueObjects(a) && UniqueObjects(b) && multiset(a) == multiset(b)
  }

  lemma InEither<T>(a: seq<T>, b: seq<T>, x: T)
    requires multiset(a) == multiset(b)
    ensures x in a <==> x in b
  {
    assert x in multiset(a) <==> x in multiset(b);
  }

  lemma SelectedRelisted(a: seq<Object>, b: seq<Object>, name: string)
    requires Relisted(a, b)
    ensures Selected(a, name).Ok? <==> Selected(b, name).Ok?
    ensures Selected(a, name).Ok? ==> Selected(a, name) == Selected(b, name)
  {
    assert |a| == |multiset(a)| == |multiset(b)| == |b|;
    if Selected(a, name).Ok? {
      var o := Selected(a, name).value;
      SelectedExactly(a, name, o);
      InEither(a, b, o);
      SelectedExactly(b, name, o);
    }
    if Selected(b, name).Ok? {
      var o := Selected(b, name).value;
      SelectedExactly(b, name, o);
      InEither(a, b, o);
      SelectedExactly(a, name, o);
    }
  }

  lemma {:induction false} ByNameExactly<T(!new)>(objects: seq<Object>, decode: Object -> Option<T>, name: string)
    requires Decoded(objects, decode).Ok? && UniqueObjects(objects)
    ensures name in ByName(Decoded(objects, decode).value) <==> exists o | o in objects :: o.name == name
    ensures forall o | o in objects && o.name == name ::
              decode(o).Some? && name in ByName(Decoded(objects, decode).value)
              && ByName(Decoded(objects, decode).value)[name] == decode(o).value
  {
    if objects != [] {
      var rest, last := objects[..|objects| - 1], objects[|objects| - 1];
      assert objects == rest + [last];
      ByNameExactly(rest, decode, name);
      var entries := Decoded(objects, decode).value;
      assert entries[..|entries| - 1] == Decoded(rest, decode).value;
    }
  }

  lemma DecodedRelisted<T(!new)>(a: seq<Object>, b: seq<Object>, decode: Object -> Option<T>)
    requires Relisted(a, b)
    ensures Decoded(a, decode).Ok? <==> Decoded(b, decode).Ok?
    ensures Decoded(a, decode).Ok? ==>
              && ByName(Decoded(a, decode).value) == ByName(Decoded(b, decode).value)
              && (AnyUnnamed(Decoded(a, decode).value) <==> AnyUnnamed(Decoded(b, decode).value))
  {
    DecodedExactly(a, decode);
    DecodedExactly(b, decode);
    forall o ensures o in a <==> o in b {
      InEither(a, b, o);
    }
    if Decoded(a, decode).Ok? {
      var l, r := ByName(Decoded(a, decode).value), ByName(Decoded(b, decode).value);
      forall name ensures (name in l <==> name in r) && (name in l ==> l[name] == r[name]) {
        ByNameExactly(a, decode, name);
        ByNameExactly(b, decode, name);
      }
      assert l == r;
      UnnamedExactly(a, decode);
      UnnamedExactly(b, decode);
    }
  }

  lemma UnnamedExactly<T>(objects: seq<Object>, decode: Object -> Option<T>)
    requires Decoded(objects, decode).Ok?
    ensures AnyUnnamed(Decoded(objects, decode).value) <==> exists o | o in objects :: o.name == ""
  {
    DecodedExactly(objects, decode);
    var entries := Decoded(objects, decode).value;
    if o :| o in objects && o.name == "" {
      var i :| 0 <= i < |objects| && objects[i] == o;
      assert entries[i].name == "";
    }
    if i :| 0 <= i < |entries| && entries[i].name == "" {
      assert objects[i].name == "";
    }
  }

  /** The release an object stands for. */
  function ReleaseOf(o: Object, decode: Object -> Option<PlatformRelease>): PlatformRelease {
    if decode(o).Some? then WithVersion(Named(o.name, decode(o).value))
    else PlatformRelease(o.name, map[], "", "", "", map[], [])
  }

  function ReleasesOf(objects: seq<Object>, decode: Object -> Option<PlatformRelease>): seq<PlatformRelease> {
    if objects == [] then [] else ReleasesOf(objects[..|objects| - 1], decode) + [ReleaseOf(objects[|objects| - 1], decode)]
  }

  lemma {:induction false} WithVersionsDecoded(objects: seq<Object>, decode: Object -> Option<PlatformRelease>)
    requires Decoded(objects, decode).Ok?
    ensures WithVersions(Decoded(objects, decode).value) == ReleasesOf(objects, decode)
  {
    if objects != [] {
      WithVersionsDecoded(objects[..|objects| - 1], decode);
      var entries := Decoded(objects, decode).value;
      assert entries[..|entries| - 1] == Decoded(objects[..|objects| - 1], decode).value;
    }
  }

  lemma {:induction false} ReleasesOfJoined(a: seq<Object>, b: seq<Object>, decode: Object -> Option<PlatformRelease>)
    ensures ReleasesOf(a + b, decode) == ReleasesOf(a, decode) + ReleasesOf(b, decode)
  {
    if b == [] {
      assert a + b == a;
    } else {
      var ab := a + b;
      assert ab[..|ab| - 1] == a + b[..|b| - 1];
      ReleasesOfJoined(a, b[..|b| - 1], decode);
    }
  }

  lemma {:induction false} ReleasesRelisted(a: seq<Object>, b: seq<Object>, decode: Object -> Option<PlatformRelease>)
    requires multiset(a) == multiset(b)
    ensures multiset(ReleasesOf(a, decode)) == multiset(ReleasesOf(b, decode))
  {
    if a == [] {
      assert |b| == |multiset(b)| == 0;
    } else {
      var x, rest := a[|a| - 1], a[..|a| - 1];
      assert a == rest + [x];
      InEither(a, b, x);
      var others := ReleasesWithout(b, x, decode);
      assert multiset(rest) == multiset(a) - multiset{x};
      ReleasesRelisted(rest, others, decode);
    }
  }

  lemma ReleasesWithout(b: seq<Object>, x: Object, decode: Object -> Option<PlatformRelease>) returns (others: seq<Object>)
    requires x in b
    ensures multiset(others) == multiset(b) - multiset{x}
    ensures multiset(ReleasesOf(b, decode)) == multiset(ReleasesOf(others, decode)) + multiset{ReleaseOf(x, decode)}
  {
    var i :| 0 <= i < |b| && b[i] == x;
    var before, after := b[..i], b[i + 1..];
    assert b == before + [x] + after;
    others := before + after;
    ReleasesOfJoined(before, after, decode);
    ReleasesOfJoined(before + [x], after, decode);
    ReleasesOfJoined(before, [x], decode);
    assert ReleasesOf([x], decode) == [ReleaseOf(x, decode)];
  }

  lemma SortedRelisted(a: seq<Object>, b: seq<Object>, decode: Object -> Option<PlatformRelease>)
    requires Relisted(a, b) && Decoded(a, decode).Ok? && Decoded(b, decode).Ok?
    ensures
      var l := Sorted(WithVersions(Decoded(a, decode).value), Releases.BY_VERSION);
      var r := Sorted(WithVersions(Decoded(b, decode).value), Releases.BY_VERSION);
      multiset(l) == multiset(r) && NewestFirst(l) && NewestFirst(r)
  {
    WithVersionsDecoded(a, decode);
    WithVersionsDecoded(b, decode);
    ReleasesRelisted(a, b, decode);
    SortedReleases(ReleasesOf(a, decode));
    SortedReleases(ReleasesOf(b, decode));
  }

  /** Whether a build succeeds, and what it serves, does not depend on the order in which stores list their objects. */
  lemma ObjectOrderIrrelevant(cfg: Config, a: seq<seq<Object>>, b: seq<seq<Object>>)
    requires |a| == |b| == STORES && forall i | 0 <= i < STORES :: Relisted(a[i], b[i])
    ensures
      var l, r := FromObjects(cfg, a[0], a[1], a[2], a[3]), FromObjects(cfg, b[0], b[1], b[2], b[3]);
      (l.Ok? <==> r.Ok?) && (l.Ok? ==> SameService(l.value, r.value))
  {
    hide Selected, Decoded, ByName, AnyUnnamed, WithVersions, Sorted, NewestFirst, Relisted, Validated;
    SelectedRelisted(a[0], b[0], cfg.platformName);
    DecodedRelisted(a[1], b[1], cfg.release);
    DecodedRelisted(a[2], b[2], cfg.component);
    DecodedRelisted(a[3], b[3], cfg.inventory);
    if Decoded(a[1], cfg.release).Ok? {
      SortedRelisted(a[1], b[1], cfg.release);
    }
  }

  /** The objects of two lists of one store. */
  lemma ListedAlike(a: seq<Item>, b: seq<Item>, store: set<Item>)
    requires Lists(a, store) && Lists(b, store) && UniqueNames(store)
    ensures AnyForeign(a) <==> AnyForeign(b)
    ensures Objects(a).Some? <==> Objects(b).Some?
    ensures Objects(a).Some? ==> Relisted(Objects(a).value, Objects(b).value)
  {
    ObjectsExactly(a);
    ObjectsExactly(b);
    ForeignExactly(a, store);
    ForeignExactly(b, store);
    if Objects(a).Some? {
      ObjectsOnce(a, store);
      ObjectsOnce(b, store);
      var l, r := Objects(a).value, Objects(b).value;
      forall o ensures multiset(l)[o] == multiset(r)[o] {
        OnceEach(l, o);
        OnceEach(r, o);
        assert o in l <==> o in r;
      }
    }
  }

  lemma ForeignExactly(items: seq<Item>, store: set<Item>)
    requires Lists(items, store)
    ensures AnyForeign(items) <==> Foreign in store
  {
    if Foreign in store {
      assert Foreign in items;
    }
    if i :| 0 <= i < |items| && items[i].Foreign? {
      assert items[i] in items;
    }
  }

  lemma ObjectsOnce(items: seq<Item>, store: set<Item>)
    requires Lists(items, store) && UniqueNames(store) && Objects(items).Some?
    ensures UniqueObjects(Objects(items).value)
    ensures forall o :: o in Objects(items).value <==> Known(o) in store
  {
    ObjectsExactly(items);
    var objects := Objects(items).value;
    forall i, j | 0 <= i < j < |objects| ensures objects[i].name != objects[j].name {
      assert items[i] in items && items[j] in items && items[i] != items[j];
    }
    forall o ensures o in objects <==> Known(o) in store {
      if o in objects {
        var i :| 0 <= i < |objects| && objects[i] == o;
        assert items[i] == Known(o);
      }
      if Known(o) in store {
        var i :| 0 <= i < |items| && items[i] == Known(o);
        assert objects[i] == o;
      }
    }
  }

  lemma {:induction false} OnceEach(objects: seq<Object>, o: Object)
    requires UniqueObjects(objects)
    ensures multiset(objects)[o] == if o in objects then 1 else 0
  {
    if objects != [] {
      var rest, last := objects[..|objects| - 1], objects[|objects| - 1];
      OnceEach(rest, o);
      assert objects == rest + [last];
      assert forall i | 0 <= i < |rest| :: rest[i].name != last.name;
    }
  }

  /** Two builds that read the same stores, in whatever list order and even if both stopped early, agree. */
  lemma SameStoresSameBuild(cfg: Config, a: seq<seq<Item>>, b: seq<seq<Item>>, stores: seq<set<Item>>)
    requires Complete(a) && Complete(b) && |stores| == STORES
    requires forall i | 0 <= i < STORES :: UniqueNames(stores[i])
    requires forall i | 0 <= i < |a| :: Lists(a[i], stores[i])
    requires forall i | 0 <= i < |b| :: Lists(b[i], stores[i])
    ensures |a| == |b|
    ensures BuildResult(cfg, a).Ok? <==> BuildResult(cfg, b).Ok?
    ensures BuildResult(cfg, a).Ok? ==> SameService(BuildResult(cfg, a).value, BuildResult(cfg, b).value)
  {
    SameLength(a, b, stores);
    hide FromObjects, Objects, AnyForeign, Lists;
    ObjectsExactly(a[|a| - 1]);
    ObjectsExactly(b[|b| - 1]);
    ListedAlike(a[|a| - 1], b[|b| - 1], stores[|a| - 1]);
    if Objects(a[|a| - 1]).Some? {
      var l, r := ObjectLists(a), ObjectLists(b);
      forall i | 0 <= i < STORES ensures Relisted(l[i], r[i]) {
        ListedAlike(a[i], b[i], stores[i]);
      }
      ObjectOrderIrrelevant(cfg, l, r);
    }
  }

  ghost function ObjectLists(lists: seq<seq<Item>>): (objects: seq<seq<Object>>)
    requires |lists| == STORES && forall i | 0 <= i < STORES :: !AnyForeign(lists[i])
    ensures |objects| == STORES && forall i | 0 <= i < STORES :: Objects(lists[i]) == Some(objects[i])
  {
    ObjectsExactly(lists[0]);
    ObjectsExactly(lists[1]);
    ObjectsExactly(lists[2]);
    ObjectsExactly(lists[3]);
    [Objects(lists[0]).value, Objects(lists[1]).value, Objects(lists[2]).value, Objects(lists[3]).value]
  }

  lemma SameLength(a: seq<seq<Item>>, b: seq<seq<Item>>, stores: seq<set<Item>>)
    requires Complete(a) && Complete(b) && |stores| == STORES
    requires forall i | 0 <= i < |a| :: Lists(a[i], stores[i])
    requires forall i | 0 <= i < |b| :: Lists(b[i], stores[i])
    ensures |a| == |b|
  {
    hide AnyForeign, Lists;
    if |a| < |b| {
      ForeignExactly(a[|a| - 1], stores[|a| - 1]);
      ForeignExactly(b[|a| - 1], stores[|a| - 1]);
      assert false;
    }
    if |b| < |a| {
      ForeignExactly(a[|b| - 1], stores[|b| - 1]);
      ForeignExactly(b[|b| - 1], stores[|b| - 1]);
      assert false;
    }
  }

  // ---------------------------------------------------------------- what is served, by what was decoded

  /** The categories of earlier releases under their present name. */
  function CategoryToday(category: string): string {
    if category == "compute" || category == "composition" then "infrastructure" else category
  }

  /** The value that entries give a name: the last one. */
  ghost predicate LastEntry<T(!new)>(entries: seq<Named<T>>, name: string, value: T) {
    exists i: nat :: EntryAt(entries, name, value, i)
  }

  predicate EntryAt<T(==)>(entries: seq<Named<T>>, name: string, value: T, i: nat) {
    i < |entries| && entries[i] == Named(name, value) && forall j | i < j < |entries| :: entries[j].name != name
  }

  lemma {:induction false} LastEntryExactly<T(!new)>(entries: seq<Named<T>>, name: string)
    ensures name in ByName(entries) <==> exists i | 0 <= i < |entries| :: entries[i].name == name
    ensures forall v :: LastEntry(entries, name, v) <==> name in ByName(entries) && ByName(entries)[name] == v
  {
    if entries != [] {
      var rest, last := entries[..|entries| - 1], entries[|entries| - 1];
      LastEntryExactly(rest, name);
      assert entries == rest + [last];
      forall v ensures LastEntry(entries, name, v) <==> name in ByName(entries) && ByName(entries)[name] == v {
        OneMoreEntry(rest, last, name, v);
      }
    }
  }

  lemma OneMoreEntry<T(!new)>(rest: seq<Named<T>>, last: Named<T>, name: string, v: T)
    ensures LastEntry(rest + [last], name, v) <==>
            if last.name == name then last.value == v else LastEntry(rest, name, v)
  {
    var all := rest + [last];
    assert all[|rest|] == last;
    if last.name == name && last.value == v {
      assert EntryAt(all, name, v, |rest|);
    }
    if i: nat :| EntryAt(rest, name, v, i) {
      assert last.name != name ==> EntryAt(all, name, v, i);
    }
    if i: nat :| EntryAt(all, name, v, i) && i < |rest| {
      assert forall j | i < j < |rest| :: rest[j] == all[j];
      assert EntryAt(rest, name, v, i);
    }
  }

  /** When a configuration is served. */
  lemma RefusedExactly(
    cfg: Config, platform: Platform, releases: seq<Named<PlatformRelease>>,
    components: seq<Named<CatalogComponent>>, inventories: seq<Named<Inventory>>)
    ensures
      NewService(cfg, platform, releases, components, inventories).Err? <==>
      || !cfg.accepts(platform)
      || (exists e | e in platform.environments :: !cfg.validEnvironment(e))
      || !UniqueEnvironments(platform.environments)
      || (exists i | 0 <= i < |releases| :: releases[i].name == "")
      || (exists i | 0 <= i < |components| :: components[i].name == "")
      || cfg.files(platform.(offerings := Renamed(platform.offerings))).None?
  {
    hide WithVersions, ByName, AllWithDefaults, Sorted, UniqueEnvironments;
  }

  /** What is served: offerings under the categories of today; the releases, each with a version, newest first; the
      component definitions of the objects, completed, and those of the files for other names; the inventories. */
  lemma ServedExactly(
    cfg: Config, platform: Platform, releases: seq<Named<PlatformRelease>>,
    components: seq<Named<CatalogComponent>>, inventories: seq<Named<Inventory>>, name: string)
    requires NewService(cfg, platform, releases, components, inventories).Ok?
    ensures
      var s := NewService(cfg, platform, releases, components, inventories).value;
      && s.platform.environments == platform.environments && s.platform.description == platform.description
      && |s.platform.offerings| == |platform.offerings|
      && (forall i | 0 <= i < |platform.offerings| ::
            s.platform.offerings[i] ==
            platform.offerings[i].(category := CategoryToday(platform.offerings[i].category)))
      && NewestFirst(s.releases) && multiset(s.releases) == multiset(WithVersions(releases))
      && cfg.files(s.platform).Some?
      && (forall c | LastEntry(components, name, c) ::
            && name in s.components
            && s.components[name] ==
               c.(displayName := if c.displayName == "" then name else c.displayName,
                  category := if c.category == "" then "other" else CategoryToday(c.category)))
      && ((forall c | c in components :: c.name != name) ==>
            (name in s.components <==> name in cfg.files(s.platform).value)
            && (name in s.components ==> s.components[name] == cfg.files(s.platform).value[name]))
      && (forall inv :: LastEntry(inventories, name, inv) <==> name in s.inventories && s.inventories[name] == inv)
  {
    hide WithVersions, ByName, Sorted, UniqueEnvironments, LastEntry, NewestFirst;
    SortedReleases(WithVersions(releases));
    LastEntryExactly(components, name);
    LastEntryExactly(inventories, name);
    if i :| 0 <= i < |components| && components[i].name == name {
      assert components[i] in components;
    }
  }

  /** Each release in turn, under its object's name, and with that for a version if it has none. */
  lemma {:induction false} VersionsFilledIn(releases: seq<Named<PlatformRelease>>)
    ensures |WithVersions(releases)| == |releases|
    ensures forall i | 0 <= i < |releases| ::
              var r := releases[i].value;
              WithVersions(releases)[i] ==
              PlatformRelease(releases[i].name, r.labels, if |r.version| > 0 then r.version else releases[i].name,
                              r.date, r.summary, r.components, r.offerings)
  {
    if releases != [] {
      VersionsFilledIn(releases[..|releases| - 1]);
    }
  }
}
