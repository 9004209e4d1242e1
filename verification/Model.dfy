/** The documents and records the analysis works on (internal/api), without the fields that are only displayed. */
module Model {
  import opened Options

  datatype DiscoveredComponent = DiscoveredComponent(
    name: string, displayName: string, category: string, version: string, known: bool, partOf: string)

  datatype Inventory = Inventory(components: seq<DiscoveredComponent>, clusterVersion: string, errors: seq<string>)

  datatype Offering = Offering(name: string, displayName: string, category: string, status: string)

  datatype Environment = Environment(name: string, tier: string, targetRelease: string)

  /** A platform's value; the draft code works on platform objects and their environment arrays. */
  datatype Platform = Platform(description: string, offerings: seq<Offering>, environments: seq<Environment>)

  datatype PlatformRelease = PlatformRelease(
    name: string, labels: map<string, string>, version: string, date: string, summary: string,
    components: map<string, string>, offerings: seq<string>)

  datatype CatalogComponent = CatalogComponent(displayName: string, category: string, upstream: Option<UpstreamSource>)

  datatype UpstreamSource = UpstreamSource(
    github: string, tagPrefix: string, includePrereleases: bool, supportedMinors: int)

  /** Catalog.Get: an arbitrary fixed lookup. */
  type Catalog = string -> Option<CatalogComponent>

  datatype UpstreamRelease = UpstreamRelease(version: string, tag: string, prerelease: bool, publishedAt: int)

  /** validatePlatform refuses a repeated environment name. */
  predicate UniqueEnvironments(environments: seq<Environment>) {
    forall i, j | 0 <= i < j < |environments| :: environments[i].name != environments[j].name
  }

  /** Live inventories come from a map keyed by name, so no name repeats. */
  ghost predicate UniqueComponents(components: seq<DiscoveredComponent>) {
    forall i, j | 0 <= i < j < |components| :: components[i].name != components[j].name
  }
}
