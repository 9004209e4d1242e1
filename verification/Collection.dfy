/** Gathering what is found under one name, and settling its version (internal/discovery). */
module Collection {
  import opened Discovery
  import opened Iteration
  import opened Model
  import opened Sorting
  import opened Text

  /** A component while its evidence is collected; the collector's map points to it. */
  class Item {
    const name: string
    const displayName: string
    const category: string
    const partOf: string
    const known: bool
    var version: string
    var evidence: seq<Evidence>

    constructor (name: string, displayName: string, category: string, partOf: string, known: bool)
      ensures this.name == name && this.displayName == displayName && this.category == category
      ensures this.partOf == partOf && this.known == known
      ensures evidence == [] && version == ""
    {
      this.name, this.displayName, this.category, this.partOf, this.known := name, displayName, category, partOf, known;
      version, evidence := "", [];
    }

    ghost function Value(): Collected
      reads this
    {
      Collected(displayName, category, partOf, known, evidence)
    }
  }

  datatype Collected = Collected(displayName: string, category: string, partOf: string, known: bool, evidence: seq<Evidence>)

  datatype Discovered = Discovered(component: DiscoveredComponent, evidence: seq<Evidence>)

  class Collector {
    var items: map<string, Item>

    ghost predicate Valid()
      reads this, items.Values
    {
      forall n | n in items :: items[n].name == n
    }

    /** What has been collected: for each name, its first description and all its evidence in order. */
    ghost function Contents(): map<string, Collected>
      reads this, items.Values
    {
      map n | n in items :: items[n].Value()
    }

    constructor ()
      ensures Valid() && Contents() == map[] && fresh(items.Values)
    {
      items := map[];
    }

    /** Adds evidence for a catalog component. */
    method Add(name: string, spec: CatalogComponent, partOf: string, ev: Evidence)
      requires Valid()
      modifies this, items.Values
      ensures Valid() && fresh(items.Values - old(items.Values))
      ensures Contents() == AddedTo(old(Contents()), name, Collected(spec.displayName, spec.category, partOf, true, []), ev)
    {
      if name !in items {
        var dc := new Item(name, spec.displayName, spec.category, partOf, true);
        items := items[name := dc];
      }
      items[name].evidence := items[name].evidence + [ev];
    }

    /** Adds evidence for a component the catalog does not know. */
    method AddUnknown(name: string, display: string, category: string, partOf: string, ev: Evidence)
      requires Valid()
      modifies this, items.Values
      ensures Valid() && fresh(items.Values - old(items.Values))
      ensures Contents() == AddedTo(old(Contents()), name, Collected(display, category, partOf, false, []), ev)
    {
      if name !in items {
        var dc := new Item(name, display, category, partOf, false);
        items := items[name := dc];
      }
      items[name].evidence := items[name].evidence + [ev];
    }

    /** Resolves one component's version, in place, and copies the component out. */
    method Resolve(name: string) returns (d: Discovered)
      requires Valid() && name in items
      modifies items[name]
      ensures Valid() && Contents() == old(Contents())
      ensures IsDiscovered(d, name, Contents())
    {
      hide IsResolved;
      var dc := items[name];
      ghost var contents := Contents();
      dc.version := ResolveVersion(dc.evidence);
      assert forall n | n in items :: items[n].Value() == contents[n];
      d := Discovered(
        DiscoveredComponent(dc.name, dc.displayName, dc.category, dc.version, dc.known, dc.partOf), dc.evidence);
    }

    /** Resolves every version, visiting the components in any order, and lists them by name. */
    method Components() returns (out: seq<Discovered>)
      requires Valid()
      modifies items.Values
      ensures Valid() && Contents() == old(Contents())
      ensures IsListing(out, Contents())
    {
      hide IsResolved, IsDiscovered, IsListing;
      var order := AnyOrder(items.Keys);
      var found: seq<Discovered> := [];
      for i := 0 to |order|
        invariant Valid() && items == old(items) && Contents() == old(Contents())
        invariant |found| == i
        invariant forall j | 0 <= j < i :: IsDiscovered(found[j], order[j], old(Contents()))
      {
        assert order[i] in order;
        var d := Resolve(order[i]);
        found := found + [d];
      }
      out := ByName(found);
      SortedListing(found, order, Contents());
    }
  }

  method ByName(found: seq<Discovered>) returns (out: seq<Discovered>)
    ensures out == Sorted(found, BY_NAME)
  {
    var a := new Discovered[|found|](i requires 0 <= i < |found| => found[i]);
    assert a[..] == found;
    SortInPlace(a, BY_NAME);
    out := a[..];
  }

  function AddedTo(contents: map<string, Collected>, name: string, fresh_: Collected, ev: Evidence)
    : map<string, Collected>
  {
    var c := if name in contents then contents[name] else fresh_;
    contents[name := c.(evidence := c.evidence + [ev])]
  }

  const BY_NAME := (a: Discovered, b: Discovered) => CompareText(b.component.name, a.component.name)

  ghost predicate IsDiscovered(d: Discovered, name: string, contents: map<string, Collected>) {
    && name in contents && d.component.name == name
    && contents[name] ==
       Collected(d.component.displayName, d.component.category, d.component.partOf, d.component.known, d.evidence)
    && IsResolved(d.evidence, d.component.version)
  }

  /** Whether out lists each collected component once, resolved, in strictly increasing name order. */
  ghost predicate IsListing(out: seq<Discovered>, contents: map<string, Collected>) {
    && (forall d | d in out :: IsDiscovered(d, d.component.name, contents))
    && (forall n | n in contents :: exists d | d in out :: d.component.name == n)
    && (forall i, j | 0 <= i < j < |out| :: CompareText(out[i].component.name, out[j].component.name) < 0)
  }

  lemma ByNameIsPreorder()
    ensures TotalPreorder(BY_NAME)
  {
    hide CompareText;
    forall a: Discovered, b: Discovered ensures BY_NAME(a, b) >= 0 <==> BY_NAME(b, a) <= 0 {
      CompareTextAntisymmetric(a.component.name, b.component.name);
    }
    forall a: Discovered, b: Discovered, c: Discovered | BY_NAME(a, b) >= 0 && BY_NAME(b, c) >= 0
      ensures BY_NAME(a, c) >= 0
    {
      CompareTextAntisymmetric(b.component.name, a.component.name);
      CompareTextAntisymmetric(c.component.name, b.component.name);
      CompareTextAntisymmetric(c.component.name, a.component.name);
      CompareTextTransitive(a.component.name, b.component.name, c.component.name);
    }
  }

  function NamesIn(found: seq<Discovered>): (r: seq<string>)
    ensures |r| == |found| && forall i | 0 <= i < |r| :: r[i] == found[i].component.name
  {
    seq(|found|, i requires 0 <= i < |found| => found[i].component.name)
  }

  lemma SortedByName(found: seq<Discovered>)
    ensures
      var out := Sorted(found, BY_NAME);
      && |out| == |found| && (forall d :: d in found <==> d in out)
      && forall i, j | 0 <= i < j < |out| :: CompareText(out[j].component.name, out[i].component.name) >= 0
  {
    hide CompareText;
    ByNameIsPreorder();
    SortedIsStableSort(found, BY_NAME);
    var out := Sorted(found, BY_NAME);
    SameMembers(found, out);
    forall i, j | 0 <= i < j < |out| ensures CompareText(out[j].component.name, out[i].component.name) >= 0 {
      assert BY_NAME(out[i], out[j]) >= 0;
    }
  }

  lemma SortedListing(found: seq<Discovered>, order: seq<string>, contents: map<string, Collected>)
    requires Lists(order, contents.Keys) && |found| == |order|
    requires forall i | 0 <= i < |found| :: IsDiscovered(found[i], order[i], contents)
    ensures IsListing(Sorted(found, BY_NAME), contents)
  {
    hide CompareText, IsResolved, Sorted;
    SortedByName(found);
    assert NamesIn(found) == order;
    NamesSurvive(found, Sorted(found, BY_NAME), contents.Keys);
    ListingOf(found, Sorted(found, BY_NAME), contents);
  }

  lemma ListingOf(found: seq<Discovered>, out: seq<Discovered>, contents: map<string, Collected>)
    requires Lists(NamesIn(out), contents.Keys)
    requires forall d | d in found :: IsDiscovered(d, d.component.name, contents)
    requires forall d :: d in found <==> d in out
    requires forall i, j | 0 <= i < j < |out| :: CompareText(out[j].component.name, out[i].component.name) >= 0
    ensures IsListing(out, contents)
  {
    hide CompareText, IsResolved;
    forall i, j | 0 <= i < j < |out| ensures CompareText(out[i].component.name, out[j].component.name) < 0 {
      assert NamesIn(out)[i] != NamesIn(out)[j];
      CompareTextAntisymmetric(out[i].component.name, out[j].component.name);
    }
    forall n | n in contents ensures exists d | d in out :: d.component.name == n {
      assert n in NamesIn(out);
      var j :| 0 <= j < |out| && NamesIn(out)[j] == n;
      assert out[j].component.name == n;
    }
  }

  /** A permutation names the same components, each once. */
  lemma NamesSurvive(found: seq<Discovered>, out: seq<Discovered>, names: set<string>)
    requires Lists(NamesIn(found), names)
    requires |found| == |out| && forall d :: d in found <==> d in out
    ensures Lists(NamesIn(out), names)
  {
    forall n ensures n in NamesIn(out) <==> n in names {
      if n in names {
        var i :| 0 <= i < |found| && NamesIn(found)[i] == n;
        assert found[i] in out;
        var j :| 0 <= j < |out| && out[j] == found[i];
        assert NamesIn(out)[j] == n;
      }
      if n in NamesIn(out) {
        var j :| 0 <= j < |out| && NamesIn(out)[j] == n;
        assert out[j] in found;
        var i :| 0 <= i < |found| && found[i] == out[j];
        assert NamesIn(found)[i] == n;
      }
    }
    ListsAll(NamesIn(found), names);
    ListsBySize(NamesIn(out), names);
  }

  lemma SameMembers<T(!new)>(a: seq<T>, b: seq<T>)
    requires multiset(a) == multiset(b)
    ensures |a| == |b| && forall x :: x in a <==> x in b
  {
    assert |multiset(a)| == |a| && |multiset(b)| == |b|;
    forall x ensures x in a <==> x in b {
      assert x in multiset(a) <==> x in multiset(b);
    }
  }

  /** A live inventory never repeats a component name. */
  lemma ListingIsUnique(out: seq<Discovered>, contents: map<string, Collected>, components: seq<DiscoveredComponent>)
    requires IsListing(out, contents)
    requires |components| == |out| && forall i | 0 <= i < |out| :: components[i] == out[i].component
    ensures UniqueComponents(components)
  {
    hide IsDiscovered, CompareText;
    forall i, j | 0 <= i < j < |components| ensures components[i].name != components[j].name {
      CompareTextAntisymmetric(components[i].name, components[j].name);
      assert CompareText(out[i].component.name, out[j].component.name) < 0;
    }
  }
}
