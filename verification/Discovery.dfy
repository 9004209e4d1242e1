/** Collecting evidence per component and resolving a version from it (internal/discovery). */
module Discovery {
  import opened Iteration
  import opened Options
  import opened Version

  datatype Evidence = Evidence(source: string, namespace: string, object_: string, detail: string, version: string)

  /** Lower ranks are preferred. A source without a rank, such as an API group, settles nothing. */
  function SourceRank(source: string): Option<int> {
    if source == "kubernetes" then Some(0)
    else if source == "crossplane-package" then Some(1)
    else if source == "image" then Some(2)
    else if source == "helm" then Some(3)
    else None
  }

  /** The rank of evidence that has a ranked source and a parseable version. */
  function RankOf(ev: Evidence): Option<int> {
    if Parses(ev.version) then SourceRank(ev.source) else None
  }

  function Shown(ev: Evidence): string {
    match Parse(ev.version)
    case Some(v) => Display(v)
    case None => ""
  }

  // ---------------------------------------------------------------- what a resolution is

  /** The rank of the most trustworthy usable evidence. */
  function BestRank(evidence: seq<Evidence>): Option<int> {
    if evidence == [] then None
    else
      var rest, last := BestRank(evidence[..|evidence| - 1]), RankOf(evidence[|evidence| - 1]);
      if last.Some? && (rest.None? || last.value < rest.value) then last else rest
  }

  /** How often evidence of a rank shows a version. */
  function Reports(evidence: seq<Evidence>, rank: int, shown: string): nat {
    if evidence == [] then 0
    else
      var last := evidence[|evidence| - 1];
      Reports(evidence[..|evidence| - 1], rank, shown)
      + if RankOf(last) == Some(rank) && Shown(last) == shown then 1 else 0
  }

  /** Whether r may be the version resolved from evidence: nothing when there is no usable evidence, otherwise
      a version reported most often by the best source, with none as frequent comparing higher. */
  ghost predicate IsResolved(evidence: seq<Evidence>, r: string) {
    match BestRank(evidence)
    case None => r == ""
    case Some(best) =>
      && Reports(evidence, best, r) > 0
      && forall v | Reports(evidence, best, v) > 0 ::
           || Reports(evidence, best, v) < Reports(evidence, best, r)
           || (Reports(evidence, best, v) == Reports(evidence, best, r) && CompareStrings(v, r) <= 0)
  }

  // ---------------------------------------------------------------- the one-pass loop

  ghost predicate Counted(counts: map<string, nat>, evidence: seq<Evidence>, best: int) {
    && (forall v :: v in counts <==> Reports(evidence, best, v) > 0)
    && forall v | v in counts :: counts[v] == Reports(evidence, best, v)
  }

  lemma {:induction false} NoBetterReports(evidence: seq<Evidence>, rank: int, shown: string)
    requires BestRank(evidence).None? || rank < BestRank(evidence).value
    ensures Reports(evidence, rank, shown) == 0
  {
    hide RankOf, Shown;
    if evidence != [] {
      NoBetterReports(evidence[..|evidence| - 1], rank, shown);
    }
  }

  function Increment(counts: map<string, nat>, shown: string): map<string, nat> {
    counts[shown := (if shown in counts then counts[shown] else 0) + 1]
  }

  /** One more piece of evidence leaves the counts, increments one, or restarts them. */
  lemma CountedStep(counts: map<string, nat>, evidence: seq<Evidence>, i: nat, best: int)
    requires i < |evidence|
    requires Counted(counts, evidence[..i], best)
    requires BestRank(evidence[..i]) == if best == -1 then None else Some(best)
    ensures
      var rank, shown := RankOf(evidence[i]), Shown(evidence[i]);
      && (rank != Some(best) ==> Counted(counts, evidence[..i + 1], best))
      && (rank == Some(best) ==> Counted(Increment(counts, shown), evidence[..i + 1], best))
      && (rank.Some? && (best == -1 || rank.value < best) ==>
            Counted(Increment(map[], shown), evidence[..i + 1], rank.value))
  {
    hide RankOf, Shown, BestRank;
    var after, rank, shown := evidence[..i + 1], RankOf(evidence[i]), Shown(evidence[i]);
    assert after[..i] == evidence[..i];
    if rank.Some? && (best == -1 || rank.value < best) {
      forall s: string ensures Reports(after, rank.value, s) == if shown == s then 1 else 0 {
        NoBetterReports(evidence[..i], rank.value, s);
      }
    } else {
      forall s: string
        ensures Reports(after, best, s) ==
                Reports(evidence[..i], best, s) + if rank == Some(best) && shown == s then 1 else 0
      {
      }
    }
  }

  /** Counts per version at the best rank, restarting whenever a better source shows up. */
  method CountBest(evidence: seq<Evidence>) returns (best: int, counts: map<string, nat>)
    ensures BestRank(evidence) == if best == -1 then None else Some(best)
    ensures Counted(counts, evidence, best)
  {
    hide SourceRank, Display, Reports, Counted;
    best, counts := -1, map[];
    NothingCounted();
    for i := 0 to |evidence|
      invariant best >= -1
      invariant BestRank(evidence[..i]) == if best == -1 then None else Some(best)
      invariant Counted(counts, evidence[..i], best)
    {
      var ev := evidence[i];
      assert evidence[..i + 1][..i] == evidence[..i];
      RanksAreNatural(ev);
      CountedStep(counts, evidence, i, best);
      var rank := SourceRank(ev.source);
      if rank.None? {
        continue;
      }
      var v := Parse(ev.version);
      if v.None? {
        continue;
      }
      if best == -1 || rank.value < best {
        best, counts := rank.value, map[];
      }
      if rank.value == best {
        counts := Increment(counts, Display(v.value));
      }
    }
    assert evidence[..|evidence|] == evidence;
  }

  lemma NothingCounted()
    ensures Counted(map[], [], -1)
  {
  }

  lemma RanksAreNatural(ev: Evidence)
    ensures SourceRank(ev.source).Some? ==> SourceRank(ev.source).value >= 0
  {
  }

  /** The choice among counted versions, visiting them in a given order. */
  function Choose(order: seq<string>, counts: map<string, nat>): string
    requires forall v | v in order :: v in counts
    ensures Choose(order, counts) == "" || Choose(order, counts) in counts
  {
    if order == [] then ""
    else
      var chosen, v := Choose(order[..|order| - 1], counts), order[|order| - 1];
      if chosen == "" || Preferred(counts, v, chosen) then v else chosen
  }

  predicate Preferred(counts: map<string, nat>, v: string, chosen: string)
    requires v in counts && chosen in counts
  {
    counts[v] > counts[chosen] || (counts[v] == counts[chosen] && CompareStrings(v, chosen) > 0)
  }

  /** Whether nothing counted is preferred over r. */
  ghost predicate IsChoice(counts: map<string, nat>, r: string) {
    r in counts && forall v | v in counts :: !Preferred(counts, v, r)
  }

  lemma NotPreferredTransitive(counts: map<string, nat>, a: string, b: string, c: string)
    requires a in counts && b in counts && c in counts
    requires !Preferred(counts, a, b) && !Preferred(counts, b, c)
    ensures !Preferred(counts, a, c)
  {
    hide CompareStrings;
    if counts[a] == counts[b] == counts[c] {
      CompareStringsTransitive(a, b, c);
    }
  }

  lemma NotPreferredTotal(counts: map<string, nat>, a: string, b: string)
    requires a in counts && b in counts
    ensures !Preferred(counts, a, a) && (Preferred(counts, a, b) ==> !Preferred(counts, b, a))
  {
    hide CompareStrings;
    CompareStringsAntisymmetric(a, a);
    CompareStringsAntisymmetric(a, b);
  }

  /** In any order, the choice is at least as good as everything visited. */
  lemma {:induction false} ChooseIsBest(order: seq<string>, counts: map<string, nat>)
    requires forall v | v in order :: v in counts && v != ""
    ensures
      var chosen := Choose(order, counts);
      if order == [] then chosen == "" else chosen in order && forall v | v in order :: !Preferred(counts, v, chosen)
  {
    if order != [] {
      hide Preferred, Choose;
      var rest, v := order[..|order| - 1], order[|order| - 1];
      assert order == rest + [v];
      ChooseIsBest(rest, counts);
      ChooseMore(rest, v, counts);
      NotPreferredTotal(counts, v, v);
      var before := Choose(rest, counts);
      if before != "" && Preferred(counts, v, before) {
        BetterIsBest(rest, counts, before, v);
      }
    }
  }

  lemma ChooseMore(rest: seq<string>, v: string, counts: map<string, nat>)
    requires v in counts && forall w | w in rest :: w in counts
    ensures
      var before := Choose(rest, counts);
      Choose(rest + [v], counts) == if before == "" || Preferred(counts, v, before) then v else before
  {
    hide Preferred;
    assert (rest + [v])[..|rest|] == rest;
  }

  lemma BetterIsBest(visited: seq<string>, counts: map<string, nat>, chosen: string, v: string)
    requires v in counts && chosen in counts && forall w | w in visited :: w in counts
    requires Preferred(counts, v, chosen) && forall w | w in visited :: !Preferred(counts, w, chosen)
    ensures forall w | w in visited :: !Preferred(counts, w, v)
  {
    hide Preferred;
    NotPreferredTotal(counts, v, chosen);
    forall w | w in visited ensures !Preferred(counts, w, v) {
      NotPreferredTransitive(counts, w, chosen, v);
    }
  }

  /** One pass over the evidence, starting the counts afresh at each better source, then one over the counts. */
  method ResolveVersion(evidence: seq<Evidence>) returns (chosen: string)
    ensures IsResolved(evidence, chosen)
  {
    hide CompareStrings, Reports, BestRank, RankOf, Shown;
    var best, counts := CountBest(evidence);
    ShownNotEmpty(evidence, best);
    chosen := "";
    var order := AnyOrder(counts.Keys);
    for i := 0 to |order|
      invariant chosen == Choose(order[..i], counts)
    {
      var v := order[i];
      assert v in order;
      assert order[..i + 1][..i] == order[..i];
      if chosen == "" || counts[v] > counts[chosen] || (counts[v] == counts[chosen] && CompareStrings(v, chosen) > 0) {
        chosen := v;
      }
    }
    assert order[..|order|] == order;
    ChooseIsBest(order, counts);
    ChoiceResolves(evidence, best, counts, order, chosen);
  }

  lemma {:induction false} ShownNotEmpty(evidence: seq<Evidence>, rank: int)
    ensures Reports(evidence, rank, "") == 0
  {
    if evidence != [] {
      ShownNotEmpty(evidence[..|evidence| - 1], rank);
      var last := evidence[|evidence| - 1];
      if Parses(last.version) {
        ParsedIsFromText(last.version);
        CoreTextEnds(Parse(last.version).value);
      }
    }
  }

  lemma ChoiceResolves(evidence: seq<Evidence>, best: int, counts: map<string, nat>, order: seq<string>, chosen: string)
    requires BestRank(evidence) == if best == -1 then None else Some(best)
    requires Counted(counts, evidence, best) && Lists(order, counts.Keys)
    requires if order == [] then chosen == ""
             else chosen in counts && forall v | v in order :: !Preferred(counts, v, chosen)
    ensures IsResolved(evidence, chosen)
  {
    hide CompareStrings, RankOf, Shown;
    if best == -1 {
      if v :| v in counts {
        NoBetterReports(evidence, best, v);
      }
    } else {
      var v := SomeReport(evidence, best);
      assert v in order;
    }
  }

  /** The best rank is the rank of some usable evidence, whose version is reported. */
  lemma {:induction false} SomeReport(evidence: seq<Evidence>, best: int) returns (shown: string)
    requires BestRank(evidence) == Some(best)
    ensures Reports(evidence, best, shown) > 0
  {
    hide RankOf, Shown;
    var rest, last := evidence[..|evidence| - 1], evidence[|evidence| - 1];
    if RankOf(last) == Some(best) {
      shown := Shown(last);
    } else {
      shown := SomeReport(rest, best);
    }
  }

  // ---------------------------------------------------------------- what resolution promises

  /** Nothing is resolved exactly when no evidence has a ranked source and a parseable version. */
  lemma ResolvedToNothingExactly(evidence: seq<Evidence>, r: string)
    requires IsResolved(evidence, r)
    ensures r == "" <==> forall ev | ev in evidence :: RankOf(ev).None?
  {
    hide RankOf, CompareStrings;
    BestRankMeans(evidence);
    if BestRank(evidence).Some? {
      ShownNotEmpty(evidence, BestRank(evidence).value);
    }
  }

  /** The best rank is the least rank of usable evidence. */
  lemma {:induction false} BestRankMeans(evidence: seq<Evidence>)
    ensures BestRank(evidence).None? <==> forall ev | ev in evidence :: RankOf(ev).None?
    ensures BestRank(evidence).Some? ==>
              && (exists ev | ev in evidence :: RankOf(ev) == BestRank(evidence))
              && forall ev | ev in evidence && RankOf(ev).Some? :: BestRank(evidence).value <= RankOf(ev).value
  {
    hide RankOf;
    if evidence != [] {
      BestRankMeans(evidence[..|evidence| - 1]);
      assert evidence == evidence[..|evidence| - 1] + [evidence[|evidence| - 1]];
    }
  }

  /** What is resolved is the display form of a version that the best source reported. */
  lemma {:induction false} ResolvedWasReported(evidence: seq<Evidence>, rank: int, r: string)
    requires Reports(evidence, rank, r) > 0
    ensures exists ev | ev in evidence :: RankOf(ev) == Some(rank) && Shown(ev) == r
  {
    hide RankOf, Shown;
    var rest, last := evidence[..|evidence| - 1], evidence[|evidence| - 1];
    if !(RankOf(last) == Some(rank) && Shown(last) == r) {
      ResolvedWasReported(rest, rank, r);
    }
  }

  lemma {:induction false} ReportsOfConcat(a: seq<Evidence>, b: seq<Evidence>, rank: int, shown: string)
    ensures Reports(a + b, rank, shown) == Reports(a, rank, shown) + Reports(b, rank, shown)
  {
    hide RankOf, Shown;
    if b == [] {
      assert a + b == a;
    } else {
      assert (a + b)[..|a + b| - 1] == a + b[..|b| - 1];
      ReportsOfConcat(a, b[..|b| - 1], rank, shown);
    }
  }

  /** Counting does not depend on the order of the evidence. */
  lemma {:induction false} ReportsPermute(a: seq<Evidence>, b: seq<Evidence>, rank: int, shown: string)
    requires multiset(a) == multiset(b)
    ensures Reports(a, rank, shown) == Reports(b, rank, shown)
  {
    hide RankOf, Shown;
    assert |multiset(a)| == |a| && |multiset(b)| == |b|;
    if a != [] {
      var rest, last := a[..|a| - 1], a[|a| - 1];
      assert a == rest + [last];
      assert last in multiset(b);
      var others := ReportsWithout(b, last, rank, shown);
      assert multiset(rest) == multiset(a) - multiset{last};
      ReportsPermute(rest, others, rank, shown);
      ReportsOfConcat(rest, [last], rank, shown);
    }
  }

  lemma ReportsWithout(b: seq<Evidence>, ev: Evidence, rank: int, shown: string) returns (others: seq<Evidence>)
    requires ev in b
    ensures multiset(others) == multiset(b) - multiset{ev}
    ensures Reports(b, rank, shown) == Reports(others, rank, shown) + Reports([ev], rank, shown)
  {
    hide Reports;
    var k :| 0 <= k < |b| && b[k] == ev;
    var before, after := b[..k], b[k + 1..];
    assert b == before + [ev] + after;
    others := before + after;
    ReportsOfConcat(before, after, rank, shown);
    ReportsOfConcat(before + [ev], after, rank, shown);
    ReportsOfConcat(before, [ev], rank, shown);
  }

  /** Resolution is invariant under permuting the evidence. */
  lemma ResolutionIgnoresOrder(a: seq<Evidence>, b: seq<Evidence>, r: string)
    requires multiset(a) == multiset(b)
    ensures IsResolved(a, r) <==> IsResolved(b, r)
  {
    hide RankOf, CompareStrings, Reports;
    BestRankMeans(a);
    BestRankMeans(b);
    forall ev ensures ev in a <==> ev in b {
      assert ev in multiset(a) <==> ev in multiset(b);
    }
    assert BestRank(a) == BestRank(b);
    if BestRank(a).Some? {
      forall v ensures Reports(a, BestRank(a).value, v) == Reports(b, BestRank(a).value, v) {
        ReportsPermute(a, b, BestRank(a).value, v);
      }
    }
  }

  /** Two possible results are equally frequent and tie in the order; otherwise the result is unique. */
  lemma ResolutionsTie(evidence: seq<Evidence>, r: string, s: string)
    requires IsResolved(evidence, r) && IsResolved(evidence, s)
    ensures r == s
            || (&& BestRank(evidence).Some?
                && Reports(evidence, BestRank(evidence).value, r) == Reports(evidence, BestRank(evidence).value, s)
                && CompareStrings(r, s) == 0)
  {
    hide CompareStrings, Reports, BestRank;
    CompareStringsAntisymmetric(r, s);
  }

  lemma {:induction false} ChoiceStays(order: seq<string>, counts: map<string, nat>, r: string)
    requires forall v | v in order :: v in counts
    requires r != "" && IsChoice(counts, r) && order != [] && order[0] == r
    ensures Choose(order, counts) == r
  {
    hide Preferred;
    if |order| > 1 {
      ChoiceStays(order[..|order| - 1], counts, r);
    }
  }

  /** Every possible result does come out, for some order of the map: visit it first. */
  lemma EveryResolutionIsReachable(evidence: seq<Evidence>, counts: map<string, nat>, best: int, r: string)
    returns (order: seq<string>)
    requires BestRank(evidence) == Some(best) && Counted(counts, evidence, best)
    requires IsResolved(evidence, r)
    ensures Lists(order, counts.Keys) && Choose(order, counts) == r
  {
    hide CompareStrings, Reports, BestRank;
    ShownNotEmpty(evidence, best);
    var rest := SomeOrder(counts.Keys - {r});
    order := [r] + rest;
    ChoiceStays(order, counts, r);
  }

  // ---------------------------------------------------------------- by the names of the sources

  /** Whether a source reported a version that parses. */
  predicate Speaks(evidence: seq<Evidence>, source: string) {
    exists i | 0 <= i < |evidence| :: evidence[i].source == source && Parses(evidence[i].version)
  }

  predicate ShowsAt(evidence: seq<Evidence>, source: string, shown: string, i: nat) {
    && i < |evidence| && evidence[i].source == source
    && Parses(evidence[i].version) && Display(Parse(evidence[i].version).value) == shown
  }

  /** How many pieces of evidence of a source show a version. */
  function Times(evidence: seq<Evidence>, source: string, shown: string): nat {
    |set i | 0 <= i < |evidence| && ShowsAt(evidence, source, shown, i)|
  }

  /** Whether a source shows r, no version more often, and none as often that is higher. */
  ghost predicate Favours(evidence: seq<Evidence>, source: string, r: string) {
    && Times(evidence, source, r) > 0
    && forall v | Times(evidence, source, v) > 0 ::
         || Times(evidence, source, v) < Times(evidence, source, r)
         || (Times(evidence, source, v) == Times(evidence, source, r) && CompareStrings(v, r) <= 0)
  }

  /** The API server is asked first, then packages, then images, then charts; any other source settles nothing. */
  lemma ResolvedBySource(evidence: seq<Evidence>, r: string)
    ensures IsResolved(evidence, r) <==>
            if Speaks(evidence, "kubernetes") then Favours(evidence, "kubernetes", r)
            else if Speaks(evidence, "crossplane-package") then Favours(evidence, "crossplane-package", r)
            else if Speaks(evidence, "image") then Favours(evidence, "image", r)
            else if Speaks(evidence, "helm") then Favours(evidence, "helm", r)
            else r == ""
  {
    hide Parse, Display, CompareStrings, Reports, BestRank, Times, Speaks, Favours;
    BestSource(evidence);
    if BestRank(evidence) == Some(0) {
      FavouredExactly(evidence, "kubernetes", r);
    } else if BestRank(evidence) == Some(1) {
      FavouredExactly(evidence, "crossplane-package", r);
    } else if BestRank(evidence) == Some(2) {
      FavouredExactly(evidence, "image", r);
    } else if BestRank(evidence) == Some(3) {
      FavouredExactly(evidence, "helm", r);
    }
  }

  lemma FavouredExactly(evidence: seq<Evidence>, source: string, r: string)
    requires BestRank(evidence).Some? && SourceRank(source) == BestRank(evidence)
    ensures IsResolved(evidence, r) <==> Favours(evidence, source, r)
  {
    hide Parse, Display, CompareStrings, Reports, BestRank, Times, SourceRank;
    forall v ensures Reports(evidence, BestRank(evidence).value, v) == Times(evidence, source, v) {
      ReportsAreTimes(evidence, source, v);
    }
  }

  lemma BestSource(evidence: seq<Evidence>)
    ensures BestRank(evidence) ==
            if Speaks(evidence, "kubernetes") then Some(0)
            else if Speaks(evidence, "crossplane-package") then Some(1)
            else if Speaks(evidence, "image") then Some(2)
            else if Speaks(evidence, "helm") then Some(3)
            else None
  {
    hide Parse, BestRank;
    BestRankMeans(evidence);
    forall i | 0 <= i < |evidence|
      ensures evidence[i] in evidence
      ensures RankOf(evidence[i]).Some? ==> BestRank(evidence).Some? && BestRank(evidence).value <= RankOf(evidence[i]).value
    {
    }
    if BestRank(evidence).Some? {
      var ev :| ev in evidence && RankOf(ev) == BestRank(evidence);
      var i :| 0 <= i < |evidence| && evidence[i] == ev;
    }
  }

  lemma {:induction false} ReportsAreTimes(evidence: seq<Evidence>, source: string, shown: string)
    requires SourceRank(source).Some?
    ensures Reports(evidence, SourceRank(source).value, shown) == Times(evidence, source, shown)
  {
    hide Parse, Display, SourceRank, ShowsAt;
    if evidence != [] {
      ReportsAreTimes(evidence[..|evidence| - 1], source, shown);
      TimesMore(evidence, source, shown);
      ShowsExactly(evidence, source, shown, |evidence| - 1);
    }
  }

  lemma ShowsExactly(evidence: seq<Evidence>, source: string, shown: string, i: nat)
    requires SourceRank(source).Some? && i < |evidence|
    ensures ShowsAt(evidence, source, shown, i) <==>
            RankOf(evidence[i]) == SourceRank(source) && Shown(evidence[i]) == shown
  {
    hide Parse, Display;
    SameRankSameSource(evidence[i].source, source);
  }

  lemma TimesMore(evidence: seq<Evidence>, source: string, shown: string)
    requires evidence != []
    ensures
      Times(evidence, source, shown) ==
      Times(evidence[..|evidence| - 1], source, shown) + if ShowsAt(evidence, source, shown, |evidence| - 1) then 1 else 0
  {
    hide Parse, Display;
    var rest, last := evidence[..|evidence| - 1], |evidence| - 1;
    var before := set i | 0 <= i < |rest| && ShowsAt(rest, source, shown, i);
    assert forall i | 0 <= i < |rest| :: ShowsAt(evidence, source, shown, i) <==> ShowsAt(rest, source, shown, i);
    assert (set i | 0 <= i < |evidence| && ShowsAt(evidence, source, shown, i))
        == if ShowsAt(evidence, source, shown, last) then before + {last} else before;
  }

  lemma SameRankSameSource(a: string, b: string)
    requires SourceRank(b).Some?
    ensures SourceRank(a) == SourceRank(b) <==> a == b
  {
  }
}
