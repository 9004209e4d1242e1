/** When a build, which reads the four stores one after the other, reads what they held at one time. */
module Snapshots {
  import opened Iteration
  import opened Operator
  import opened Resources

  /** The stores at the end of a run depend on its changes alone. */
  function StoresAfter(stores: seq<set<Item>>, actions: seq<Action>): seq<set<Item>> {
    if actions == [] then stores
    else
      var before, a := StoresAfter(stores, actions[..|actions| - 1]), actions[|actions| - 1];
      if a.Change? && a.store < |before| then before[a.store := a.items] else before
  }

  lemma {:induction false} RunStores(cfg: Config, s: State, actions: seq<Action>)
    requires Shape(s) && Possible(cfg, s, actions)
    ensures Run(cfg, s, actions).stores == StoresAfter(s.stores, actions)
  {
    if actions != [] {
      hide BuildResult, AnyForeign, Partial;
      RunStores(cfg, s, actions[..|actions| - 1]);
    }
  }

  /** A store that is never again what it was until its only change. */
  lemma {:induction false} OneChange(stores: seq<set<Item>>, actions: seq<Action>, i: nat, at: nat)
    requires i < |stores| && at < |actions|
    requires forall k | 0 <= k < |actions| && k != at :: !actions[k].Change? || actions[k].store != i
    requires actions[at].Change? && actions[at].store == i
    ensures forall k | 0 <= k <= |actions| ::
              var now := StoresAfter(stores, actions[..k]);
              |now| == |stores| && now[i] == if k <= at then stores[i] else actions[at].items
  {
    forall k | 0 <= k <= |actions|
      ensures
        var now := StoresAfter(stores, actions[..k]);
        |now| == |stores| && now[i] == if k <= at then stores[i] else actions[at].items
    {
      OneChangeUpTo(stores, actions, i, at, k);
    }
  }

  lemma {:induction false} OneChangeUpTo(stores: seq<set<Item>>, actions: seq<Action>, i: nat, at: nat, k: nat)
    requires i < |stores| && at < |actions| && k <= |actions|
    requires forall j | 0 <= j < |actions| && j != at :: !actions[j].Change? || actions[j].store != i
    requires actions[at].Change? && actions[at].store == i
    ensures
      var now := StoresAfter(stores, actions[..k]);
      |now| == |stores| && now[i] == if k <= at then stores[i] else actions[at].items
  {
    if k > 0 {
      assert actions[..k][..k - 1] == actions[..k - 1];
      OneChangeUpTo(stores, actions, i, at, k - 1);
    }
  }

  predicate NoneForeign(lists: seq<seq<Item>>) {
    forall i | 0 <= i < |lists| :: !AnyForeign(lists[i])
  }

  lemma ReadsNext(cfg: Config, s: State, before: seq<Action>, lists: seq<seq<Item>>, list: seq<Item>)
    requires Shape(s) && Possible(cfg, s, before) && Run(cfg, s, before).loop == Building(lists)
    requires |lists| < STORES && NoneForeign(lists) && !AnyForeign(list)
    requires Lists(list, Run(cfg, s, before).stores[|lists|])
    ensures Possible(cfg, s, before + [Read(list)]) && NoneForeign(lists + [list])
    ensures Run(cfg, s, before + [Read(list)]) == Run(cfg, s, before).(loop := Building(lists + [list]))
  {
    hide Possible, Run, Lists, AnyForeign;
    RunExtends(cfg, s, before, Read(list));
  }

  lemma Changes(cfg: Config, s: State, before: seq<Action>, i: nat, item: Item)
    requires Shape(s) && Possible(cfg, s, before) && i < STORES
    ensures Possible(cfg, s, before + [Change(i, {item})])
    ensures
      var was, now := Run(cfg, s, before), Run(cfg, s, before + [Change(i, {item})]);
      now.stores == was.stores[i := {item}] && now.loop == was.loop && now.builds == was.builds
  {
    hide Possible, Run;
    RunExtends(cfg, s, before, Change(i, {item}));
  }

  /** A build reads the stores at different times: what it reads may never have been there together.
      Here store 0 is read before it changes, and store 1 after it has changed too. */
  lemma TornBuild(cfg: Config, s: State, o0: Item, n0: Item, o1: Item, n1: Item) returns (actions: seq<Action>)
    requires Init(s) && s.stores == [{o0}, {o1}, {}, {}]
    requires o0.Known? && n0.Known? && n1.Known? && o0 != n0 && o1 != n1
    ensures Possible(cfg, s, actions) && !Run(cfg, s, actions).loop.Building?
    ensures Run(cfg, s, actions).builds == [[[o0], [n1], [], []]]
    ensures forall k | 0 <= k <= |actions| ::
              var stores := StoresAfter(s.stores, actions[..k]);
              |stores| == STORES && !(stores[0] == {o0} && stores[1] == {n1})
  {
    var changes := [Read([o0]), Change(0, {n0}), Change(1, {n1})];
    actions := changes + [Read([n1])] + [Read([])] + [Read([])] + [Finish];
    TornReads(cfg, s, o0, n0, n1, changes);
    hide StoresAfter, Run, Possible;
    OneChange(s.stores, actions, 0, 1);
    OneChange(s.stores, actions, 1, 2);
  }

  lemma TornReads(cfg: Config, s: State, o0: Item, n0: Item, n1: Item, changes: seq<Action>)
    requires Init(s) && s.stores[0] == {o0} && s.stores[2] == {} && s.stores[3] == {}
    requires o0.Known? && n0.Known? && n1.Known?
    requires changes == [Read([o0]), Change(0, {n0}), Change(1, {n1})]
    ensures
      var actions := changes + [Read([n1])] + [Read([])] + [Read([])] + [Finish];
      && Possible(cfg, s, actions) && Run(cfg, s, actions).loop == Idle
      && Run(cfg, s, actions).builds == [[[o0], [n1], [], []]]
  {
    RunEmpty(cfg, s);
    hide Run, Possible, BuildResult;
    var first, second := [Read([o0])], [Read([o0]), Change(0, {n0})];
    assert first == [] + [Read([o0])] && second == first + [Change(0, {n0})] && changes == second + [Change(1, {n1})];
    ReadsNext(cfg, s, [], [], [o0]);
    Changes(cfg, s, first, 0, n0);
    Changes(cfg, s, second, 1, n1);
    assert [] + [[o0]] == [[o0]];
    TornRest(cfg, s, o0, n1, changes);
  }

  lemma TornRest(cfg: Config, s: State, o0: Item, n1: Item, changes: seq<Action>)
    requires Shape(s) && Possible(cfg, s, changes) && Run(cfg, s, changes).loop == Building([[o0]])
    requires Run(cfg, s, changes).stores[1..] == [{n1}, {}, {}] && Run(cfg, s, changes).builds == []
    requires o0.Known? && n1.Known?
    ensures
      var actions := changes + [Read([n1])] + [Read([])] + [Read([])] + [Finish];
      && Possible(cfg, s, actions) && Run(cfg, s, actions).loop == Idle
      && Run(cfg, s, actions).builds == [[[o0], [n1], [], []]]
  {
    hide Run, Possible, BuildResult;
    var now := Run(cfg, s, changes);
    assert now.stores[1] == now.stores[1..][0] && now.stores[2] == now.stores[1..][1] && now.stores[3] == now.stores[1..][2];
    ReadsNext(cfg, s, changes, [[o0]], [n1]);
    assert [[o0]] + [[n1]] == [[o0], [n1]];
    ReadsNext(cfg, s, changes + [Read([n1])], [[o0], [n1]], []);
    assert [[o0], [n1]] + [[]] == [[o0], [n1], []];
    ReadsNext(cfg, s, changes + [Read([n1])] + [Read([])], [[o0], [n1], []], []);
    assert [[o0], [n1], []] + [[]] == [[o0], [n1], [], []];
    RunExtends(cfg, s, changes + [Read([n1])] + [Read([])] + [Read([])], Finish);
    assert now.builds + [[[o0], [n1], [], []]] == [[[o0], [n1], [], []]];
  }

  lemma RunEmpty(cfg: Config, s: State)
    requires Shape(s)
    ensures Possible(cfg, s, []) && Run(cfg, s, []) == s
  {
  }

  // ---------------------------------------------------------------- when a build reads a snapshot

  function Reads(actions: seq<Action>): nat {
    if actions == [] then 0
    else Reads(actions[..|actions| - 1]) + if actions[|actions| - 1].Read? then 1 else 0
  }

  lemma {:induction false} ReadsGrow(actions: seq<Action>, a: nat, b: nat)
    requires a <= b <= |actions|
    ensures Reads(actions[..a]) <= Reads(actions[..b])
    ensures a < b && actions[a].Read? ==> Reads(actions[..a]) < Reads(actions[..b])
  {
    if a < b {
      assert actions[..b][..b - 1] == actions[..b - 1];
      ReadsGrow(actions, a, b - 1);
    }
  }

  /** A change to a store that the build has read. */
  predicate ChangesRead(actions: seq<Action>, p: nat)
    requires p < |actions|
  {
    actions[p].Change? && actions[p].store < Reads(actions[..p])
  }

  /** A change to a store that the build will read, the n-th store being the first it leaves out. */
  predicate ChangesUnread(actions: seq<Action>, n: nat, q: nat)
    requires q < |actions|
  {
    actions[q].Change? && Reads(actions[..q]) <= actions[q].store < n
  }

  /** A store that has been read changes, and later one that has still to be read. */
  predicate Tears(actions: seq<Action>, n: nat) {
    exists p, q | 0 <= p < q < |actions| :: ChangesRead(actions, p) && ChangesUnread(actions, n, q)
  }

  /** The lists are lists of these stores. */
  ghost predicate Listed(lists: seq<seq<Item>>, stores: seq<set<Item>>) {
    |lists| <= |stores| && forall i | 0 <= i < |lists| :: Lists(lists[i], stores[i])
  }

  /** At some time between these actions, all lists were lists of their stores. */
  ghost predicate ReadsSnapshot(lists: seq<seq<Item>>, stores: seq<set<Item>>, actions: seq<Action>) {
    exists k | 0 <= k <= |actions| :: Listed(lists, StoresAfter(stores, actions[..k]))
  }

  function Content(stores: seq<set<Item>>, actions: seq<Action>, k: nat, i: nat): set<Item>
    requires k <= |actions|
  {
    var now := StoresAfter(stores, actions[..k]);
    if i < |now| then now[i] else {}
  }

  /** A store that has changed never again holds what it held before. */
  ghost predicate NeverRecurs(stores: seq<set<Item>>, actions: seq<Action>) {
    forall a, p, b | 0 <= a <= p < b <= |actions| && actions[p].Change? && actions[p].store < |stores| ::
      Content(stores, actions, a, actions[p].store) != Content(stores, actions, b, actions[p].store)
  }

  lemma {:induction false} StoresKeepLength(stores: seq<set<Item>>, actions: seq<Action>)
    ensures |StoresAfter(stores, actions)| == |stores|
  {
    if actions != [] {
      StoresKeepLength(stores, actions[..|actions| - 1]);
    }
  }

  lemma {:induction false} Steady(stores: seq<set<Item>>, actions: seq<Action>, i: nat, a: nat, b: nat)
    requires a <= b <= |actions|
    requires forall x | a <= x < b :: !(actions[x].Change? && actions[x].store == i)
    ensures Content(stores, actions, a, i) == Content(stores, actions, b, i)
  {
    if a < b {
      assert actions[..b][..b - 1] == actions[..b - 1];
      Steady(stores, actions, i, a, b - 1);
    }
  }

  lemma {:induction false} PrefixPossible(cfg: Config, s: State, actions: seq<Action>, k: nat)
    requires Shape(s) && Possible(cfg, s, actions) && k <= |actions|
    ensures Possible(cfg, s, actions[..k])
  {
    hide Enabled, Run;
    if k == |actions| {
      assert actions[..k] == actions;
    } else {
      var rest := actions[..|actions| - 1];
      assert rest[..k] == actions[..k];
      PrefixPossible(cfg, s, rest, k);
    }
  }

  /** The actions of one build: it begins with nothing read, and is not finished yet. */
  ghost predicate OneBuild(cfg: Config, s: State, actions: seq<Action>) {
    && Shape(s) && s.loop == Building([]) && Possible(cfg, s, actions)
    && forall x | 0 <= x < |actions| :: !actions[x].Finish?
  }

  lemma OneBuildSoFar(cfg: Config, s: State, actions: seq<Action>, k: nat)
    requires OneBuild(cfg, s, actions) && k <= |actions|
    ensures OneBuild(cfg, s, actions[..k])
  {
    PrefixPossible(cfg, s, actions, k);
  }

  lemma {:induction false} CountsReads(cfg: Config, s: State, actions: seq<Action>)
    requires OneBuild(cfg, s, actions)
    ensures Run(cfg, s, actions).loop.Building? && |Run(cfg, s, actions).loop.lists| == Reads(actions)
  {
    if actions != [] {
      hide AnyForeign, BuildResult, Lists;
      OneBuildSoFar(cfg, s, actions, |actions| - 1);
      CountsReads(cfg, s, actions[..|actions| - 1]);
    }
  }

  /** Each list was taken when its store held what it lists. */
  lemma {:induction false} ReadAt(cfg: Config, s: State, actions: seq<Action>, i: nat) returns (r: nat)
    requires OneBuild(cfg, s, actions) && Run(cfg, s, actions).loop.Building?
    requires i < |Run(cfg, s, actions).loop.lists|
    ensures r < |actions| && actions[r].Read? && Reads(actions[..r]) == i
    ensures i < STORES && Lists(Run(cfg, s, actions).loop.lists[i], Content(s.stores, actions, r, i))
  {
    hide AnyForeign, BuildResult, Lists, UniqueNames;
    var last := |actions| - 1;
    var rest := actions[..last];
    OneBuildSoFar(cfg, s, actions, last);
    CountsReads(cfg, s, rest);
    var before := Run(cfg, s, rest);
    if i < |before.loop.lists| {
      r := ReadAt(cfg, s, rest, i);
      assert rest[..r] == actions[..r];
    } else {
      r := last;
      RunStores(cfg, s, rest);
    }
  }

  /** The first change to a store that has been read, if any. */
  lemma FirstChangeOfRead(actions: seq<Action>) returns (k: nat)
    ensures k <= |actions| && (k < |actions| ==> ChangesRead(actions, k))
    ensures forall x | 0 <= x < k :: !ChangesRead(actions, x)
  {
    k := 0;
    while k < |actions| && !ChangesRead(actions, k)
      invariant k <= |actions| && forall x | 0 <= x < k :: !ChangesRead(actions, x)
    {
      k := k + 1;
    }
  }

  /** Up to the first change of a read store, and with no change of an unread one after it, a store holds at k
      what it holds when it is read. */
  lemma SteadyToRead(stores: seq<set<Item>>, actions: seq<Action>, n: nat, k: nat, i: nat, r: nat)
    requires !Tears(actions, n) && k <= |actions| && (k < |actions| ==> ChangesRead(actions, k))
    requires forall x | 0 <= x < k :: !ChangesRead(actions, x)
    requires i < n && r < |actions| && actions[r].Read? && Reads(actions[..r]) == i
    ensures Content(stores, actions, r, i) == Content(stores, actions, k, i)
  {
    if r < k {
      forall x | r <= x < k ensures !(actions[x].Change? && actions[x].store == i) {
        ReadsGrow(actions, r, x);
        assert !ChangesRead(actions, x);
      }
      Steady(stores, actions, i, r, k);
    } else {
      forall x | k <= x < r ensures !(actions[x].Change? && actions[x].store == i) {
        ReadsGrow(actions, x, r);
        assert x == k || !ChangesUnread(actions, n, x);
      }
      Steady(stores, actions, i, k, r);
    }
  }

  /** A build that no such pair of changes tears has read what the stores held at one time. */
  lemma UntornIsSnapshot(cfg: Config, s: State, actions: seq<Action>)
    requires OneBuild(cfg, s, actions) && Run(cfg, s, actions).loop.Building?
    requires !Tears(actions, |Run(cfg, s, actions).loop.lists|)
    ensures ReadsSnapshot(Run(cfg, s, actions).loop.lists, s.stores, actions)
  {
    var lists := Run(cfg, s, actions).loop.lists;
    var k := FirstChangeOfRead(actions);
    StoresKeepLength(s.stores, actions[..k]);
    CountsReads(cfg, s, actions);
    if lists != [] {
      var _ := ReadAt(cfg, s, actions, |lists| - 1);
    }
    forall i | 0 <= i < |lists| ensures Lists(lists[i], StoresAfter(s.stores, actions[..k])[i]) {
      var r := ReadAt(cfg, s, actions, i);
      hide Run, Possible, Lists, Tears, ChangesRead;
      SteadyToRead(s.stores, actions, |lists|, k, i, r);
    }
  }

  lemma SameListSameStore<T(!new)>(list: seq<T>, a: set<T>, b: set<T>)
    requires Lists(list, a) && Lists(list, b)
    ensures a == b
  {
  }

  /** And a build that one does tear has not, unless contents recur. */
  lemma TornIsNoSnapshot(cfg: Config, s: State, actions: seq<Action>, p: nat, q: nat, k: nat)
    requires OneBuild(cfg, s, actions) && Run(cfg, s, actions).loop.Building? && NeverRecurs(s.stores, actions)
    requires p < q < |actions| && k <= |actions|
    requires ChangesRead(actions, p) && ChangesUnread(actions, |Run(cfg, s, actions).loop.lists|, q)
    ensures !Listed(Run(cfg, s, actions).loop.lists, StoresAfter(s.stores, actions[..k]))
  {
    var lists := Run(cfg, s, actions).loop.lists;
    var i, j := actions[p].store, actions[q].store;
    hide Run, Possible, Lists, StoresAfter, NeverRecurs, Reads;
    InLists(cfg, s, actions, p);
    var ri := ReadAt(cfg, s, actions, i);
    var rj := ReadAt(cfg, s, actions, j);
    StoresKeepLength(s.stores, actions[..k]);
    if Listed(lists, StoresAfter(s.stores, actions[..k])) {
      assert Lists(lists[i], Content(s.stores, actions, k, i)) && Lists(lists[j], Content(s.stores, actions, k, j));
      hide Content, OneBuild, Listed;
      SameListSameStore(lists[i], Content(s.stores, actions, ri, i), Content(s.stores, actions, k, i));
      SameListSameStore(lists[j], Content(s.stores, actions, rj, j), Content(s.stores, actions, k, j));
      ReadBefore(actions, ri, p);
      ReadAfter(actions, q, rj);
      Recurs(s.stores, actions, p, q, k, ri, rj);
    }
  }

  lemma InLists(cfg: Config, s: State, actions: seq<Action>, p: nat)
    requires OneBuild(cfg, s, actions) && p < |actions| && ChangesRead(actions, p)
    ensures Run(cfg, s, actions).loop.Building? && actions[p].store < |Run(cfg, s, actions).loop.lists|
  {
    hide Run, Possible;
    CountsReads(cfg, s, actions);
    ReadsGrow(actions, p, |actions|);
    assert actions[..|actions|] == actions;
  }

  lemma ReadBefore(actions: seq<Action>, r: nat, p: nat)
    requires r < |actions| && p < |actions| && Reads(actions[..r]) < Reads(actions[..p])
    ensures r < p
  {
    if p <= r {
      ReadsGrow(actions, p, r);
    }
  }

  lemma ReadAfter(actions: seq<Action>, q: nat, r: nat)
    requires q < |actions| && r < |actions| && actions[r].Read? && Reads(actions[..q]) <= Reads(actions[..r])
    ensures q <= r
  {
    if r < q {
      ReadsGrow(actions, r, q);
    }
  }

  lemma Recurs(stores: seq<set<Item>>, actions: seq<Action>, p: nat, q: nat, k: nat, ri: nat, rj: nat)
    requires ri < p < q < rj < |actions| && k <= |actions| && actions[p].Change? && actions[q].Change?
    requires actions[p].store < |stores| && actions[q].store < |stores|
    requires Content(stores, actions, ri, actions[p].store) == Content(stores, actions, k, actions[p].store)
    requires Content(stores, actions, rj, actions[q].store) == Content(stores, actions, k, actions[q].store)
    ensures !NeverRecurs(stores, actions)
  {
  }

  // ---------------------------------------------------------------- every build of every run

  /** Where the running build began. */
  lemma {:induction false} BuildBegan(cfg: Config, s: State, actions: seq<Action>) returns (b: nat)
    requires Init(s) && Possible(cfg, s, actions) && Run(cfg, s, actions).loop.Building?
    ensures b <= |actions| && Possible(cfg, s, actions[..b]) && Run(cfg, s, actions[..b]).loop == Building([])
    ensures b == 0 || actions[b - 1].Receive?
    ensures forall x | b <= x < |actions| :: !actions[x].Finish? && !actions[x].Receive?
  {
    hide Run, Possible, Enabled, After;
    assert actions[..|actions|] == actions;
    if actions == [] {
      RunEmpty(cfg, s);
      b := 0;
    } else {
      var rest, last := actions[..|actions| - 1], actions[|actions| - 1];
      RunLast(cfg, s, actions);
      if last.Receive? {
        ReceiveBegins(cfg, Run(cfg, s, rest), last);
        b := |actions|;
      } else {
        BuildGoesOn(cfg, Run(cfg, s, rest), last);
        b := BuildBegan(cfg, s, rest);
        assert rest[..b] == actions[..b];
      }
    }
  }

  lemma RunLast(cfg: Config, s: State, actions: seq<Action>)
    requires Shape(s) && Possible(cfg, s, actions) && actions != []
    ensures
      var rest, last := actions[..|actions| - 1], actions[|actions| - 1];
      && Possible(cfg, s, rest) && Enabled(Run(cfg, s, rest), last)
      && Run(cfg, s, actions) == After(cfg, Run(cfg, s, rest), last)
  {
    hide Enabled, After;
  }

  lemma ReceiveBegins(cfg: Config, s: State, a: Action)
    requires Shape(s) && Enabled(s, a) && a.Receive?
    ensures After(cfg, s, a).loop == Building([])
  {
  }

  lemma BuildGoesOn(cfg: Config, s: State, a: Action)
    requires Shape(s) && Enabled(s, a) && After(cfg, s, a).loop.Building? && !a.Receive?
    ensures s.loop.Building? && !a.Finish?
  {
    hide Partial, ReadsOn, Swap, UniqueNames;
  }

  lemma {:induction false} RunSplits(cfg: Config, s: State, actions: seq<Action>, b: nat)
    requires Shape(s) && Possible(cfg, s, actions) && b <= |actions|
    ensures Possible(cfg, s, actions[..b]) && Possible(cfg, Run(cfg, s, actions[..b]), actions[b..])
    ensures Run(cfg, Run(cfg, s, actions[..b]), actions[b..]) == Run(cfg, s, actions)
  {
    hide Enabled, After;
    if b == |actions| {
      assert actions[..b] == actions && actions[b..] == [];
    } else {
      var rest := actions[..|actions| - 1];
      RunSplits(cfg, s, rest, b);
      assert rest[..b] == actions[..b] && actions[b..][..|actions| - 1 - b] == rest[b..];
    }
  }

  /** For every run and every build that is about to finish in it, from the build's first moment b: the lists it has
      read were, at one time, all lists of their stores if no store it had read changed before one it had still to
      read; and only then, where no store comes back to what it held. */
  lemma ReadsSnapshotExactly(cfg: Config, s: State, actions: seq<Action>) returns (b: nat)
    requires Init(s) && Possible(cfg, s, actions) && Enabled(Run(cfg, s, actions), Finish)
    ensures b <= |actions| && Possible(cfg, s, actions[..b]) && Run(cfg, s, actions[..b]).loop == Building([])
    ensures b == 0 || actions[b - 1].Receive?
    ensures forall x | b <= x < |actions| :: !actions[x].Finish? && !actions[x].Receive?
    ensures
      var lists, stores, during := Run(cfg, s, actions).loop.lists, Run(cfg, s, actions[..b]).stores, actions[b..];
      && (!Tears(during, |lists|) ==> ReadsSnapshot(lists, stores, during))
      && (NeverRecurs(stores, during) ==> (ReadsSnapshot(lists, stores, during) <==> !Tears(during, |lists|)))
  {
    b := BuildBegan(cfg, s, actions);
    RunSplits(cfg, s, actions, b);
    var start, during := Run(cfg, s, actions[..b]), actions[b..];
    hide Run, Possible, Enabled, Lists;
    var lists := Run(cfg, s, actions).loop.lists;
    assert OneBuild(cfg, start, during);
    if !Tears(during, |lists|) {
      UntornIsSnapshot(cfg, start, during);
    } else if NeverRecurs(start.stores, during) {
      var p, q :| 0 <= p < q < |during| && ChangesRead(during, p) && ChangesUnread(during, |lists|, q);
      forall k | 0 <= k <= |during| ensures !Listed(lists, StoresAfter(start.stores, during[..k])) {
        TornIsNoSnapshot(cfg, start, during, p, q, k);
      }
    }
  }
}
