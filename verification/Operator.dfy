/** The event loop that keeps the served configuration up to date with four watched stores (internal/operator).
    Stores change at any time, change handlers run later and in any order, and a build reads the stores one by one. */
module Operator {
  import opened Iteration
  import opened Options
  import opened Resources

  datatype Loop = Idle | Building(lists: seq<seq<Item>>) | Stopped

  /** The stores, the changes of each whose handler has not run yet, the one-slot channel, the loop, the service
      served, and the history of finished builds. */
  datatype State = State(
    stores: seq<set<Item>>, pending: seq<nat>, token: bool, loop: Loop,
    served: Option<Service>, builds: seq<seq<seq<Item>>>)

  datatype Action =
    | Change(store: nat, items: set<Item>)
    | Handle(store: nat)
    | Receive
    | Read(list: seq<Item>)
    | Finish
    | Stop

  ghost predicate Shape(s: State) {
    |s.stores| == STORES && |s.pending| == STORES && forall i | 0 <= i < STORES :: UniqueNames(s.stores[i])
  }

  /** Where the loop starts: caches are synced, the first build has read nothing, and initial changes may be pending. */
  ghost predicate Init(s: State) {
    Shape(s) && s.loop == Building([]) && s.served == None && s.builds == []
  }

  /** Whether a build that has read these lists reads another store. */
  predicate ReadsOn(lists: seq<seq<Item>>) {
    |lists| < STORES && (lists == [] || !AnyForeign(lists[|lists| - 1]))
  }

  /** The lists a build may have read so far. */
  predicate Partial(lists: seq<seq<Item>>) {
    |lists| <= STORES && forall i | 0 <= i < |lists| - 1 :: !AnyForeign(lists[i])
  }

  ghost predicate Enabled(s: State, a: Action)
    requires Shape(s)
  {
    match a
    case Change(i, items) => i < STORES && UniqueNames(items)
    case Handle(i) => i < STORES && s.pending[i] > 0
    case Receive => s.loop == Idle && s.token
    case Read(list) =>
      s.loop.Building? && Partial(s.loop.lists) && ReadsOn(s.loop.lists) && Lists(list, s.stores[|s.loop.lists|])
    case Finish => s.loop.Building? && Partial(s.loop.lists) && !ReadsOn(s.loop.lists)
    case Stop => s.loop == Idle
  }

  /** The service after a build: a build that fails leaves the one served before. */
  function Swap(cfg: Config, served: Option<Service>, lists: seq<seq<Item>>): Option<Service>
    requires Complete(lists)
  {
    if BuildResult(cfg, lists).Ok? then Some(BuildResult(cfg, lists).value) else served
  }

  ghost function After(cfg: Config, s: State, a: Action): (s': State)
    requires Shape(s) && Enabled(s, a)
    ensures Shape(s')
  {
    match a
    case Change(i, items) => s.(stores := s.stores[i := items], pending := s.pending[i := s.pending[i] + 1])
    case Handle(i) => s.(pending := s.pending[i := s.pending[i] - 1], token := true)
    case Receive => s.(token := false, loop := Building([]))
    case Read(list) => s.(loop := Building(s.loop.lists + [list]))
    case Finish => s.(loop := Idle, served := Swap(cfg, s.served, s.loop.lists), builds := s.builds + [s.loop.lists])
    case Stop => s.(loop := Stopped)
  }

  /** Whether the actions can happen one after the other. */
  ghost predicate Possible(cfg: Config, s: State, actions: seq<Action>)
    requires Shape(s)
    decreases |actions|, 0
  {
    actions == [] ||
    (Possible(cfg, s, actions[..|actions| - 1]) && Enabled(Run(cfg, s, actions[..|actions| - 1]), actions[|actions| - 1]))
  }

  ghost function Run(cfg: Config, s: State, actions: seq<Action>): (s': State)
    requires Shape(s) && Possible(cfg, s, actions)
    ensures Shape(s')
    decreases |actions|, 1
  {
    if actions == [] then s else After(cfg, Run(cfg, s, actions[..|actions| - 1]), actions[|actions| - 1])
  }

  // ---------------------------------------------------------------- the channel and the build as code

  /** The one-slot channel and the served service. */
  class Reconciler {
    const cfg: Config
    var token: bool
    var served: Option<Service>

    constructor (cfg: Config)
      ensures this.cfg == cfg && !token && served == None
    {
      this.cfg, token, served := cfg, false, None;
    }

    /** A change handler: sends without waiting, and a full channel stays full. */
    method Changed()
      modifies this`token
      ensures token
    {
      if !token {
        token := true;
      }
    }

    /** Reads one store after the other, answers[i] being what store i lists when its turn comes, and swaps in
        the service built from them. It reads no further than a foreign item, and a failure swaps nothing. */
    method Build(answers: seq<seq<Item>>) returns (read: nat, ok: bool)
      requires |answers| == STORES
      modifies this`served
      ensures read <= STORES && Complete(answers[..read])
      ensures served == Swap(cfg, old(served), answers[..read]) && ok == BuildResult(cfg, answers[..read]).Ok?
    {
      hide FromObjects;
      var objects: seq<seq<Object>> := [];
      for i := 0 to STORES
        invariant |objects| == i && served == old(served)
        invariant forall j | 0 <= j < i :: !AnyForeign(answers[j]) && Objects(answers[j]) == Some(objects[j])
      {
        var list := ReadObjects(answers[i]);
        ObjectsExactly(answers[i]);
        if list.None? {
          return i + 1, false;
        }
        objects := objects + [list.value];
      }
      var service := ResourcesFromObjects(cfg, objects[0], objects[1], objects[2], objects[3]);
      assert answers[..STORES] == answers;
      if service.Err? {
        return STORES, false;
      }
      served := Some(service.value);
      return STORES, true;
    }

    /** Takes the token and builds. */
    method Receive(answers: seq<seq<Item>>) returns (read: nat, ok: bool)
      requires token && |answers| == STORES
      modifies this
      ensures !token && read <= STORES && Complete(answers[..read])
      ensures served == Swap(cfg, old(served), answers[..read]) && ok == BuildResult(cfg, answers[..read]).Ok?
    {
      token := false;
      read, ok := Build(answers);
    }
  }

  // ---------------------------------------------------------------- no lost update

  /** What the running build, or else the last one, has read. */
  function LatestReads(s: State): seq<seq<Item>> {
    if s.loop.Building? then s.loop.lists
    else if s.builds == [] then []
    else s.builds[|s.builds| - 1]
  }

  /** A store that differs from what was last read of it has a handler pending, or the token is set.
      A store the running build has not read yet is not among the latest reads. */
  ghost predicate NoLostUpdate(s: State)
    requires Shape(s)
  {
    forall i | 0 <= i < |LatestReads(s)| && i < STORES ::
      Lists(LatestReads(s)[i], s.stores[i]) || s.pending[i] > 0 || s.token
  }

  /** Builds read in order and end where they should; the loop is idle only after a build. */
  ghost predicate Ordered(s: State) {
    && (s.loop.Building? ==> Partial(s.loop.lists))
    && (!s.loop.Building? ==> s.builds != [])
    && forall i | 0 <= i < |s.builds| :: Complete(s.builds[i])
  }

  /** The service of the last build that succeeded. */
  function LastValid(cfg: Config, builds: seq<seq<seq<Item>>>): Option<Service>
    requires forall i | 0 <= i < |builds| :: Complete(builds[i])
  {
    if builds == [] then None
    else Swap(cfg, LastValid(cfg, builds[..|builds| - 1]), builds[|builds| - 1])
  }

  ghost predicate Invariant(cfg: Config, s: State) {
    Shape(s) && Ordered(s) && NoLostUpdate(s) && s.served == LastValid(cfg, s.builds)
  }

  lemma FinishedIsComplete(lists: seq<seq<Item>>)
    requires Partial(lists) && !ReadsOn(lists)
    ensures Complete(lists)
  {
  }

  lemma EachActionKeepsOrder(cfg: Config, s: State, a: Action)
    requires Invariant(cfg, s) && Enabled(s, a)
    ensures Ordered(After(cfg, s, a)) && After(cfg, s, a).served == LastValid(cfg, After(cfg, s, a).builds)
  {
    hide BuildResult, AnyForeign;
    if a.Finish? {
      FinishedIsComplete(s.loop.lists);
      var builds := s.builds + [s.loop.lists];
      assert builds[..|s.builds|] == s.builds;
    }
  }

  lemma EachActionLosesNothing(cfg: Config, s: State, a: Action)
    requires Invariant(cfg, s) && Enabled(s, a)
    ensures NoLostUpdate(After(cfg, s, a))
  {
    hide BuildResult, AnyForeign, LastValid;
  }

  /** In every run: no lost update, and the service served is that of the last build that succeeded. */
  lemma {:induction false} EveryRunKeepsInvariant(cfg: Config, s: State, actions: seq<Action>)
    requires Init(s) && Possible(cfg, s, actions)
    ensures Invariant(cfg, Run(cfg, s, actions))
  {
    if actions != [] {
      EveryRunKeepsInvariant(cfg, s, actions[..|actions| - 1]);
      hide Invariant, Shape, After, Enabled;
      var before, a := Run(cfg, s, actions[..|actions| - 1]), actions[|actions| - 1];
      KeepsInvariant(cfg, before, a);
    }
  }

  lemma KeepsInvariant(cfg: Config, s: State, a: Action)
    requires Invariant(cfg, s) && Enabled(s, a)
    ensures Invariant(cfg, After(cfg, s, a))
  {
    EachActionKeepsOrder(cfg, s, a);
    EachActionLosesNothing(cfg, s, a);
  }

  // ---------------------------------------------------------------- when everything is quiet

  /** The loop waits, the channel is empty and every handler has run. */
  ghost predicate Quiet(s: State) {
    s.loop == Idle && !s.token && forall i | 0 <= i < |s.pending| :: s.pending[i] == 0
  }

  /** What a build that is not disturbed would read. */
  ghost predicate ReadsOf(lists: seq<seq<Item>>, stores: seq<set<Item>>) {
    Complete(lists) && |stores| == STORES && forall i | 0 <= i < |lists| :: Lists(lists[i], stores[i])
  }

  lemma QuietIsCurrent(cfg: Config, s: State, lists: seq<seq<Item>>)
    requires Invariant(cfg, s) && Quiet(s) && ReadsOf(lists, s.stores)
    ensures
      var undisturbed := BuildResult(cfg, lists);
      && s.builds != [] && ReadsOf(s.builds[|s.builds| - 1], s.stores)
      && (undisturbed.Ok? ==> s.served.Some? && SameService(s.served.value, undisturbed.value))
      && (undisturbed.Err? ==> s.served == LastValid(cfg, s.builds[..|s.builds| - 1]))
  {
    hide BuildResult, AnyForeign, Lists, UniqueNames, SameService;
    SameStoresSameBuild(cfg, s.builds[|s.builds| - 1], lists, s.stores);
  }

  /** When everything is quiet, the last build is as good as one that reads all current stores at once:
      either both succeed and the current configuration is served, or both fail and the last valid one stays. */
  lemma QuietServesCurrent(cfg: Config, s: State, actions: seq<Action>, lists: seq<seq<Item>>)
    requires Init(s) && Possible(cfg, s, actions) && Quiet(Run(cfg, s, actions))
    requires ReadsOf(lists, Run(cfg, s, actions).stores)
    ensures
      var now, undisturbed := Run(cfg, s, actions), BuildResult(cfg, lists);
      && Ordered(now) && now.builds != [] && ReadsOf(now.builds[|now.builds| - 1], now.stores)
      && (undisturbed.Ok? ==> now.served.Some? && SameService(now.served.value, undisturbed.value))
      && (undisturbed.Err? ==> now.served == LastValid(cfg, now.builds[..|now.builds| - 1]))
  {
    EveryRunKeepsInvariant(cfg, s, actions);
    QuietIsCurrent(cfg, Run(cfg, s, actions), lists);
  }

  // ---------------------------------------------------------------- everything gets quiet

  /** What happens without the stores changing or the program stopping. */
  predicate Internal(a: Action) {
    a.Handle? || a.Receive? || a.Read? || a.Finish?
  }

  function Total(pending: seq<nat>): nat {
    if pending == [] then 0 else Total(pending[..|pending| - 1]) + pending[|pending| - 1]
  }

  function Remaining(loop: Loop): int {
    if loop.Building? then STORES + 1 - |loop.lists| else 0
  }

  /** An upper bound on the internal actions still to come. */
  function Work(s: State): int {
    7 * Total(s.pending) + (if s.token then 6 else 0) + Remaining(s.loop)
  }

  lemma {:induction false} TotalOfUpdate(pending: seq<nat>, i: nat, n: nat)
    requires i < |pending|
    ensures Total(pending[i := n]) == Total(pending) - pending[i] + n
  {
    var rest, last := pending[..|pending| - 1], |pending| - 1;
    if i == last {
      assert pending[i := n][..last] == rest;
    } else {
      assert pending[i := n][..last] == rest[i := n];
      TotalOfUpdate(rest, i, n);
    }
  }

  lemma EachInternalActionWorks(cfg: Config, s: State, a: Action)
    requires Invariant(cfg, s) && Enabled(s, a) && Internal(a)
    ensures 0 <= Work(After(cfg, s, a)) < Work(s)
  {
    hide BuildResult, AnyForeign, LastValid, NoLostUpdate, Total;
    if a.Handle? {
      TotalOfUpdate(s.pending, a.store, s.pending[a.store] - 1);
    }
  }

  /** Whatever is left to do can be done: only a quiet or stopped loop has nothing enabled. */
  lemma NeverStuck(cfg: Config, s: State) returns (a: Action)
    requires Invariant(cfg, s) && s.loop != Stopped && !Quiet(s)
    ensures Internal(a) && Enabled(s, a)
  {
    hide AnyForeign, LastValid, NoLostUpdate;
    if i :| 0 <= i < STORES && s.pending[i] > 0 {
      a := Handle(i);
    } else if s.loop == Idle {
      a := Receive;
    } else if ReadsOn(s.loop.lists) {
      var list := SomeOrder(s.stores[|s.loop.lists|]);
      a := Read(list);
    } else {
      a := Finish;
    }
  }

  /** However the internal actions interleave, there are at most as many of them as there is work. */
  lemma {:induction false} InternalRunsEnd(cfg: Config, s: State, actions: seq<Action>)
    requires Invariant(cfg, s) && Possible(cfg, s, actions) && forall a | a in actions :: Internal(a)
    ensures
      var now := Run(cfg, s, actions);
      && Invariant(cfg, now) && now.stores == s.stores && (s.loop != Stopped ==> now.loop != Stopped)
      && |actions| + Work(now) <= Work(s)
  {
    if actions != [] {
      var rest, a := actions[..|actions| - 1], actions[|actions| - 1];
      assert a in actions && forall b | b in rest :: b in actions;
      InternalRunsEnd(cfg, s, rest);
      var before := Run(cfg, s, rest);
      KeepsInvariant(cfg, before, a);
      EachInternalActionWorks(cfg, before, a);
      hide Invariant, Work, BuildResult;
    }
  }

  /** Once the stores stop changing, every run of internal actions that goes on as long as it can ends quiet,
      with a build of the final stores: the configuration served is theirs, or theirs is invalid. */
  lemma SettlesOnCurrent(cfg: Config, s: State, history: seq<Action>, actions: seq<Action>, lists: seq<seq<Item>>)
    requires Init(s) && Possible(cfg, s, history) && Run(cfg, s, history).loop != Stopped
    requires Possible(cfg, Run(cfg, s, history), actions) && forall a | a in actions :: Internal(a)
    requires forall a | Internal(a) :: !Enabled(Run(cfg, Run(cfg, s, history), actions), a)
    requires ReadsOf(lists, Run(cfg, s, history).stores)
    ensures |actions| <= Work(Run(cfg, s, history))
    ensures
      var now, undisturbed := Run(cfg, Run(cfg, s, history), actions), BuildResult(cfg, lists);
      && Quiet(now) && Ordered(now) && now.stores == Run(cfg, s, history).stores
      && (undisturbed.Ok? ==> now.served.Some? && SameService(now.served.value, undisturbed.value))
      && (undisturbed.Err? ==> now.builds != [] && now.served == LastValid(cfg, now.builds[..|now.builds| - 1]))
  {
    EveryRunKeepsInvariant(cfg, s, history);
    hide Run, Possible, Work, Enabled, LastValid, BuildResult, ReadsOf;
    var calm := Run(cfg, s, history);
    InternalRunsEnd(cfg, calm, actions);
    var now := Run(cfg, calm, actions);
    WorkIsNatural(cfg, now);
    if !Quiet(now) {
      var a := NeverStuck(cfg, now);
      assert false;
    }
    QuietIsCurrent(cfg, now, lists);
    hide NoLostUpdate, Quiet, SameService;
  }

  /** From every state that a run can reach, unless stopped, internal actions can bring quiet. */
  lemma {:induction false} CanSettle(cfg: Config, s: State, history: seq<Action>) returns (longer: seq<Action>)
    requires Init(s) && Possible(cfg, s, history) && Run(cfg, s, history).loop != Stopped
    ensures history <= longer && forall i | |history| <= i < |longer| :: Internal(longer[i])
    ensures Possible(cfg, s, longer) && Quiet(Run(cfg, s, longer))
    ensures Run(cfg, s, longer).stores == Run(cfg, s, history).stores
    decreases Work(Run(cfg, s, history))
  {
    EveryRunKeepsInvariant(cfg, s, history);
    hide Run, Possible, Invariant, Work;
    var now := Run(cfg, s, history);
    if Quiet(now) {
      longer := history;
    } else {
      var a := NeverStuck(cfg, now);
      RunExtends(cfg, s, history, a);
      EachInternalActionWorks(cfg, now, a);
      longer := CanSettle(cfg, s, history + [a]);
    }
  }

  lemma WorkIsNatural(cfg: Config, s: State)
    requires Invariant(cfg, s)
    ensures Work(s) >= 0
  {
  }

  /** Whatever the loop does, any of the four stores may change, a handler that is pending may run, and a build may
      find the objects of a store in any order. */
  lemma OutsideNeverWaits(s: State, i: nat, items: set<Item>, list: seq<Item>)
    requires Shape(s) && i < 4
    ensures UniqueNames(items) ==> Enabled(s, Change(i, items))
    ensures s.pending[i] > 0 ==> Enabled(s, Handle(i))
    ensures (s.loop.Building? && |s.loop.lists| == i && (forall j | 0 <= j < i :: !AnyForeign(s.loop.lists[j]))
             && Lists(list, s.stores[i])) ==> Enabled(s, Read(list))
  {
  }

  // ---------------------------------------------------------------- changes coalesce

  function Handled(actions: seq<Action>): nat {
    if actions == [] then 0
    else Handled(actions[..|actions| - 1]) + if actions[|actions| - 1].Handle? then 1 else 0
  }

  /** Besides the first build, there is at most one build for each handler that ran. */
  lemma {:induction false} BuildsCoalesce(cfg: Config, s: State, actions: seq<Action>)
    requires Init(s) && Possible(cfg, s, actions)
    ensures
      var now := Run(cfg, s, actions);
      |now.builds| + (if now.loop.Building? then 1 else 0) + (if now.token then 1 else 0)
      <= 1 + (if s.token then 1 else 0) + Handled(actions)
  {
    if actions != [] {
      hide BuildResult, AnyForeign;
      BuildsCoalesce(cfg, s, actions[..|actions| - 1]);
    }
  }

  function Changed(actions: seq<Action>): nat {
    if actions == [] then 0
    else Changed(actions[..|actions| - 1]) + if actions[|actions| - 1].Change? then 1 else 0
  }

  /** Each change runs its handler once: those that have run and those still pending are the changes so far, and those
      pending at the start. */
  lemma {:induction false} HandlersMatchChanges(cfg: Config, s: State, actions: seq<Action>)
    requires Shape(s) && Possible(cfg, s, actions)
    ensures Handled(actions) + Total(Run(cfg, s, actions).pending) == Changed(actions) + Total(s.pending)
  {
    if actions != [] {
      hide Shape, Total;
      var rest, a := actions[..|actions| - 1], actions[|actions| - 1];
      HandlersMatchChanges(cfg, s, rest);
      var before := Run(cfg, s, rest).pending;
      if a.Change? || a.Handle? {
        assert |before| == STORES by { assert Shape(Run(cfg, s, rest)); }
        TotalOfUpdate(before, a.store, Run(cfg, s, actions).pending[a.store]);
      }
    }
  }

  lemma RunExtends(cfg: Config, s: State, before: seq<Action>, a: Action)
    requires Shape(s) && Possible(cfg, s, before) && Enabled(Run(cfg, s, before), a)
    ensures Possible(cfg, s, before + [a]) && Run(cfg, s, before + [a]) == After(cfg, Run(cfg, s, before), a)
  {
    assert (before + [a])[..|before|] == before;
  }
}
