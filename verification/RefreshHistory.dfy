/** Why a round is made, where the contents of a map come from and what its times mean: what must have happened earlier
    in a run for a call to be where it is. */
module RefreshHistory {
  import opened Model
  import opened Options
  import opened RefreshInvariant
  import opened RefreshLaws
  import opened RefreshProtocol

  // ---------------------------------------------------------------- looking back

  /** The k-th action of a run, and the state in which it is taken. */
  ghost predicate Happened(cfg: Config, actions: seq<Action>, event: (State, Action) -> bool, k: nat) {
    && Possible(cfg, actions) && k < |actions| && Possible(cfg, actions[..k])
    && event(Run(cfg, actions[..k]), actions[k])
  }

  /** What can come about through an event only. */
  ghost predicate ComesFrom(cfg: Config, fact: State -> bool, event: (State, Action) -> bool) {
    && !fact(INIT)
    && forall s, a | Invariant(cfg, s) && Enabled(cfg, s, a) && fact(After(cfg, s, a)) :: fact(s) || event(s, a)
  }

  /** What holds after a run and comes from an event has been brought about by one. */
  lemma {:induction false} LookBack(cfg: Config, actions: seq<Action>, fact: State -> bool, event: (State, Action) -> bool)
    returns (k: nat)
    requires Possible(cfg, actions) && fact(Run(cfg, actions)) && ComesFrom(cfg, fact, event)
    ensures Happened(cfg, actions, event, k)
  {
    if actions != [] {
      var rest, a := actions[..|actions| - 1], actions[|actions| - 1];
      RunKeepsInvariant(cfg, rest);
      hide Invariant, Enabled, After;
      if fact(Run(cfg, rest)) {
        k := LookBack(cfg, rest, fact, event);
        assert rest[..k] == actions[..k];
      } else {
        k := |actions| - 1;
      }
    }
  }

  predicate At(s: State, t: nat, pc: Pc -> bool) {
    t < |s.threads| && pc(s.threads[t].pc)
  }

  // ---------------------------------------------------------------- a discovery round is needed

  predicate OwnResult(o: Outcome) {
    o.Found? && o.verdict == Own
  }

  /** After a miss at the recheck: in the round, or returning its result. */
  predicate Discovering(pc: Pc) {
    || (pc.Rechecked? && pc.recent.None?) || InRound(pc) || pc.SetInvsAt? || pc.Written?
    || ((pc.Return? || pc.Done?) && OwnResult(pc.result))
  }

  /** After a miss at the first check. */
  predicate Missed(pc: Pc) {
    || pc.Miss? || pc.WantRefresh? || pc.WantRecheck? || pc.Recheck? || pc.Rechecked? || pc.ReadUnlocked? || pc.Return?
    || Discovering(pc)
  }

  /** Nothing is published, or the last publication is at least this old. */
  predicate NoneYounger(log: seq<Publication>, now: nat, age: int) {
    log == [] || now - log[|log| - 1].at >= age
  }

  ghost function MissedCheck(cfg: Config, t: nat): (State, Action) -> bool {
    (s: State, a: Action) =>
      && a.Step? && a.t == t && t < |s.threads| && s.threads[t].pc.Check?
      && (Refreshing(s.threads[t].call) || NoneYounger(s.data.log, s.now, cfg.ttl))
  }

  ghost function MissedRecheck(t: nat): (State, Action) -> bool {
    (s: State, a: Action) =>
      a.Step? && a.t == t && t < |s.threads| && s.threads[t].pc.Recheck? && NoneYounger(s.data.log, s.now, 1_000_000_000)
  }

  lemma MissComesFrom(cfg: Config, t: nat)
    ensures ComesFrom(cfg, (s: State) => At(s, t, Missed), MissedCheck(cfg, t))
    ensures ComesFrom(cfg, (s: State) => At(s, t, Discovering), MissedRecheck(t))
  {
    forall s, a | Invariant(cfg, s) && Enabled(cfg, s, a)
      ensures At(After(cfg, s, a), t, Missed) ==> At(s, t, Missed) || MissedCheck(cfg, t)(s, a)
      ensures At(After(cfg, s, a), t, Discovering) ==> At(s, t, Discovering) || MissedRecheck(t)(s, a)
    {
      OneStepToMiss(cfg, s, a, t);
    }
  }

  lemma OneStepToMiss(cfg: Config, s: State, a: Action, t: nat)
    requires Invariant(cfg, s) && Enabled(cfg, s, a)
    ensures At(After(cfg, s, a), t, Missed) ==> At(s, t, Missed) || MissedCheck(cfg, t)(s, a)
    ensures At(After(cfg, s, a), t, Discovering) ==> At(s, t, Discovering) || MissedRecheck(t)(s, a)
  {
    if a.Step? && a.t == t {
      InvariantIsKnown(cfg, s, t);
      hide Invariant;
      NextMiss(cfg, s, t, a.choice);
    } else if a.Step? {
      StepIsStep(cfg, s, a.t, a.choice);
      hide Invariant, StepOf, CanStep, DataFrame, Missed, Discovering;
    }
  }

  lemma NextMiss(cfg: Config, s: State, t: nat, c: Choice)
    requires CanStep(cfg, s, t, c) && Known(cfg, s, t)
    ensures Missed(StepOf(cfg, s, t, c).threads[t].pc) ==> Missed(s.threads[t].pc) || MissedCheck(cfg, t)(s, Step(t, c))
    ensures Discovering(StepOf(cfg, s, t, c).threads[t].pc) ==> Discovering(s.threads[t].pc) || MissedRecheck(t)(s, Step(t, c))
  {
    hide Move, CanMove, Mu, HoldsRefresh, ActInventories, ActUpstream, ActCached;
    var th := s.threads[t];
    if CachedPc(th.pc) {
      CachedNeverMisses(s.data, th.pc);
    } else if UpstreamPc(th.pc) {
      UpstreamNeverMisses(cfg, s.data, s.now, t, th.call, th.pc, c);
    } else {
      InventoriesMisses(cfg, s, t, c);
    }
  }

  lemma CachedNeverMisses(d: Data, pc: Pc)
    requires CachedPc(pc) && ActCached(d, pc).Some?
    ensures !Missed(ActCached(d, pc).value.pc)
  {
  }

  lemma UpstreamNeverMisses(cfg: Config, d: Data, now: nat, t: nat, call: Call, pc: Pc, c: Choice)
    requires UpstreamPc(pc) && ActUpstream(cfg, d, now, t, call, pc, c).Some?
    ensures !Missed(ActUpstream(cfg, d, now, t, call, pc, c).value.pc)
  {
    hide AddFetch, Covers, CachedFetches, Wanted;
  }

  lemma InventoriesMisses(cfg: Config, s: State, t: nat, c: Choice)
    requires Known(cfg, s, t) && !CachedPc(s.threads[t].pc) && !UpstreamPc(s.threads[t].pc)
    requires ActInventories(cfg, s.data, s.now, t, s.threads[t].call, s.threads[t].pc, c).Some?
    ensures
      var pc, to := s.threads[t].pc, ActInventories(cfg, s.data, s.now, t, s.threads[t].call, s.threads[t].pc, c).value.pc;
      && (Missed(to) ==> Missed(pc) || MissedCheck(cfg, t)(s, Step(t, c)))
      && (Discovering(to) ==> Discovering(pc) || MissedRecheck(t)(s, Step(t, c)))
  {
    hide WorkerResult, PublicationOk, UpsPublicationOk;
  }

  /** A call that makes a discovery round, or returns its own, found at its check that it refreshes or that nothing
      younger than the lifetime is published, and later, with the refresh lock, nothing younger than a second. */
  lemma RoundsAreNeeded(cfg: Config, actions: seq<Action>, t: nat) returns (k: nat, m: nat)
    requires Possible(cfg, actions) && At(Run(cfg, actions), t, Discovering)
    ensures k < m && Happened(cfg, actions, MissedCheck(cfg, t), k) && Happened(cfg, actions, MissedRecheck(t), m)
  {
    MissComesFrom(cfg, t);
    hide Run, Possible, ComesFrom;
    m := LookBack(cfg, actions, (s: State) => At(s, t, Discovering), MissedRecheck(t));
    assert At(Run(cfg, actions[..m]), t, Missed);
    k := LookBack(cfg, actions[..m], (s: State) => At(s, t, Missed), MissedCheck(cfg, t));
    assert actions[..m][..k] == actions[..k];
  }

  // ---------------------------------------------------------------- an upstream round is needed

  /** After a miss at the check: in the round, or returning its result. */
  predicate Fetching(pc: Pc) {
    || pc.UpsMiss? || pc.UpsRound? || pc.UpsWantWrite? || pc.UpsAwaitWrite? || pc.UpsStamp? || pc.SetUps? || pc.SetErrs?
    || pc.SetUpsAt? || pc.UpsWritten? || ((pc.Return? || pc.Done?) && pc.result.Releases? && pc.result.verdict == Own)
  }

  /** The last round, if any, has neither releases nor an error for some wanted name with an upstream. */
  predicate LeavesOut(cfg: Config, d: Data, names: set<string>) {
    || d.upsLog == [] || d.upsLog[|d.upsLog| - 1].owner !in d.fetched
    || var f := d.fetched[d.upsLog[|d.upsLog| - 1].owner];
       exists n | n in names && cfg.tracked(n) :: n !in f.found && n !in f.failed
  }

  ghost function MissedUpsCheck(cfg: Config, t: nat): (State, Action) -> bool {
    (s: State, a: Action) =>
      && a.Step? && a.t == t && t < |s.threads| && s.threads[t].pc.UpsCheck? && s.threads[t].call.UpstreamFor?
      && (|| s.threads[t].call.refreshUpstream || NoneYounger(s.data.upsLog, s.now, cfg.ttl)
          || LeavesOut(cfg, s.data, s.threads[t].call.names))
  }

  lemma UpsMissComesFrom(cfg: Config, t: nat)
    ensures ComesFrom(cfg, (s: State) => At(s, t, Fetching), MissedUpsCheck(cfg, t))
  {
    forall s, a | Invariant(cfg, s) && Enabled(cfg, s, a)
      ensures At(After(cfg, s, a), t, Fetching) ==> At(s, t, Fetching) || MissedUpsCheck(cfg, t)(s, a)
    {
      OneStepToUpsMiss(cfg, s, a, t);
    }
  }

  lemma OneStepToUpsMiss(cfg: Config, s: State, a: Action, t: nat)
    requires Invariant(cfg, s) && Enabled(cfg, s, a)
    ensures At(After(cfg, s, a), t, Fetching) ==> At(s, t, Fetching) || MissedUpsCheck(cfg, t)(s, a)
  {
    if a.Step? && a.t == t {
      InvariantIsKnown(cfg, s, t);
      hide Invariant;
      NextUpsMiss(cfg, s, t, a.choice);
    } else if a.Step? {
      StepIsStep(cfg, s, a.t, a.choice);
      hide Invariant, StepOf, CanStep, DataFrame, Fetching;
    }
  }

  lemma NextUpsMiss(cfg: Config, s: State, t: nat, c: Choice)
    requires CanStep(cfg, s, t, c) && Known(cfg, s, t)
    ensures Fetching(StepOf(cfg, s, t, c).threads[t].pc) ==> Fetching(s.threads[t].pc) || MissedUpsCheck(cfg, t)(s, Step(t, c))
  {
    hide Move, CanMove, HoldsRefresh, ActInventories, ActUpstream, ActCached;
    var th := s.threads[t];
    if CachedPc(th.pc) {
      CachedNeverFetches(s.data, th.pc);
    } else if UpstreamPc(th.pc) {
      UpstreamMisses(cfg, s, t, c);
    } else {
      InventoriesNeverFetch(cfg, s.data, s.now, t, th.call, th.pc, c);
    }
  }

  lemma CachedNeverFetches(d: Data, pc: Pc)
    requires CachedPc(pc) && ActCached(d, pc).Some?
    ensures !Fetching(ActCached(d, pc).value.pc)
  {
  }

  lemma InventoriesNeverFetch(cfg: Config, d: Data, now: nat, t: nat, call: Call, pc: Pc, c: Choice)
    requires !CachedPc(pc) && !UpstreamPc(pc) && ActInventories(cfg, d, now, t, call, pc, c).Some?
    ensures Fetching(ActInventories(cfg, d, now, t, call, pc, c).value.pc) ==> Fetching(pc)
  {
    hide WorkerResult;
  }

  lemma UpstreamMisses(cfg: Config, s: State, t: nat, c: Choice)
    requires Known(cfg, s, t) && UpstreamPc(s.threads[t].pc)
    requires ActUpstream(cfg, s.data, s.now, t, s.threads[t].call, s.threads[t].pc, c).Some?
    ensures
      var pc, to := s.threads[t].pc, ActUpstream(cfg, s.data, s.now, t, s.threads[t].call, s.threads[t].pc, c).value.pc;
      Fetching(to) ==> Fetching(pc) || MissedUpsCheck(cfg, t)(s, Step(t, c))
  {
    hide AddFetch, PublicationOk, UpsPublicationOk;
  }

  /** A call that makes an upstream round, or returns its own, found at its check that it refreshes, that nothing
      younger than the lifetime is published, or that the last round leaves out a name that it wants. */
  lemma FetchesAreNeeded(cfg: Config, actions: seq<Action>, t: nat) returns (k: nat)
    requires Possible(cfg, actions) && At(Run(cfg, actions), t, Fetching)
    ensures Happened(cfg, actions, MissedUpsCheck(cfg, t), k)
  {
    UpsMissComesFrom(cfg, t);
    hide Run, Possible, ComesFrom;
    k := LookBack(cfg, actions, (s: State) => At(s, t, Fetching), MissedUpsCheck(cfg, t));
  }

  // ---------------------------------------------------------------- where the contents of a map come from

  ghost function HasInventory(t: nat, env: string, inv: Inventory): State -> bool {
    (s: State) => t in s.data.heap && env in s.data.heap[t] && s.data.heap[t][env] == inv
  }

  /** The worker of an environment ends: with what it discovered, or with its error and no components. */
  ghost function WorkerEnds(t: nat, env: string, inv: Inventory): (State, Action) -> bool {
    (s: State, a: Action) =>
      && a.Step? && a.t == t && a.choice.Worker? && a.choice.env == env
      && match a.choice.inventory
         case Some(found) => inv == found
         case None => inv.components == [] && inv.errors == [a.choice.error] && inv.clusterVersion == ""
  }

  ghost function HasReleases(t: nat, name: string, releases: seq<UpstreamRelease>): State -> bool {
    (s: State) => t in s.data.fetched && name in s.data.fetched[t].found && s.data.fetched[t].found[name] == releases
  }

  ghost function FetchSucceeds(t: nat, name: string, releases: seq<UpstreamRelease>): (State, Action) -> bool {
    (s: State, a: Action) =>
      a.Step? && a.t == t && a.choice.EndFetch? && a.choice.name == name && a.choice.releases == Some(releases)
  }

  ghost function HasError(t: nat, name: string, error: string): State -> bool {
    (s: State) => t in s.data.fetched && name in s.data.fetched[t].failed && s.data.fetched[t].failed[name] == error
  }

  ghost function FetchFails(t: nat, name: string, error: string): (State, Action) -> bool {
    (s: State, a: Action) =>
      a.Step? && a.t == t && a.choice.EndFetch? && a.choice.name == name && a.choice.releases == None && a.choice.error == error
  }

  lemma ActEntry(cfg: Config, d: Data, now: nat, t: nat, th: Thread, c: Choice, env: string)
    requires Act(cfg, d, now, t, th, c).Some?
    ensures
      var d' := Act(cfg, d, now, t, th, c).value.data;
      t in d'.heap && env in d'.heap[t] ==>
        || (t in d.heap && env in d.heap[t] && d.heap[t][env] == d'.heap[t][env])
        || (c.Worker? && c.env == env
            && d'.heap[t][env] == if c.inventory.Some? then c.inventory.value else Inventory([], "", [c.error]))
  {
    hide Covers, CachedFetches, Wanted, AddFetch;
  }

  lemma ActFetch(cfg: Config, d: Data, now: nat, t: nat, th: Thread, c: Choice, name: string)
    requires Act(cfg, d, now, t, th, c).Some?
    ensures
      var d' := Act(cfg, d, now, t, th, c).value.data;
      t in d'.fetched ==>
        && (name in d'.fetched[t].found ==>
              || (t in d.fetched && name in d.fetched[t].found && d.fetched[t].found[name] == d'.fetched[t].found[name])
              || (c.EndFetch? && c.name == name && c.releases == Some(d'.fetched[t].found[name])))
        && (name in d'.fetched[t].failed ==>
              || (t in d.fetched && name in d.fetched[t].failed && d.fetched[t].failed[name] == d'.fetched[t].failed[name])
              || (c.EndFetch? && c.name == name && c.releases == None && c.error == d'.fetched[t].failed[name]))
  {
    hide Covers, CachedFetches, Wanted, WorkerResult;
  }

  /** Each entry of the map of a round, published or not, is what the round's worker for that environment brought. */
  lemma EntriesAreDiscovered(cfg: Config, actions: seq<Action>, t: nat, env: string, inv: Inventory) returns (k: nat)
    requires Possible(cfg, actions) && HasInventory(t, env, inv)(Run(cfg, actions))
    ensures Happened(cfg, actions, WorkerEnds(t, env, inv), k)
  {
    forall s, a | Invariant(cfg, s) && Enabled(cfg, s, a) && HasInventory(t, env, inv)(After(cfg, s, a))
      ensures HasInventory(t, env, inv)(s) || WorkerEnds(t, env, inv)(s, a)
    {
      if a.Step? {
        StepIsStep(cfg, s, a.t, a.choice);
        hide Move, CanMove, Mu, HoldsRefresh, Invariant;
        ActEntry(cfg, s.data, s.now, a.t, s.threads[a.t], a.choice, env);
        hide Act;
      }
    }
    assert ComesFrom(cfg, HasInventory(t, env, inv), WorkerEnds(t, env, inv));
    hide Run, Possible, ComesFrom;
    k := LookBack(cfg, actions, HasInventory(t, env, inv), WorkerEnds(t, env, inv));
  }

  /** So are the releases and the errors of an upstream round. */
  lemma FetchedIsAnswered(cfg: Config, actions: seq<Action>, t: nat, name: string)
    requires Possible(cfg, actions) && t in Run(cfg, actions).data.fetched
    ensures
      var f := Run(cfg, actions).data.fetched[t];
      && (name in f.found ==> exists k :: Happened(cfg, actions, FetchSucceeds(t, name, f.found[name]), k))
      && (name in f.failed ==> exists k :: Happened(cfg, actions, FetchFails(t, name, f.failed[name]), k))
  {
    var f := Run(cfg, actions).data.fetched[t];
    if name in f.found {
      FoundComesFrom(cfg, t, name, f.found[name]);
      var k := LookBack(cfg, actions, HasReleases(t, name, f.found[name]), FetchSucceeds(t, name, f.found[name]));
    }
    if name in f.failed {
      FailedComesFrom(cfg, t, name, f.failed[name]);
      var k := LookBack(cfg, actions, HasError(t, name, f.failed[name]), FetchFails(t, name, f.failed[name]));
    }
  }

  lemma FoundComesFrom(cfg: Config, t: nat, name: string, releases: seq<UpstreamRelease>)
    ensures ComesFrom(cfg, HasReleases(t, name, releases), FetchSucceeds(t, name, releases))
  {
    forall s, a | Invariant(cfg, s) && Enabled(cfg, s, a) && HasReleases(t, name, releases)(After(cfg, s, a))
      ensures HasReleases(t, name, releases)(s) || FetchSucceeds(t, name, releases)(s, a)
    {
      if a.Step? {
        StepIsStep(cfg, s, a.t, a.choice);
        hide Move, CanMove, Mu, HoldsRefresh, Invariant;
        ActFetch(cfg, s.data, s.now, a.t, s.threads[a.t], a.choice, name);
        hide Act;
      }
    }
  }

  lemma FailedComesFrom(cfg: Config, t: nat, name: string, error: string)
    ensures ComesFrom(cfg, HasError(t, name, error), FetchFails(t, name, error))
  {
    forall s, a | Invariant(cfg, s) && Enabled(cfg, s, a) && HasError(t, name, error)(After(cfg, s, a))
      ensures HasError(t, name, error)(s) || FetchFails(t, name, error)(s, a)
    {
      if a.Step? {
        StepIsStep(cfg, s, a.t, a.choice);
        hide Move, CanMove, Mu, HoldsRefresh, Invariant;
        ActFetch(cfg, s.data, s.now, a.t, s.threads[a.t], a.choice, name);
        hide Act;
      }
    }
  }

  // ---------------------------------------------------------------- what the times mean

  predicate Logged(log: seq<Publication>, t: nat, startedAt: nat, at: nat) {
    exists p | p in log :: p.owner == t && p.startedAt == startedAt && p.at == at
  }

  /** Call t holds the write lock with this publication time, or has published with it. */
  ghost function Stamped(t: nat, startedAt: nat, at: nat): State -> bool {
    (s: State) =>
      || Logged(s.data.log, t, startedAt, at)
      || (t < |s.threads| && s.threads[t].pc == SetInvs(startedAt, at))
  }

  ghost function StampsNow(t: nat, at: nat): (State, Action) -> bool {
    (s: State, a: Action) =>
      a.Step? && a.t == t && t < |s.threads| && s.threads[t].pc.Stamp? && s.now == at && s.mu.writer == Some(t)
  }

  ghost function UpsStamped(t: nat, startedAt: nat, at: nat): State -> bool {
    (s: State) =>
      || Logged(s.data.upsLog, t, startedAt, at)
      || (t < |s.threads| && s.threads[t].pc == SetUps(startedAt, at))
  }

  ghost function UpsStampsNow(t: nat, at: nat): (State, Action) -> bool {
    (s: State, a: Action) =>
      a.Step? && a.t == t && t < |s.threads| && s.threads[t].pc.UpsStamp? && s.now == at && s.mu.writer == Some(t)
  }

  /** Call t is in a round that began at this time, or has published it. */
  ghost function Begun(t: nat, startedAt: nat): State -> bool {
    (s: State) =>
      || (exists p | p in s.data.log :: p.owner == t && p.startedAt == startedAt)
      || (t < |s.threads| && InRound(s.threads[t].pc) && s.threads[t].pc.startedAt == startedAt)
  }

  ghost function BeginsNow(t: nat, startedAt: nat): (State, Action) -> bool {
    (s: State, a: Action) =>
      a.Step? && a.t == t && t < |s.threads| && s.threads[t].pc.Rechecked? && s.now == startedAt && s.refreshMu == Some(t)
  }

  lemma ActTimes(cfg: Config, d: Data, now: nat, t: nat, th: Thread, c: Choice)
    requires Act(cfg, d, now, t, th, c).Some?
    ensures
      var pc, to := th.pc, Act(cfg, d, now, t, th, c).value.pc;
      && (to.SetInvs? ==> pc.Stamp? && pc.startedAt == to.startedAt && to.at == now)
      && (to.SetUps? ==> pc.UpsStamp? && pc.startedAt == to.startedAt && to.at == now)
      && (InRound(to) ==> if InRound(pc) then to.startedAt == pc.startedAt else pc.Rechecked? && to.startedAt == now)
  {
    hide Covers, CachedFetches, Wanted, WorkerResult, AddFetch;
  }

  lemma HoldsLock(s: State, t: nat)
    requires Locks(s) && t < |s.threads|
    ensures Mu(s.threads[t].pc) == Writing ==> s.mu.writer == Some(t)
    ensures HoldsRefresh(s.threads[t].pc) ==> s.refreshMu == Some(t)
  {
    hide Mu, HoldsRefresh;
    assert LocksOf(s, t, s.threads[t].pc);
  }

  lemma StampComesFrom(cfg: Config, t: nat, startedAt: nat, at: nat)
    ensures ComesFrom(cfg, Stamped(t, startedAt, at), StampsNow(t, at))
    ensures ComesFrom(cfg, UpsStamped(t, startedAt, at), UpsStampsNow(t, at))
    ensures ComesFrom(cfg, Begun(t, startedAt), BeginsNow(t, startedAt))
  {
    forall s, a | Invariant(cfg, s) && Enabled(cfg, s, a)
      ensures Stamped(t, startedAt, at)(After(cfg, s, a)) ==> Stamped(t, startedAt, at)(s) || StampsNow(t, at)(s, a)
      ensures UpsStamped(t, startedAt, at)(After(cfg, s, a)) ==> UpsStamped(t, startedAt, at)(s) || UpsStampsNow(t, at)(s, a)
      ensures Begun(t, startedAt)(After(cfg, s, a)) ==> Begun(t, startedAt)(s) || BeginsNow(t, startedAt)(s, a)
    {
      OneStepToStamp(cfg, s, a, t, startedAt, at);
    }
  }

  lemma OneStepToStamp(cfg: Config, s: State, a: Action, t: nat, startedAt: nat, at: nat)
    requires Invariant(cfg, s) && Enabled(cfg, s, a)
    ensures Stamped(t, startedAt, at)(After(cfg, s, a)) ==> Stamped(t, startedAt, at)(s) || StampsNow(t, at)(s, a)
    ensures UpsStamped(t, startedAt, at)(After(cfg, s, a)) ==> UpsStamped(t, startedAt, at)(s) || UpsStampsNow(t, at)(s, a)
    ensures Begun(t, startedAt)(After(cfg, s, a)) ==> Begun(t, startedAt)(s) || BeginsNow(t, startedAt)(s, a)
  {
    if a.Step? {
      var u, c := a.t, a.choice;
      StepIsStep(cfg, s, u, c);
      ActTimes(cfg, s.data, s.now, u, s.threads[u], c);
      HoldsLock(s, u);
      hide Act, Move, CanMove, Mu, HoldsRefresh, Stepped, Invariant, InRound, Locks, Stamped, UpsStamped, Begun;
      var s' := After(cfg, s, a);
      StepStamps(s, s', u, c, t, startedAt, at);
      StepUpsStamps(s, s', u, c, t, startedAt, at);
      StepBegins(s, s', u, c, t, startedAt);
    }
  }

  lemma StepStamps(s: State, s': State, u: nat, c: Choice, t: nat, startedAt: nat, at: nat)
    requires Stepped(s, s', u) && (Mu(s.threads[u].pc) == Writing ==> s.mu.writer == Some(u))
    requires
      var pc, to := s.threads[u].pc, s'.threads[u].pc;
      to.SetInvs? ==> pc.Stamp? && pc.startedAt == to.startedAt && to.at == s.now
    ensures Stamped(t, startedAt, at)(s') ==> Stamped(t, startedAt, at)(s) || StampsNow(t, at)(s, Step(u, c))
  {
    hide SameExcept, Logged;
    LogGrows(s.data.log, s'.data.log, t, startedAt, at);
  }

  lemma StepUpsStamps(s: State, s': State, u: nat, c: Choice, t: nat, startedAt: nat, at: nat)
    requires Stepped(s, s', u) && (Mu(s.threads[u].pc) == Writing ==> s.mu.writer == Some(u))
    requires
      var pc, to := s.threads[u].pc, s'.threads[u].pc;
      to.SetUps? ==> pc.UpsStamp? && pc.startedAt == to.startedAt && to.at == s.now
    ensures UpsStamped(t, startedAt, at)(s') ==> UpsStamped(t, startedAt, at)(s) || UpsStampsNow(t, at)(s, Step(u, c))
  {
    hide SameExcept, Logged;
    LogGrows(s.data.upsLog, s'.data.upsLog, t, startedAt, at);
  }

  lemma StepBegins(s: State, s': State, u: nat, c: Choice, t: nat, startedAt: nat)
    requires Stepped(s, s', u) && (HoldsRefresh(s.threads[u].pc) ==> s.refreshMu == Some(u))
    requires
      var pc, to := s.threads[u].pc, s'.threads[u].pc;
      InRound(to) ==> if InRound(pc) then to.startedAt == pc.startedAt else pc.Rechecked? && to.startedAt == s.now
    ensures Begun(t, startedAt)(s') ==> Begun(t, startedAt)(s) || BeginsNow(t, startedAt)(s, Step(u, c))
  {
    hide SameExcept;
  }

  lemma LogGrows(log: seq<Publication>, log': seq<Publication>, t: nat, startedAt: nat, at: nat)
    ensures log' == log ==> (Logged(log', t, startedAt, at) <==> Logged(log, t, startedAt, at))
    ensures log' != [] && log'[..|log'| - 1] == log ==>
              (Logged(log', t, startedAt, at) <==>
               Logged(log, t, startedAt, at) || log'[|log'| - 1] == Publication(t, startedAt, at))
  {
    if log' != [] && log'[..|log'| - 1] == log {
      assert log' == log + [log'[|log'| - 1]];
    }
  }

  /** The times of a publication are those at which its call began the round, with the refresh lock held, and took
      stock under the write lock. */
  lemma PublicationTimes(cfg: Config, actions: seq<Action>, p: Publication)
    requires Possible(cfg, actions)
    ensures p in Run(cfg, actions).data.log ==>
              && (exists k :: Happened(cfg, actions, BeginsNow(p.owner, p.startedAt), k))
              && (exists k :: Happened(cfg, actions, StampsNow(p.owner, p.at), k))
    ensures p in Run(cfg, actions).data.upsLog ==> exists k :: Happened(cfg, actions, UpsStampsNow(p.owner, p.at), k)
  {
    StampComesFrom(cfg, p.owner, p.startedAt, p.at);
    hide Run, Possible, ComesFrom;
    if p in Run(cfg, actions).data.log {
      var j := LookBack(cfg, actions, Begun(p.owner, p.startedAt), BeginsNow(p.owner, p.startedAt));
      var k := LookBack(cfg, actions, Stamped(p.owner, p.startedAt, p.at), StampsNow(p.owner, p.at));
    }
    if p in Run(cfg, actions).data.upsLog {
      var k := LookBack(cfg, actions, UpsStamped(p.owner, p.startedAt, p.at), UpsStampsNow(p.owner, p.at));
    }
  }

  // ---------------------------------------------------------------- calls that would rather not discover

  /** A call for cached inventories that has gone on to discover, or for cached input that gets none. */
  ghost function WithoutCache(t: nat): State -> bool {
    (s: State) =>
      t < |s.threads| &&
      match s.threads[t].call
      case CachedInventories => !s.threads[t].pc.WantCached? && !s.threads[t].pc.ReadCached? && !TookAny(s.threads[t].pc)
      case CachedInput => s.threads[t].pc == GotInvs(None) || s.threads[t].pc == Done(NoInput)
      case _ => false
  }

  predicate TookAny(pc: Pc) {
    (pc.GotCached? && pc.got.Some?) || (pc.Done? && pc.result.Found? && pc.result.verdict == AnyAge)
  }

  ghost function FindsNothing(t: nat): (State, Action) -> bool {
    (s: State, a: Action) =>
      && a.Step? && a.t == t && t < |s.threads| && (s.threads[t].pc.ReadCached? || s.threads[t].pc.ReadInput?)
      && s.data.log == []
  }

  lemma ActCache(cfg: Config, s: State, t: nat, c: Choice)
    requires Known(cfg, s, t) && ThreadOk(cfg, s, t) && Act(cfg, s.data, s.now, t, s.threads[t], c).Some?
    ensures
      var th, to := s.threads[t], Act(cfg, s.data, s.now, t, s.threads[t], c).value.pc;
      WithoutCache(t)(s.(threads := s.threads[t := th.(pc := to)])) ==> WithoutCache(t)(s) || FindsNothing(t)(s, Step(t, c))
  {
    hide Covers, CachedFetches, Wanted, WorkerResult, AddFetch, PublicationOk, UpsPublicationOk, OutcomeOk;
  }

  lemma OneStepWithoutCache(cfg: Config, s: State, a: Action, t: nat)
    requires Invariant(cfg, s) && Enabled(cfg, s, a) && WithoutCache(t)(After(cfg, s, a))
    ensures WithoutCache(t)(s) || FindsNothing(t)(s, a)
  {
    if a.Step? {
      StepIsStep(cfg, s, a.t, a.choice);
      if a.t == t {
        InvariantIsKnown(cfg, s, t);
        ActCache(cfg, s, t, a.choice);
      }
      hide Act, Move, CanMove, Mu, HoldsRefresh, DataFrame, Locks, LogOk, CacheOk;
    }
  }

  /** A call for cached inventories discovers, and one for cached input gets none, only if it found that nothing had
      been published yet. */
  lemma CacheIsPreferred(cfg: Config, actions: seq<Action>, t: nat) returns (k: nat)
    requires Possible(cfg, actions) && WithoutCache(t)(Run(cfg, actions))
    ensures Happened(cfg, actions, FindsNothing(t), k)
  {
    forall s, a | Invariant(cfg, s) && Enabled(cfg, s, a) && WithoutCache(t)(After(cfg, s, a))
      ensures WithoutCache(t)(s) || FindsNothing(t)(s, a)
    {
      OneStepWithoutCache(cfg, s, a, t);
    }
    assert ComesFrom(cfg, WithoutCache(t), FindsNothing(t));
    hide Run, Possible, ComesFrom;
    k := LookBack(cfg, actions, WithoutCache(t), FindsNothing(t));
  }

  // ---------------------------------------------------------------- upstream calls

  ghost function AsksUpstream(t: nat): State -> bool {
    (s: State) => t < |s.threads| && s.threads[t].call.UpstreamFor? && s.threads[t].pc != Done(NoReleases)
  }

  ghost function Never(): (State, Action) -> bool {
    (s: State, a: Action) => false
  }

  /** Without an upstream client each call for upstream releases returns nothing at once; with one, none does. */
  lemma ClientExactly(cfg: Config, actions: seq<Action>, t: nat)
    requires Possible(cfg, actions) && t < |Run(cfg, actions).threads|
    requires Run(cfg, actions).threads[t].call.UpstreamFor?
    ensures !cfg.hasUpstream ==> Run(cfg, actions).threads[t].pc == Done(NoReleases)
    ensures cfg.hasUpstream ==> Run(cfg, actions).threads[t].pc != Done(NoReleases)
  {
    RunKeepsInvariant(cfg, actions);
    hide Run, Possible;
    assert ThreadOk(cfg, Run(cfg, actions), t);
    if !cfg.hasUpstream && AsksUpstream(t)(Run(cfg, actions)) {
      NoClientToAsk(cfg, t);
      hide ComesFrom, Invariant, ThreadOk;
      var k := LookBack(cfg, actions, AsksUpstream(t), Never());
    }
  }

  lemma NoClientToAsk(cfg: Config, t: nat)
    requires !cfg.hasUpstream
    ensures ComesFrom(cfg, AsksUpstream(t), Never())
  {
    forall s, a | Invariant(cfg, s) && Enabled(cfg, s, a) && AsksUpstream(t)(After(cfg, s, a)) ensures AsksUpstream(t)(s) {
      if a.Step? {
        StepIsStep(cfg, s, a.t, a.choice);
        DoneIsDone(cfg, s.data, s.now, a.t, s.threads[a.t], a.choice);
        hide Act, Move, CanMove, Mu, HoldsRefresh, DataFrame, Invariant;
      }
    }
  }

  lemma DoneIsDone(cfg: Config, d: Data, now: nat, t: nat, th: Thread, c: Choice)
    ensures th.pc.Done? ==> Act(cfg, d, now, t, th, c).None?
  {
  }

  /** A fetch that is left to do can start exactly when fewer than four are running. */
  lemma FetchStartsExactly(cfg: Config, actions: seq<Action>, t: nat, name: string)
    requires Possible(cfg, actions) && t < |Run(cfg, actions).threads| && Run(cfg, actions).threads[t].pc.UpsRound?
    ensures
      var pc := Run(cfg, actions).threads[t].pc;
      CanStep(cfg, Run(cfg, actions), t, StartFetch(name)) <==> name in pc.todo && |pc.running| < 4
  {
    RunKeepsInvariant(cfg, actions);
    var s := Run(cfg, actions);
    hide Run, Possible, CanStep, InProgress;
    assert ThreadOk(cfg, s, t);
    StartsExactly(cfg, s, t, name);
  }

  lemma StartsExactly(cfg: Config, s: State, t: nat, name: string)
    requires t < |s.threads| && s.threads[t].call.UpstreamFor? && s.threads[t].pc.UpsRound?
    ensures CanStep(cfg, s, t, StartFetch(name)) <==> name in s.threads[t].pc.todo && |s.threads[t].pc.running| < 4
  {
    hide ActInventories, ActCached, Move;
  }
}
