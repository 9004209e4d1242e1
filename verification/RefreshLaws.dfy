/** What the refresh protocol promises, over every interleaving of any number of calls. */
module RefreshLaws {
  import opened Options
  import opened RefreshInvariant
  import opened RefreshProtocol

  // ---------------------------------------------------------------- discovery rounds

  /** From making the map until it is published. */
  predicate InRound(pc: Pc) {
    pc.Round? || pc.WantWrite? || pc.AwaitWrite? || pc.Stamp? || pc.SetInvs?
  }

  /** Discovery rounds never overlap, and each starts at least a second after the previous publication. */
  lemma RoundsNeverOverlap(cfg: Config, actions: seq<Action>)
    requires Possible(cfg, actions)
    ensures
      var s := Run(cfg, actions);
      && (forall t, u | 0 <= t < |s.threads| && 0 <= u < |s.threads| ::
            InRound(s.threads[t].pc) && InRound(s.threads[u].pc) ==> t == u)
      && (forall t | 0 <= t < |s.threads| && InRound(s.threads[t].pc) :: OldEnough(s.data.log, s.threads[t].pc.startedAt))
      && Spaced(s.data.log)
      && forall p | p in s.data.log :: p.startedAt <= p.at <= s.now
  {
    RunKeepsInvariant(cfg, actions);
    hide Run, Possible, ThreadOk, OldEnough, CacheOk, LocksOf, Mu;
    var s := Run(cfg, actions);
    forall t, u | 0 <= t < |s.threads| && 0 <= u < |s.threads| && InRound(s.threads[t].pc) && InRound(s.threads[u].pc)
      ensures t == u
    {
      if t != u {
        LocksExclude(s, t, u);
      }
    }
    forall t | 0 <= t < |s.threads| && InRound(s.threads[t].pc)
      ensures OldEnough(s.data.log, s.threads[t].pc.startedAt)
    {
      RoundStartedWell(cfg, s, t);
    }
    forall p | p in s.data.log ensures p.startedAt <= p.at <= s.now {
      assert PublicationOk(cfg, s, p);
    }
  }

  lemma RoundStartedWell(cfg: Config, s: State, t: nat)
    requires Invariant(cfg, s) && t < |s.threads| && InRound(s.threads[t].pc)
    ensures OldEnough(s.data.log, s.threads[t].pc.startedAt)
  {
    hide Locks, LogOk, CacheOk, Complete, OldEnough, OutcomeOk, CachedOk, UpstreamOk;
    assert ThreadOk(cfg, s, t);
  }

  // ---------------------------------------------------------------- published maps

  /** What is published stays published, and its map stays as it is. */
  ghost predicate KeepsPublished(d: Data, d': Data) {
    && d.log <= d'.log && d.upsLog <= d'.upsLog
    && (forall p | p in d.log :: p.owner in d.heap && p.owner in d'.heap && d'.heap[p.owner] == d.heap[p.owner])
    && (forall p | p in d.upsLog ::
          p.owner in d.fetched && p.owner in d'.fetched && d'.fetched[p.owner] == d.fetched[p.owner])
  }

  lemma StepKeepsPublished(cfg: Config, s: State, t: nat, c: Choice)
    requires Invariant(cfg, s) && CanStep(cfg, s, t, c)
    ensures KeepsPublished(s.data, StepOf(cfg, s, t, c).data)
  {
    var s' := StepOf(cfg, s, t, c);
    StepIsStep(cfg, s, t, c);
    FinishedForGood(cfg, s.data, s.now, t, s.threads[t], c);
    forall p | p in s.data.log
      ensures p.owner in s.data.heap && p.owner in s'.data.heap && s'.data.heap[p.owner] == s.data.heap[p.owner]
    {
      assert PublicationOk(cfg, s, p);
      PublicationStays(cfg, s, s', t, p);
    }
    forall p | p in s.data.upsLog
      ensures p.owner in s.data.fetched && p.owner in s'.data.fetched && s'.data.fetched[p.owner] == s.data.fetched[p.owner]
    {
      assert UpsPublicationOk(cfg, s, p);
      UpsPublicationStays(cfg, s, s', t, p);
    }
    hide StepOf, CanStep, Invariant;
    assert Stepped(s, s', t);
  }

  lemma ActionKeepsPublished(cfg: Config, s: State, a: Action)
    requires Invariant(cfg, s) && Enabled(cfg, s, a)
    ensures KeepsPublished(s.data, After(cfg, s, a).data)
  {
    match a
    case Step(t, c) => StepKeepsPublished(cfg, s, t, c);
    case _ =>
      hide Locks, CacheOk, ThreadOk;
      forall p | p in s.data.log ensures p.owner in s.data.heap {
        assert PublicationOk(cfg, s, p);
      }
      forall p | p in s.data.upsLog ensures p.owner in s.data.fetched {
        assert UpsPublicationOk(cfg, s, p);
      }
  }

  lemma PublishedChain(d: Data, d': Data, d'': Data)
    requires KeepsPublished(d, d') && KeepsPublished(d', d'')
    ensures KeepsPublished(d, d'')
  {
    forall p | p in d.log ensures p.owner in d''.heap && d''.heap[p.owner] == d.heap[p.owner] {
      assert p in d'.log;
    }
    forall p | p in d.upsLog ensures p.owner in d''.fetched && d''.fetched[p.owner] == d.fetched[p.owner] {
      assert p in d'.upsLog;
    }
  }

  /** From the moment a map is published, nothing changes it. */
  lemma {:induction false} PublishedNeverChanges(cfg: Config, actions: seq<Action>, k: nat)
    requires Possible(cfg, actions) && k <= |actions|
    ensures Possible(cfg, actions[..k]) && KeepsPublished(Run(cfg, actions[..k]).data, Run(cfg, actions).data)
  {
    if k == |actions| {
      assert actions[..k] == actions;
      RunKeepsInvariant(cfg, actions);
      hide Run, Possible, Locks, CacheOk, ThreadOk;
      var s := Run(cfg, actions);
      forall p | p in s.data.log ensures p.owner in s.data.heap {
        assert PublicationOk(cfg, s, p);
      }
      forall p | p in s.data.upsLog ensures p.owner in s.data.fetched {
        assert UpsPublicationOk(cfg, s, p);
      }
    } else {
      hide Enabled, After, Invariant, KeepsPublished;
      var rest := actions[..|actions| - 1];
      assert rest[..k] == actions[..k];
      PublishedNeverChanges(cfg, rest, k);
      RunKeepsInvariant(cfg, rest);
      ActionKeepsPublished(cfg, Run(cfg, rest), actions[|actions| - 1]);
      PublishedChain(Run(cfg, rest[..k]).data, Run(cfg, rest).data, Run(cfg, actions).data);
    }
  }

  /** What a call got, as its result says. */
  ghost predicate Returned(s: State, t: nat, o: Outcome) {
    t < |s.threads| && s.threads[t].pc == Done(o)
  }

  /** Every inventory map that is returned has been published and has exactly one entry for each environment,
      reachable or not. A call that does not refresh gets one younger than the cache lifetime, or than a second if
      that is longer, when it decided, or its own; a refreshing call gets one younger than a second, or its own. */
  lemma ReturnedInventories(cfg: Config, actions: seq<Action>, t: nat, o: Outcome)
    requires Possible(cfg, actions) && Returned(Run(cfg, actions), t, o) && o.Found?
    ensures
      var s := Run(cfg, actions);
      && o.entry < |s.data.log| && s.data.log[o.entry].owner == o.invs
      && o.invs in s.data.heap && s.data.heap[o.invs].Keys == cfg.environments
      && match o.verdict
         case Own => o.invs == t
         case Recent(at) =>
           var limit := if Refreshing(s.threads[t].call) || cfg.ttl < 1_000_000_000 then 1_000_000_000 else cfg.ttl;
           s.data.log[o.entry].at <= at < s.data.log[o.entry].at + limit
         case AnyAge => s.threads[t].call.CachedInventories?
  {
    RunKeepsInvariant(cfg, actions);
    hide Run, Possible;
    var s := Run(cfg, actions);
    assert ThreadOk(cfg, s, t);
    assert s.data.log[o.entry] in s.data.log;
    assert PublicationOk(cfg, s, s.data.log[o.entry]);
  }

  /** The unlocked read: it finds the very map that was judged fresh under the lock, still the last published. */
  lemma UnlockedReadIsJudged(cfg: Config, actions: seq<Action>, t: nat)
    requires Possible(cfg, actions) && t < |Run(cfg, actions).threads| && Run(cfg, actions).threads[t].pc.ReadUnlocked?
    ensures
      var s := Run(cfg, actions);
      var pc := s.threads[t].pc;
      && pc.judged.Some? && s.data.invs == pc.judged && LastOwner(s.data.log) == pc.judged
      && s.data.log[|s.data.log| - 1].at <= pc.decidedAt < s.data.log[|s.data.log| - 1].at + SECOND
  {
    RunKeepsInvariant(cfg, actions);
    hide Run, Possible;
    assert ThreadOk(cfg, Run(cfg, actions), t);
  }

  // ---------------------------------------------------------------- upstream releases

  /** Whoever may read finds cached releases and errors of one round, in which each name is in exactly one map. */
  lemma CachedUpstreamIsOneRound(cfg: Config, actions: seq<Action>)
    requires Possible(cfg, actions) && Run(cfg, actions).mu.writer.None?
    ensures
      var d := Run(cfg, actions).data;
      && d.ups == d.errs
      && (d.ups.Some? ==>
            && d.ups.value in d.fetched
            && d.fetched[d.ups.value].found.Keys !! d.fetched[d.ups.value].failed.Keys)
  {
    RunKeepsInvariant(cfg, actions);
    hide Run, Possible;
    var s := Run(cfg, actions);
    LastPublished(cfg, s);
  }

  /** Each requested name that has an upstream comes back in exactly one of the two maps, from the cache or a new round. */
  lemma UpstreamCovered(cfg: Config, actions: seq<Action>, t: nat, o: Outcome, name: string)
    requires Possible(cfg, actions) && Returned(Run(cfg, actions), t, o) && o.Releases?
    requires Run(cfg, actions).threads[t].call.UpstreamFor? ==> name in Run(cfg, actions).threads[t].call.names
    requires cfg.tracked(name)
    ensures
      var s := Run(cfg, actions);
      && s.threads[t].call.UpstreamFor? && o.ups == o.errs && o.ups in s.data.fetched
      && (name in s.data.fetched[o.ups].found <==> name !in s.data.fetched[o.errs].failed)
  {
    RunKeepsInvariant(cfg, actions);
    hide Run, Possible;
    var s := Run(cfg, actions);
    assert ThreadOk(cfg, s, t);
    assert s.data.upsLog[o.entry] in s.data.upsLog;
    assert UpsPublicationOk(cfg, s, s.data.upsLog[o.entry]);
    assert name in Wanted(cfg, s.threads[t].call.names);
    InExactlyOne(s.data.fetched[o.ups], name);
  }

  lemma InExactlyOne(f: Fetches, name: string)
    requires f.found.Keys !! f.failed.Keys && (name in f.found || name in f.failed)
    ensures name in f.found <==> name !in f.failed
  {
    assert name in f.found.Keys <==> name in f.found;
    assert name in f.failed.Keys <==> name in f.failed;
  }

  /** A call that takes releases from the cache did not ask for a refresh, and they were younger than the lifetime. */
  lemma UpstreamRecent(cfg: Config, actions: seq<Action>, t: nat, o: Outcome)
    requires Possible(cfg, actions) && Returned(Run(cfg, actions), t, o) && o.Releases? && !o.verdict.Own?
    ensures
      var s := Run(cfg, actions);
      && o.verdict.Recent? && o.entry < |s.data.upsLog|
      && s.threads[t].call.UpstreamFor? && !s.threads[t].call.refreshUpstream
      && s.data.upsLog[o.entry].at <= o.verdict.decidedAt < s.data.upsLog[o.entry].at + cfg.ttl
  {
    RunKeepsInvariant(cfg, actions);
    hide Run, Possible;
    assert ThreadOk(cfg, Run(cfg, actions), t);
  }

  /** A round never has more than four fetches running, and none for a name without an upstream. */
  lemma FetchesBounded(cfg: Config, actions: seq<Action>, t: nat)
    requires Possible(cfg, actions) && t < |Run(cfg, actions).threads| && Run(cfg, actions).threads[t].pc.UpsRound?
    ensures
      var th := Run(cfg, actions).threads[t];
      |th.pc.running| <= 4 && th.call.UpstreamFor? && forall n | n in th.pc.running :: n in th.call.names && cfg.tracked(n)
  {
    RunKeepsInvariant(cfg, actions);
    hide Run, Possible, RoundDone;
    assert ThreadOk(cfg, Run(cfg, actions), t);
  }

  /** The cached input is consistent: its inventories were published, and its releases and errors are of one round. */
  lemma CachedInputConsistent(cfg: Config, actions: seq<Action>, t: nat, o: Outcome)
    requires Possible(cfg, actions) && Returned(Run(cfg, actions), t, o) && o.Input?
    ensures
      var d := Run(cfg, actions).data;
      && o.invs in d.heap && d.heap[o.invs].Keys == cfg.environments
      && o.inputUps == o.inputErrs
      && (o.inputUps.Some? ==>
            && o.inputUps.value in d.fetched
            && d.fetched[o.inputUps.value].found.Keys !! d.fetched[o.inputUps.value].failed.Keys)
  {
    RunKeepsInvariant(cfg, actions);
    hide Run, Possible;
    var s := Run(cfg, actions);
    assert ThreadOk(cfg, s, t);
    assert s.data.log[o.entry] in s.data.log;
    assert PublicationOk(cfg, s, s.data.log[o.entry]);
    if o.inputUps.Some? {
      assert s.data.upsLog[o.upsEntry.value] in s.data.upsLog;
      assert UpsPublicationOk(cfg, s, s.data.upsLog[o.upsEntry.value]);
    }
  }

  // ---------------------------------------------------------------- later calls get no older maps

  /** A result that takes nothing published before the given places of the two logs. */
  predicate NotBefore(o: Outcome, log: nat, upsLog: nat) {
    match o
    case Found(_, entry, _) => entry + 1 >= log
    case Input(_, entry, _, _, upsEntry) =>
      entry + 1 >= log && (if upsEntry.Some? then upsEntry.value + 1 else 0) >= upsLog
    case Releases(_, _, entry, _) => entry + 1 >= upsLog
    case _ => true
  }

  predicate ResultNotBefore(pc: Pc, log: nat, upsLog: nat) {
    pc.Return? || pc.Done? ==> NotBefore(pc.result, log, upsLog)
  }

  lemma ActNotBefore(cfg: Config, d: Data, now: nat, t: nat, th: Thread, c: Choice, log: nat, upsLog: nat)
    requires Act(cfg, d, now, t, th, c).Some? && log <= |d.log| && upsLog <= |d.upsLog|
    requires ResultNotBefore(th.pc, log, upsLog)
    ensures ResultNotBefore(Act(cfg, d, now, t, th, c).value.pc, log, upsLog)
  {
    hide WorkerResult, AddFetch, Covers, CachedFetches;
    if CachedPc(th.pc) {
      hide ActInventories, ActUpstream;
    } else if UpstreamPc(th.pc) {
      hide ActInventories, ActCached;
    } else {
      hide ActUpstream, ActCached;
    }
  }

  lemma {:induction false} LaterCallsNotBefore(cfg: Config, actions: seq<Action>, k: nat, u: nat)
    requires Possible(cfg, actions) && k <= |actions| && Possible(cfg, actions[..k])
    requires |Run(cfg, actions[..k]).threads| <= u < |Run(cfg, actions).threads|
    ensures
      var d := Run(cfg, actions[..k]).data;
      ResultNotBefore(Run(cfg, actions).threads[u].pc, |d.log|, |d.upsLog|)
  {
    assert actions[..|actions|] == actions;
    if k < |actions| {
      var rest, a := actions[..|actions| - 1], actions[|actions| - 1];
      assert rest[..k] == actions[..k];
      var d, before := Run(cfg, actions[..k]).data, Run(cfg, rest);
      PublishedNeverChanges(cfg, rest, k);
      if u < |before.threads| {
        LaterCallsNotBefore(cfg, rest, k, u);
      }
      assert |d.log| <= |before.data.log| && |d.upsLog| <= |before.data.upsLog|;
      OneActionNotBefore(cfg, before, a, u, |d.log|, |d.upsLog|);
    }
  }

  lemma OneActionNotBefore(cfg: Config, s: State, a: Action, u: nat, log: nat, upsLog: nat)
    requires Enabled(cfg, s, a) && log <= |s.data.log| && upsLog <= |s.data.upsLog| && u < |After(cfg, s, a).threads|
    requires u < |s.threads| ==> ResultNotBefore(s.threads[u].pc, log, upsLog)
    ensures ResultNotBefore(After(cfg, s, a).threads[u].pc, log, upsLog)
  {
    match a
    case Tick(_) =>
    case Start(call) =>
      assert !FirstPc(cfg, call).Return?;
    case Step(t, c) =>
      if t == u {
        ActNotBefore(cfg, s.data, s.now, t, s.threads[t], c, log, upsLog);
      }
      hide Act, Mu, HoldsRefresh, CanMove, Move, ResultNotBefore;
  }

  /** Where the inventories of a result stand in their log, if it has any; and likewise its releases. */
  function InvsPlace(o: Outcome): Option<nat> {
    if o.Found? || o.Input? then Some(o.entry) else None
  }

  function UpsPlace(o: Outcome): Option<nat> {
    if o.Releases? then Some(o.entry) else if o.Input? then o.upsEntry else None
  }

  /** A call that starts after another has returned, whatever the two are, never gets an older publication than the
      other did; and cached input that follows releases has releases. */
  lemma ResultsNeverGoBack(cfg: Config, actions: seq<Action>, k: nat, t: nat, u: nat, first: Outcome, second: Outcome)
    requires Possible(cfg, actions) && k <= |actions| && Possible(cfg, actions[..k])
    requires Returned(Run(cfg, actions[..k]), t, first) && |Run(cfg, actions[..k]).threads| <= u
    requires Returned(Run(cfg, actions), u, second)
    ensures InvsPlace(first).Some? && InvsPlace(second).Some? ==> InvsPlace(first).value <= InvsPlace(second).value
    ensures UpsPlace(first).Some? && UpsPlace(second).Some? ==> UpsPlace(first).value <= UpsPlace(second).value
    ensures UpsPlace(first).Some? && second.Input? ==> UpsPlace(second).Some?
  {
    RunKeepsInvariant(cfg, actions[..k]);
    LaterCallsNotBefore(cfg, actions, k, u);
    hide Run, Possible;
    assert ThreadOk(cfg, Run(cfg, actions[..k]), t);
  }

  // ---------------------------------------------------------------- no deadlock

  /** In any state time may pass, or not, and any call may start. */
  lemma OutsideNeverWaits(cfg: Config, actions: seq<Action>, to: nat, call: Call)
    requires Possible(cfg, actions)
    ensures to >= Run(cfg, actions).now ==> Possible(cfg, actions + [Tick(to)])
    ensures Possible(cfg, actions + [Start(call)])
  {
    assert (actions + [Tick(to)])[..|actions|] == actions && (actions + [Start(call)])[..|actions|] == actions;
  }

  /** Nobody waits for the refresh lock while holding or awaiting the data lock. */
  lemma NoHoldAndWait(cfg: Config, actions: seq<Action>, t: nat)
    requires Possible(cfg, actions) && t < |Run(cfg, actions).threads| && Run(cfg, actions).threads[t].pc.WantRefresh?
    ensures
      var s := Run(cfg, actions);
      t !in s.mu.readers && s.mu.waiting != Some(t) && s.mu.writer != Some(t)
  {
    RunKeepsInvariant(cfg, actions);
    hide Run, Possible;
    var s := Run(cfg, actions);
    assert LocksOf(s, t, s.threads[t].pc);
  }

  /** A thread that is not done has something to do, the locks permitting. */
  lemma HasWork(cfg: Config, s: State, t: nat) returns (c: Choice)
    requires Invariant(cfg, s) && t < |s.threads| && !s.threads[t].pc.Done?
    ensures Act(cfg, s.data, s.now, t, s.threads[t], c).Some?
  {
    var call, pc := s.threads[t].call, s.threads[t].pc;
    assert ThreadOk(cfg, s, t);
    InvariantIsKnown(cfg, s, t);
    hide Invariant, Known, InventoriesOk, CachedOk, UpstreamOk, ActInventories, ActCached, ActUpstream;
    if CachedPc(pc) {
      CachedHasWork(cfg, s, t, call, pc);
      c := Go;
    } else if UpstreamPc(pc) {
      c := UpstreamHasWork(cfg, s, t, call, pc);
    } else {
      c := InventoriesHasWork(cfg, s, t, call, pc);
    }
  }

  lemma CachedHasWork(cfg: Config, s: State, t: nat, call: Call, pc: Pc)
    requires Known(cfg, s, t) && CachedPc(pc) && CachedOk(cfg, s, call, pc)
    ensures ActCached(s.data, pc).Some?
  {
    hide PublicationOk, UpsPublicationOk, Whole, Mu;
  }

  lemma UpstreamHasWork(cfg: Config, s: State, t: nat, call: Call, pc: Pc) returns (c: Choice)
    requires Known(cfg, s, t) && UpstreamPc(pc) && UpstreamOk(cfg, s, t, call, pc) && s.threads[t].pc == pc
    ensures ActUpstream(cfg, s.data, s.now, t, call, pc, c).Some?
  {
    hide PublicationOk, UpsPublicationOk, RoundDone, Covers, CachedFetches, AddFetch, Wanted;
    if pc.UpsRound? && pc.running != {} {
      var name :| name in pc.running;
      c := EndFetch(name, None, "");
    } else if pc.UpsRound? && pc.todo != {} {
      var name :| name in pc.todo;
      c := StartFetch(name);
    } else {
      c := Go;
    }
  }

  lemma InventoriesHasWork(cfg: Config, s: State, t: nat, call: Call, pc: Pc) returns (c: Choice)
    requires Known(cfg, s, t) && !CachedPc(pc) && !UpstreamPc(pc) && !pc.Done? && InventoriesOk(cfg, s, t, call, pc)
    ensures ActInventories(cfg, s.data, s.now, t, call, pc, c).Some?
  {
    hide PublicationOk, UpsPublicationOk, OutcomeOk, Complete, WorkerResult, Whole, Mu;
    if pc.Round? && pc.todo != {} {
      var env :| env in pc.todo;
      c := Worker(env, None, "");
    } else {
      c := Go;
    }
  }

  /** What a step may ask of the locks. */
  lemma NextMode(cfg: Config, d: Data, now: nat, t: nat, th: Thread, c: Choice)
    requires Act(cfg, d, now, t, th, c).Some?
    ensures
      var pc, to := th.pc, Act(cfg, d, now, t, th, c).value.pc;
      && (Mu(pc) == Reading ==> Mu(to) == Reading || Mu(to) == Free)
      && (Mu(pc) == Writing ==> Mu(to) == Writing || Mu(to) == Free)
      && (Mu(pc) == Waiting ==> Mu(to) == Writing)
      && (Mu(pc) == Free ==> Mu(to) != Writing)
      && (!HoldsRefresh(pc) && HoldsRefresh(to) ==> pc.WantRefresh?)
      && (pc.WantRefresh? ==> Mu(to) == Free)
  {
    hide ActInventories, ActCached, ActUpstream, Mu, HoldsRefresh;
    if CachedPc(th.pc) {
      CachedNextMode(cfg, d, now, t, th, c);
    } else if UpstreamPc(th.pc) {
      UpstreamNextMode(cfg, d, now, t, th, c);
    } else {
      InventoriesNextMode(cfg, d, now, t, th, c);
    }
  }

  predicate AnyMode(s: State, mode: MuMode) {
    exists u | 0 <= u < |s.threads| :: Mu(s.threads[u].pc) == mode
  }

  predicate AnyRefresher(s: State) {
    exists u | 0 <= u < |s.threads| :: HoldsRefresh(s.threads[u].pc)
  }

  /** The locks keep a call that can go on from its next step exactly when it is about to read, or to queue as a
      writer, while one waits or writes; when it is first in the queue while others read; and when it wants refreshMu
      while another has it. Readers do not keep out readers. */
  lemma WaitsExactly(cfg: Config, actions: seq<Action>, t: nat, c: Choice)
    requires Possible(cfg, actions) && t < |Run(cfg, actions).threads|
    requires
      var s := Run(cfg, actions);
      Act(cfg, s.data, s.now, t, s.threads[t], c).Some?
    ensures
      var s := Run(cfg, actions);
      var pc, to := s.threads[t].pc, Act(cfg, s.data, s.now, t, s.threads[t], c).value.pc;
      !CanStep(cfg, s, t, c) <==>
      || (Mu(pc) == Free && Mu(to) != Free && (AnyMode(s, Waiting) || AnyMode(s, Writing)))
      || (Mu(pc) == Waiting && AnyMode(s, Reading))
      || (pc.WantRefresh? && AnyRefresher(s))
  {
    RunKeepsInvariant(cfg, actions);
    var s := Run(cfg, actions);
    hide Run, Possible, Act, Mu, HoldsRefresh, LogOk, CacheOk, ThreadOk;
    NextMode(cfg, s.data, s.now, t, s.threads[t], c);
    if s.threads[t].pc.WantRefresh? {
      RefreshWanted(cfg, s.data, s.now, t, s.threads[t], c);
    }
    LocksByThreads(s);
    assert LocksOf(s, t, s.threads[t].pc);
  }

  lemma RefreshWanted(cfg: Config, d: Data, now: nat, t: nat, th: Thread, c: Choice)
    requires th.pc.WantRefresh? && Act(cfg, d, now, t, th, c).Some?
    ensures HoldsRefresh(Act(cfg, d, now, t, th, c).value.pc) && !HoldsRefresh(th.pc) && Mu(th.pc) == Free
  {
  }

  lemma LocksByThreads(s: State)
    requires Locks(s)
    ensures AnyMode(s, Waiting) <==> s.mu.waiting.Some?
    ensures AnyMode(s, Writing) <==> s.mu.writer.Some?
    ensures AnyMode(s, Reading) <==> s.mu.readers != {}
    ensures AnyRefresher(s) <==> s.refreshMu.Some?
  {
    hide Mu, HoldsRefresh;
    forall u | 0 <= u < |s.threads| ensures LocksOf(s, u, s.threads[u].pc) {
    }
    if s.mu.waiting.Some? {
      assert Mu(s.threads[s.mu.waiting.value].pc) == Waiting;
    }
    if s.mu.writer.Some? {
      assert Mu(s.threads[s.mu.writer.value].pc) == Writing;
    }
    if u :| u in s.mu.readers {
      assert Mu(s.threads[u].pc) == Reading;
    }
    if s.refreshMu.Some? {
      assert HoldsRefresh(s.threads[s.refreshMu.value].pc);
    }
  }

  lemma CachedNextMode(cfg: Config, d: Data, now: nat, t: nat, th: Thread, c: Choice)
    requires CachedPc(th.pc) && ActCached(d, th.pc).Some?
    ensures
      var pc, to := th.pc, ActCached(d, th.pc).value.pc;
      && (Mu(pc) == Reading ==> Mu(to) == Reading || Mu(to) == Free)
      && (Mu(pc) == Writing ==> Mu(to) == Writing || Mu(to) == Free)
      && (Mu(pc) == Waiting ==> Mu(to) == Writing)
      && (Mu(pc) == Free ==> Mu(to) != Writing)
      && (!HoldsRefresh(pc) && HoldsRefresh(to) ==> pc.WantRefresh?)
      && (pc.WantRefresh? ==> Mu(to) == Free)
  {
    hide Wanted;
  }

  lemma UpstreamNextMode(cfg: Config, d: Data, now: nat, t: nat, th: Thread, c: Choice)
    requires UpstreamPc(th.pc) && ActUpstream(cfg, d, now, t, th.call, th.pc, c).Some?
    ensures
      var pc, to := th.pc, ActUpstream(cfg, d, now, t, th.call, th.pc, c).value.pc;
      && (Mu(pc) == Reading ==> Mu(to) == Reading || Mu(to) == Free)
      && (Mu(pc) == Writing ==> Mu(to) == Writing || Mu(to) == Free)
      && (Mu(pc) == Waiting ==> Mu(to) == Writing)
      && (Mu(pc) == Free ==> Mu(to) != Writing)
      && (!HoldsRefresh(pc) && HoldsRefresh(to) ==> pc.WantRefresh?)
      && (pc.WantRefresh? ==> Mu(to) == Free)
  {
    hide ActUpstream, Mu, HoldsRefresh;
    UpstreamNeverRefreshes(cfg, d, now, t, th, c);
    UpstreamNextMu(cfg, d, now, t, th, c);
  }

  lemma UpstreamNeverRefreshes(cfg: Config, d: Data, now: nat, t: nat, th: Thread, c: Choice)
    requires UpstreamPc(th.pc) && ActUpstream(cfg, d, now, t, th.call, th.pc, c).Some?
    ensures !HoldsRefresh(ActUpstream(cfg, d, now, t, th.call, th.pc, c).value.pc)
  {
    hide Wanted, AddFetch, Covers, CachedFetches;
  }

  lemma UpstreamNextMu(cfg: Config, d: Data, now: nat, t: nat, th: Thread, c: Choice)
    requires UpstreamPc(th.pc) && ActUpstream(cfg, d, now, t, th.call, th.pc, c).Some?
    ensures
      var from, to := Mu(th.pc), Mu(ActUpstream(cfg, d, now, t, th.call, th.pc, c).value.pc);
      && (from == Reading ==> to == Reading || to == Free)
      && (from == Writing ==> to == Writing || to == Free)
      && (from == Waiting ==> to == Writing)
      && (from == Free ==> to != Writing)
  {
    hide ActUpstream;
    UpstreamInTurn(cfg, d, now, t, th, c);
  }

  /** The program points of upstreamFor, one after the other. */
  predicate InTurn(pc: Pc, to: Pc) {
    match pc
    case WantUpsCheck => to.UpsCheck?
    case UpsCheck => to.UpsHit? || to.UpsMiss?
    case UpsHit(_) => to.UpsHitErrs?
    case UpsMiss => to.UpsRound?
    case UpsRound(_, _, _) => to.UpsRound? || to.UpsWantWrite?
    case UpsWantWrite(_) => to.UpsAwaitWrite?
    case UpsAwaitWrite(_) => to.UpsStamp?
    case UpsStamp(_) => to.SetUps?
    case SetUps(_, _) => to.SetErrs?
    case SetErrs(_) => to.SetUpsAt?
    case SetUpsAt(_) => to.UpsWritten?
    case _ => to.Done?
  }

  lemma UpstreamInTurn(cfg: Config, d: Data, now: nat, t: nat, th: Thread, c: Choice)
    requires UpstreamPc(th.pc) && ActUpstream(cfg, d, now, t, th.call, th.pc, c).Some?
    ensures InTurn(th.pc, ActUpstream(cfg, d, now, t, th.call, th.pc, c).value.pc)
  {
    hide Wanted, AddFetch, Covers, CachedFetches;
  }

  lemma InventoriesNextMode(cfg: Config, d: Data, now: nat, t: nat, th: Thread, c: Choice)
    requires !CachedPc(th.pc) && !UpstreamPc(th.pc) && ActInventories(cfg, d, now, t, th.call, th.pc, c).Some?
    ensures
      var pc, to := th.pc, ActInventories(cfg, d, now, t, th.call, th.pc, c).value.pc;
      && (Mu(pc) == Reading ==> Mu(to) == Reading || Mu(to) == Free)
      && (Mu(pc) == Writing ==> Mu(to) == Writing || Mu(to) == Free)
      && (Mu(pc) == Waiting ==> Mu(to) == Writing)
      && (Mu(pc) == Free ==> Mu(to) != Writing)
      && (!HoldsRefresh(pc) && HoldsRefresh(to) ==> pc.WantRefresh?)
      && (pc.WantRefresh? ==> Mu(to) == Free)
  {
    hide WorkerResult, Refreshing;
  }

  lemma Ready(cfg: Config, s: State, t: nat) returns (c: Choice)
    requires Invariant(cfg, s) && t < |s.threads| && !s.threads[t].pc.Done?
    requires Mu(s.threads[t].pc) == Free ==> s.mu.waiting.None? && s.mu.writer.None?
    requires Mu(s.threads[t].pc) == Waiting ==> s.mu.readers == {}
    requires s.threads[t].pc.WantRefresh? ==> s.refreshMu.None?
    ensures CanStep(cfg, s, t, c)
  {
    c := HasWork(cfg, s, t);
    NextMode(cfg, s.data, s.now, t, s.threads[t], c);
    hide Act, Mu, HoldsRefresh, Invariant;
  }

  /** No reachable state is deadlocked: as long as a call has not returned, some thread can take a step. */
  lemma NeverStuck(cfg: Config, actions: seq<Action>, unfinished: nat) returns (t: nat, c: Choice)
    requires Possible(cfg, actions) && unfinished < |Run(cfg, actions).threads|
    requires !Run(cfg, actions).threads[unfinished].pc.Done?
    ensures CanStep(cfg, Run(cfg, actions), t, c)
  {
    RunKeepsInvariant(cfg, actions);
    hide Run, Possible, CanStep;
    var s := Run(cfg, actions);
    t := Runnable(cfg, s, unfinished);
    c := Ready(cfg, s, t);
  }

  lemma Runnable(cfg: Config, s: State, unfinished: nat) returns (t: nat)
    requires Invariant(cfg, s) && unfinished < |s.threads| && !s.threads[unfinished].pc.Done?
    ensures t < |s.threads| && !s.threads[t].pc.Done?
    ensures Mu(s.threads[t].pc) == Free ==> s.mu.waiting.None? && s.mu.writer.None?
    ensures Mu(s.threads[t].pc) == Waiting ==> s.mu.readers == {}
    ensures s.threads[t].pc.WantRefresh? ==> s.refreshMu.None?
  {
    hide LogOk, CacheOk, ThreadOk;
    if s.mu.writer.Some? {
      t := s.mu.writer.value;
    } else if s.mu.readers != {} {
      t :| t in s.mu.readers;
    } else if s.mu.waiting.Some? {
      t := s.mu.waiting.value;
    } else if s.threads[unfinished].pc.WantRefresh? && s.refreshMu.Some? {
      t := s.refreshMu.value;
    } else {
      t := unfinished;
    }
    assert LocksOf(s, t, s.threads[t].pc);
  }

  // ---------------------------------------------------------------- every call returns

  /** An upper bound on the steps a thread still takes. */
  function Rank(cfg: Config, th: Thread): nat {
    var e := |cfg.environments|;
    var w := if th.call.UpstreamFor? then |Wanted(cfg, th.call.names)| else 0;
    match th.pc
    case WantCached => 18 + e
    case ReadCached => 17 + e
    case GotCached(_) => 16 + e
    case WantCheck => 15 + e
    case Check => 14 + e
    case Miss => 13 + e
    case WantRefresh => 12 + e
    case WantRecheck => 11 + e
    case Recheck => 10 + e
    case Rechecked(_, _) => 9 + e
    case Round(_, todo) => 8 + |todo|
    case WantWrite(_) => 7
    case AwaitWrite(_) => 6
    case Stamp(_) => 5
    case SetInvs(_, _) => 4
    case SetInvsAt(_) => 3
    case Written => 2
    case ReadUnlocked(_, _) => 2
    case Hit(_) => 1
    case Return(_) => 1
    case Done(_) => 0
    case WantInput => 4
    case ReadInput => 3
    case GotInvs(_) => 2
    case GotUps(_, _) => 1
    case WantUpsCheck => 11 + 2 * w
    case UpsCheck => 10 + 2 * w
    case UpsMiss => 9 + 2 * w
    case UpsHit(_) => 2
    case UpsHitErrs(_, _) => 1
    case UpsRound(_, todo, running) => 8 + 2 * |todo| + |running|
    case UpsWantWrite(_) => 7
    case UpsAwaitWrite(_) => 6
    case UpsStamp(_) => 5
    case SetUps(_, _) => 4
    case SetErrs(_) => 3
    case SetUpsAt(_) => 2
    case UpsWritten => 1
  }

  lemma StepLowersRank(cfg: Config, d: Data, now: nat, t: nat, th: Thread, c: Choice)
    requires Act(cfg, d, now, t, th, c).Some?
    requires th.pc.UpsRound? ==> th.pc.todo !! th.pc.running
    ensures Rank(cfg, th.(pc := Act(cfg, d, now, t, th, c).value.pc)) < Rank(cfg, th)
  {
    hide ActInventories, ActCached, ActUpstream, Rank;
    if CachedPc(th.pc) {
      CachedLowersRank(cfg, d, th);
    } else if th.pc.UpsRound? {
      UpsRoundLowersRank(cfg, d, now, t, th, c);
    } else if UpstreamPc(th.pc) {
      UpstreamLowersRank(cfg, d, now, t, th, c);
    } else {
      InventoriesLowersRank(cfg, d, now, t, th, c);
    }
  }

  lemma CachedLowersRank(cfg: Config, d: Data, th: Thread)
    requires CachedPc(th.pc) && ActCached(d, th.pc).Some?
    ensures Rank(cfg, th.(pc := ActCached(d, th.pc).value.pc)) < Rank(cfg, th)
  {
    hide Wanted;
  }

  lemma UpsRoundLowersRank(cfg: Config, d: Data, now: nat, t: nat, th: Thread, c: Choice)
    requires th.pc.UpsRound? && th.pc.todo !! th.pc.running && ActUpstream(cfg, d, now, t, th.call, th.pc, c).Some?
    ensures Rank(cfg, th.(pc := ActUpstream(cfg, d, now, t, th.call, th.pc, c).value.pc)) < Rank(cfg, th)
  {
    hide Wanted, AddFetch;
    FewerToFetch(th.pc.todo, th.pc.running, c);
  }

  lemma UpstreamLowersRank(cfg: Config, d: Data, now: nat, t: nat, th: Thread, c: Choice)
    requires UpstreamPc(th.pc) && !th.pc.UpsRound? && ActUpstream(cfg, d, now, t, th.call, th.pc, c).Some?
    ensures Rank(cfg, th.(pc := ActUpstream(cfg, d, now, t, th.call, th.pc, c).value.pc)) < Rank(cfg, th)
  {
    hide Wanted, AddFetch, Covers, CachedFetches;
  }

  lemma InventoriesLowersRank(cfg: Config, d: Data, now: nat, t: nat, th: Thread, c: Choice)
    requires !CachedPc(th.pc) && !UpstreamPc(th.pc) && ActInventories(cfg, d, now, t, th.call, th.pc, c).Some?
    ensures Rank(cfg, th.(pc := ActInventories(cfg, d, now, t, th.call, th.pc, c).value.pc)) < Rank(cfg, th)
  {
    if RoundPc(th.pc) {
      DiscoveryLowersRank(cfg, d, now, t, th, c);
    } else {
      OutsideDiscoveryLowersRank(cfg, d, now, t, th, c);
    }
  }

  lemma DiscoveryLowersRank(cfg: Config, d: Data, now: nat, t: nat, th: Thread, c: Choice)
    requires th.pc.Rechecked? || th.pc.Round?
    requires ActInventories(cfg, d, now, t, th.call, th.pc, c).Some?
    ensures Rank(cfg, th.(pc := ActInventories(cfg, d, now, t, th.call, th.pc, c).value.pc)) < Rank(cfg, th)
  {
    hide Wanted, WorkerResult;
    assert th.pc.Round? && c.Worker? && c.env in th.pc.todo ==> |th.pc.todo - {c.env}| == |th.pc.todo| - 1;
  }

  lemma OutsideDiscoveryLowersRank(cfg: Config, d: Data, now: nat, t: nat, th: Thread, c: Choice)
    requires !CachedPc(th.pc) && !UpstreamPc(th.pc) && !RoundPc(th.pc)
    requires ActInventories(cfg, d, now, t, th.call, th.pc, c).Some?
    ensures Rank(cfg, th.(pc := ActInventories(cfg, d, now, t, th.call, th.pc, c).value.pc)) < Rank(cfg, th)
  {
    hide Wanted, WorkerResult, Refreshing;
  }

  lemma FewerToFetch(todo: set<string>, running: set<string>, c: Choice)
    requires todo !! running
    ensures c.StartFetch? && c.name in todo ==> |todo - {c.name}| == |todo| - 1 && |running + {c.name}| == |running| + 1
    ensures c.EndFetch? && c.name in running ==> |running - {c.name}| == |running| - 1
  {
  }

  function Total(cfg: Config, threads: seq<Thread>): nat {
    if threads == [] then 0 else Total(cfg, threads[..|threads| - 1]) + Rank(cfg, threads[|threads| - 1])
  }

  lemma {:induction false} TotalOfUpdate(cfg: Config, threads: seq<Thread>, t: nat, th: Thread)
    requires t < |threads|
    ensures Total(cfg, threads[t := th]) == Total(cfg, threads) - Rank(cfg, threads[t]) + Rank(cfg, th)
  {
    hide Rank;
    var last := |threads| - 1;
    if t == last {
      assert threads[t := th][..last] == threads[..last];
    } else {
      assert threads[t := th][..last] == threads[..last][t := th];
      TotalOfUpdate(cfg, threads[..last], t, th);
    }
  }

  function Steps(actions: seq<Action>): nat {
    if actions == [] then 0 else Steps(actions[..|actions| - 1]) + if actions[|actions| - 1].Step? then 1 else 0
  }

  /** The most steps the calls started can take together. */
  function Budget(cfg: Config, actions: seq<Action>): nat {
    if actions == [] then 0
    else
      var a := actions[|actions| - 1];
      Budget(cfg, actions[..|actions| - 1]) + if a.Start? then Rank(cfg, Thread(a.call, FirstPc(cfg, a.call))) else 0
  }

  lemma ActionSpends(cfg: Config, s: State, a: Action)
    requires Invariant(cfg, s) && Enabled(cfg, s, a)
    ensures
      Total(cfg, After(cfg, s, a).threads) + (if a.Step? then 1 else 0)
      <= Total(cfg, s.threads) + if a.Start? then Rank(cfg, Thread(a.call, FirstPc(cfg, a.call))) else 0
  {
    match a
    case Tick(_) =>
    case Start(call) =>
      hide Rank, FirstPc;
      assert (s.threads + [Thread(call, FirstPc(cfg, call))])[..|s.threads|] == s.threads;
    case Step(t, c) =>
      assert s.threads[t].pc.UpsRound? ==> s.threads[t].pc.todo !! s.threads[t].pc.running by {
        assert ThreadOk(cfg, s, t);
      }
      hide Act, Rank, Invariant, Move, CanMove, Mu;
      StepLowersRank(cfg, s.data, s.now, t, s.threads[t], c);
      TotalOfUpdate(cfg, s.threads, t, After(cfg, s, a).threads[t]);
  }

  /** The steps of any run are bounded by the calls it starts: no call goes on for ever. */
  lemma {:induction false} StepsBounded(cfg: Config, actions: seq<Action>)
    requires Possible(cfg, actions)
    ensures Steps(actions) + Total(cfg, Run(cfg, actions).threads) <= Budget(cfg, actions)
  {
    if actions != [] {
      hide Rank, FirstPc, Invariant, Enabled, After;
      StepsBounded(cfg, actions[..|actions| - 1]);
      RunKeepsInvariant(cfg, actions[..|actions| - 1]);
      ActionSpends(cfg, Run(cfg, actions[..|actions| - 1]), actions[|actions| - 1]);
    }
  }

  /** When no thread can take a step any more, every call has returned. */
  lemma AllReturn(cfg: Config, actions: seq<Action>)
    requires Possible(cfg, actions)
    requires forall t, c :: !CanStep(cfg, Run(cfg, actions), t, c)
    ensures forall t | 0 <= t < |Run(cfg, actions).threads| :: Run(cfg, actions).threads[t].pc.Done?
  {
    hide Run, Possible;
    forall t | 0 <= t < |Run(cfg, actions).threads| ensures Run(cfg, actions).threads[t].pc.Done? {
      if !Run(cfg, actions).threads[t].pc.Done? {
        var u, c := NeverStuck(cfg, actions, t);
        assert false;
      }
    }
  }

  lemma StepExtends(cfg: Config, actions: seq<Action>, t: nat, c: Choice)
    requires Possible(cfg, actions) && CanStep(cfg, Run(cfg, actions), t, c)
    ensures
      var longer := actions + [Step(t, c)];
      && Possible(cfg, longer)
      && |Run(cfg, longer).threads| == |Run(cfg, actions).threads|
      && Total(cfg, Run(cfg, longer).threads) < Total(cfg, Run(cfg, actions).threads)
  {
    var longer := actions + [Step(t, c)];
    assert longer[..|actions|] == actions;
    hide Invariant, Total, CanStep, Rank, Act, Mu, HoldsRefresh, Move;
    RunKeepsInvariant(cfg, actions);
    ActionSpends(cfg, Run(cfg, actions), Step(t, c));
  }

  /** From every reachable state, steps alone can bring every call to its return. */
  lemma {:induction false} EveryCallCanReturn(cfg: Config, actions: seq<Action>) returns (longer: seq<Action>)
    requires Possible(cfg, actions)
    ensures Possible(cfg, longer) && actions <= longer
    ensures |Run(cfg, longer).threads| == |Run(cfg, actions).threads|
    ensures forall t | 0 <= t < |Run(cfg, longer).threads| :: Run(cfg, longer).threads[t].pc.Done?
    decreases Total(cfg, Run(cfg, actions).threads)
  {
    hide Run, Possible, Total, CanStep;
    if unfinished :| 0 <= unfinished < |Run(cfg, actions).threads| && !Run(cfg, actions).threads[unfinished].pc.Done? {
      var t, c := NeverStuck(cfg, actions, unfinished);
      StepExtends(cfg, actions, t, c);
      longer := EveryCallCanReturn(cfg, actions + [Step(t, c)]);
    } else {
      longer := actions;
    }
  }
}
