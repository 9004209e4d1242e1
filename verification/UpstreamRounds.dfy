/** Upstream rounds, which unlike discovery rounds run side by side: when the result of one is overwritten by that
    of an older one (internal/service). */
module UpstreamRounds {
  import opened Options
  import opened RefreshInvariant
  import opened RefreshLaws
  import opened RefreshProtocol

  /** In its round, and not published yet. */
  predicate Busy(pc: Pc) {
    pc.UpsRound? || pc.UpsWantWrite? || pc.UpsAwaitWrite? || pc.UpsStamp? || pc.SetUps?
  }

  /** Still fetching, or done with it but not in line for the write lock. */
  predicate Fetching(pc: Pc) {
    pc.UpsRound? || pc.UpsWantWrite?
  }

  predicate Owns(log: seq<Publication>, t: nat) {
    exists i | 0 <= i < |log| :: log[i].owner == t
  }

  /** Each call publishes at most once. */
  ghost predicate OwnersDiffer(log: seq<Publication>) {
    forall i, j | 0 <= i < j < |log| :: log[i].owner != log[j].owner
  }

  // ---------------------------------------------------------------- one action

  /** What an action does to a thread that is in its round: it goes on, or publishes under the time it began. */
  ghost predicate RoundGoesOnOrEnds(s: State, s': State, t: nat) {
    && t < |s.threads| <= |s'.threads| && Busy(s.threads[t].pc)
    && ((&& Busy(s'.threads[t].pc) && s'.threads[t].pc.startedAt == s.threads[t].pc.startedAt
         && (s'.data.upsLog == s.data.upsLog || (exists p: Publication :: p.owner != t && s'.data.upsLog == s.data.upsLog + [p])))
        || (&& !Busy(s'.threads[t].pc)
            && exists p: Publication ::
                 p.owner == t && p.startedAt == s.threads[t].pc.startedAt && s'.data.upsLog == s.data.upsLog + [p]))
  }

  lemma BusyNext(cfg: Config, d: Data, now: nat, t: nat, th: Thread, c: Choice)
    requires Act(cfg, d, now, t, th, c).Some?
    ensures
      var pc, to := th.pc, Act(cfg, d, now, t, th, c).value.pc;
      && (Busy(pc) ==> if pc.SetUps? then to.SetErrs? else Busy(to) && to.startedAt == pc.startedAt)
      && (Busy(to) && !Busy(pc) ==> pc.UpsMiss? && to.UpsRound? && to.startedAt == now)
      && (pc.UpsMiss? ==> to.UpsRound?) && (pc.UpsAwaitWrite? ==> to.UpsStamp?) && (pc.UpsStamp? ==> to.SetUps?)
  {
    hide WorkerResult, AddFetch, Covers, CachedFetches, Wanted;
    if CachedPc(th.pc) {
      hide ActInventories, ActUpstream;
    } else if UpstreamPc(th.pc) {
      hide ActInventories, ActCached;
    } else {
      hide ActUpstream, ActCached;
    }
  }

  lemma ActionOnRound(cfg: Config, s: State, a: Action, t: nat)
    requires Enabled(cfg, s, a) && t < |s.threads| && Busy(s.threads[t].pc)
    ensures RoundGoesOnOrEnds(s, After(cfg, s, a), t)
  {
    match a
    case Tick(_) =>
    case Start(_) =>
    case Step(u, c) =>
      StepIsStep(cfg, s, u, c);
      BusyNext(cfg, s.data, s.now, u, s.threads[u], c);
      hide Act, Move, CanMove, Mu, HoldsRefresh, SameExcept;
      var s' := StepOf(cfg, s, u, c);
      var pc := s.threads[u].pc;
      if pc.SetUps? {
        var p := Publication(u, pc.startedAt, pc.at);
        assert s'.data.upsLog == s.data.upsLog + [p];
      }
  }

  lemma OwnersStayDifferent(cfg: Config, s: State, a: Action)
    requires Invariant(cfg, s) && Enabled(cfg, s, a) && OwnersDiffer(s.data.upsLog)
    ensures OwnersDiffer(After(cfg, s, a).data.upsLog)
  {
    if a.Step? {
      StepIsStep(cfg, s, a.t, a.choice);
      hide Act, Move, CanMove, Mu, HoldsRefresh, SameExcept, Locks, CacheOk, ThreadOk, RoundDone, Wanted;
      forall p | p in s.data.upsLog && s.threads[a.t].pc.SetUps? ensures p.owner != a.t {
        assert UpsPublicationOk(cfg, s, p);
      }
    }
  }

  // ---------------------------------------------------------------- whole runs

  lemma {:induction false} EachPublishesOnce(cfg: Config, actions: seq<Action>)
    requires Possible(cfg, actions)
    ensures OwnersDiffer(Run(cfg, actions).data.upsLog)
  {
    if actions != [] {
      hide Invariant, Enabled, After, OwnersDiffer;
      RunKeepsInvariant(cfg, actions[..|actions| - 1]);
      EachPublishesOnce(cfg, actions[..|actions| - 1]);
      OwnersStayDifferent(cfg, Run(cfg, actions[..|actions| - 1]), actions[|actions| - 1]);
    } else {
      hide Enabled, After;
    }
  }

  /** In the round that began at that time, or past its publication, which is at or after place `from` of the log. */
  ghost predicate RoundOf(s: State, t: nat, startedAt: nat, from: nat) {
    && t < |s.threads| && from <= |s.data.upsLog|
    && ((Busy(s.threads[t].pc) && s.threads[t].pc.startedAt == startedAt)
        || exists i | from <= i < |s.data.upsLog| :: s.data.upsLog[i].owner == t && s.data.upsLog[i].startedAt == startedAt)
  }

  lemma RoundStays(cfg: Config, s: State, a: Action, t: nat, startedAt: nat, from: nat)
    requires Invariant(cfg, s) && Enabled(cfg, s, a) && RoundOf(s, t, startedAt, from)
    ensures RoundOf(After(cfg, s, a), t, startedAt, from)
  {
    ActionKeepsPublished(cfg, s, a);
    var s' := After(cfg, s, a);
    assert |s.threads| <= |s'.threads| by { hide Act, Move, CanMove, Mu, HoldsRefresh, Invariant, KeepsPublished; }
    if i :| from <= i < |s.data.upsLog| && s.data.upsLog[i].owner == t && s.data.upsLog[i].startedAt == startedAt {
      hide After, Enabled, Invariant;
      assert s'.data.upsLog[i] == s.data.upsLog[i];
    } else {
      ActionOnRound(cfg, s, a, t);
      hide After, Enabled, Invariant;
      if !Busy(s'.threads[t].pc) {
        var p: Publication :| p.owner == t && p.startedAt == startedAt && s'.data.upsLog == s.data.upsLog + [p];
        assert s'.data.upsLog[|s.data.upsLog|] == p;
      }
    }
  }

  /** Once a call is in its round, it is there, or has published it, ever after. */
  lemma {:induction false} RoundGoesThrough(cfg: Config, actions: seq<Action>, k: nat, t: nat)
    requires Possible(cfg, actions) && k <= |actions| && Possible(cfg, actions[..k])
    requires t < |Run(cfg, actions[..k]).threads| && Busy(Run(cfg, actions[..k]).threads[t].pc)
    ensures
      var then_ := Run(cfg, actions[..k]);
      RoundOf(Run(cfg, actions), t, then_.threads[t].pc.startedAt, |then_.data.upsLog|)
  {
    assert actions[..|actions|] == actions;
    if k < |actions| {
      hide Enabled, After, Invariant, RoundOf;
      var rest := actions[..|actions| - 1];
      assert rest[..k] == actions[..k];
      RoundGoesThrough(cfg, rest, k, t);
      RunKeepsInvariant(cfg, rest);
      var then_ := Run(cfg, actions[..k]);
      RoundStays(cfg, Run(cfg, rest), actions[|actions| - 1], t, then_.threads[t].pc.startedAt, |then_.data.upsLog|);
    }
  }

  /** The k-th action begins the round of call t. */
  ghost predicate Begins(cfg: Config, actions: seq<Action>, k: nat, t: nat)
    requires Possible(cfg, actions)
  {
    && k < |actions| && Possible(cfg, actions[..k])
    && actions[k].Step? && actions[k].t == t && t < |Run(cfg, actions[..k]).threads|
    && Run(cfg, actions[..k]).threads[t].pc.UpsMiss?
  }

  lemma PrefixPossible(cfg: Config, actions: seq<Action>, k: nat)
    requires Possible(cfg, actions) && k <= |actions|
    ensures Possible(cfg, actions[..k])
  {
    PublishedNeverChanges(cfg, actions, k);
  }

  /** Every round that is under way or published was begun, at the time it says. */
  lemma {:induction false} RoundWasBegun(cfg: Config, actions: seq<Action>, t: nat, startedAt: nat) returns (k: nat)
    requires Possible(cfg, actions) && RoundOf(Run(cfg, actions), t, startedAt, 0)
    ensures Begins(cfg, actions, k, t) && Run(cfg, actions[..k]).now == startedAt
  {
    if actions != [] {
      var rest, a := actions[..|actions| - 1], actions[|actions| - 1];
      var s := Run(cfg, rest);
      RunKeepsInvariant(cfg, rest);
      hide After, Enabled, RoundOf;
      BeganNowOrBefore(cfg, s, a, t, startedAt);
      if RoundOf(s, t, startedAt, 0) {
        k := RoundWasBegun(cfg, rest, t, startedAt);
        assert rest[..k] == actions[..k];
      } else {
        k := |actions| - 1;
      }
    }
  }

  lemma BeganNowOrBefore(cfg: Config, s: State, a: Action, t: nat, startedAt: nat)
    requires Invariant(cfg, s) && Enabled(cfg, s, a) && RoundOf(After(cfg, s, a), t, startedAt, 0)
    ensures RoundOf(s, t, startedAt, 0) ||
            (a.Step? && a.t == t && t < |s.threads| && s.threads[t].pc.UpsMiss? && s.now == startedAt)
  {
    match a
    case Tick(_) =>
    case Start(call) =>
      hide Locks, CacheOk, ThreadOk, RoundDone, Wanted;
      assert !Busy(FirstPc(cfg, call));
      forall p | p in s.data.upsLog ensures p.owner < |s.threads| {
        assert UpsPublicationOk(cfg, s, p);
      }
    case Step(u, c) =>
      StepIsStep(cfg, s, u, c);
      BusyNext(cfg, s.data, s.now, u, s.threads[u], c);
      hide Act, Move, CanMove, Mu, HoldsRefresh, SameExcept, Invariant;
      StepBeganNowOrBefore(s, StepOf(cfg, s, u, c), u, t, startedAt);
  }

  lemma StepBeganNowOrBefore(s: State, s': State, u: nat, t: nat, startedAt: nat)
    requires Stepped(s, s', u) && RoundOf(s', t, startedAt, 0)
    requires
      var pc, to := s.threads[u].pc, s'.threads[u].pc;
      && (Busy(pc) && !pc.SetUps? ==> Busy(to) && to.startedAt == pc.startedAt)
      && (Busy(to) && !Busy(pc) ==> pc.UpsMiss? && to.startedAt == s.now)
      && (pc.SetUps? ==> !Busy(to))
    ensures RoundOf(s, t, startedAt, 0) || (u == t && s.threads[t].pc.UpsMiss? && s.now == startedAt)
  {
    hide SameExcept;
    var log, log' := s.data.upsLog, s'.data.upsLog;
    if i :| 0 <= i < |log'| && log'[i].owner == t && log'[i].startedAt == startedAt {
      assert i < |log| ==> log[i] == log'[i];
    }
  }

  lemma {:induction false} ClockRuns(cfg: Config, actions: seq<Action>, j: nat, k: nat)
    requires Possible(cfg, actions) && j <= k <= |actions| && Possible(cfg, actions[..j]) && Possible(cfg, actions[..k])
    ensures Run(cfg, actions[..j]).now <= Run(cfg, actions[..k]).now
  {
    if j < k {
      assert actions[..k][..k - 1] == actions[..k - 1];
      PrefixPossible(cfg, actions, k - 1);
      ClockRuns(cfg, actions, j, k - 1);
      hide Act, Move, CanMove, Mu, HoldsRefresh;
    }
  }

  // ---------------------------------------------------------------- who waits for the lock publishes first

  /** Call b is in line for the write lock, or has it, and a has not published; or b has published, and a not before it. */
  ghost predicate InLineBefore(s: State, a: nat, b: nat) {
    && a < |s.threads| && b < |s.threads| && a != b
    && (((Mu(s.threads[b].pc) == Waiting || Mu(s.threads[b].pc) == Writing) && Busy(s.threads[b].pc) && !Owns(s.data.upsLog, a))
        || exists j | 0 <= j < |s.data.upsLog| ::
             s.data.upsLog[j].owner == b && forall i | 0 <= i < |s.data.upsLog| && s.data.upsLog[i].owner == a :: j < i)
  }

  lemma InLineStays(cfg: Config, s: State, x: Action, a: nat, b: nat)
    requires Invariant(cfg, s) && Enabled(cfg, s, x) && InLineBefore(s, a, b)
    ensures InLineBefore(After(cfg, s, x), a, b)
  {
    match x
    case Tick(_) =>
    case Start(_) =>
    case Step(t, c) =>
      StepIsStep(cfg, s, t, c);
      BusyNext(cfg, s.data, s.now, t, s.threads[t], c);
      assert LocksOf(s, t, s.threads[t].pc) && LocksOf(s, b, s.threads[b].pc);
      hide Act, Move, CanMove, HoldsRefresh, SameExcept, LogOk, CacheOk, ThreadOk;
      InLineStep(s, StepOf(cfg, s, t, c), t, a, b);
  }

  lemma InLineStep(s: State, s': State, t: nat, a: nat, b: nat)
    requires InLineBefore(s, a, b) && Stepped(s, s', t)
    requires t != b && (Mu(s.threads[b].pc) == Waiting || Mu(s.threads[b].pc) == Writing) ==> Mu(s.threads[t].pc) != Writing
    requires
      var pc, to := s.threads[t].pc, s'.threads[t].pc;
      (pc.UpsAwaitWrite? ==> to.UpsStamp?) && (pc.UpsStamp? ==> to.SetUps?)
    ensures InLineBefore(s', a, b)
  {
    hide SameExcept;
    var log, log' := s.data.upsLog, s'.data.upsLog;
    if j :| 0 <= j < |log| && log[j].owner == b && forall i | 0 <= i < |log| && log[i].owner == a :: j < i {
      assert log'[j].owner == b;
    } else if t == b && s.threads[b].pc.SetUps? {
      assert log'[|log|].owner == b;
    } else {
      assert log' == log;
    }
  }

  lemma {:induction false} InLinePublishesFirst(cfg: Config, actions: seq<Action>, k: nat, a: nat, b: nat)
    requires Possible(cfg, actions) && k <= |actions| && Possible(cfg, actions[..k])
    requires InLineBefore(Run(cfg, actions[..k]), a, b)
    ensures InLineBefore(Run(cfg, actions), a, b)
  {
    assert actions[..|actions|] == actions;
    if k < |actions| {
      hide Enabled, After, Invariant, InLineBefore;
      var rest := actions[..|actions| - 1];
      assert rest[..k] == actions[..k];
      InLinePublishesFirst(cfg, rest, k, a, b);
      RunKeepsInvariant(cfg, rest);
      InLineStays(cfg, Run(cfg, rest), actions[|actions| - 1], a, b);
    }
  }

  // ---------------------------------------------------------------- going back

  /** Some call is in a round that began before now, and not yet in line to publish it. */
  predicate OlderRound(s: State, b: nat) {
    b < |s.threads| && Fetching(s.threads[b].pc) && s.threads[b].pc.startedAt < s.now
  }

  /** For every run and every two publications: the later one is of an older round exactly when, at the moment at which
      the earlier one's round began, the later one's was under way, begun before then and not in line to publish. */
  lemma UpstreamGoesBackExactly(cfg: Config, actions: seq<Action>, i: nat, j: nat, k: nat)
    requires Possible(cfg, actions) && i < j < |Run(cfg, actions).data.upsLog|
    requires Begins(cfg, actions, k, Run(cfg, actions).data.upsLog[i].owner)
    ensures
      var log := Run(cfg, actions).data.upsLog;
      log[j].startedAt < log[i].startedAt <==> OlderRound(Run(cfg, actions[..k]), log[j].owner)
  {
    var log, s := Run(cfg, actions).data.upsLog, Run(cfg, actions[..k]);
    var a, b := log[i].owner, log[j].owner;
    EachPublishesOnce(cfg, actions);
    RunKeepsInvariant(cfg, actions);
    BegunAtOnce(cfg, actions, i, k);
    hide Run, Possible, Invariant;
    if OlderRound(s, b) {
      RoundGoesThrough(cfg, actions, k, b);
      PublishedOnceAt(cfg, Run(cfg, actions), j, s.threads[b].pc.startedAt, |s.data.upsLog|);
    }
    if log[j].startedAt < log[i].startedAt {
      OlderWasUnderWay(cfg, actions, i, j, k);
    }
  }

  /** A call's publication bears the start of its round. */
  lemma PublishedOnceAt(cfg: Config, s: State, j: nat, startedAt: nat, from: nat)
    requires Invariant(cfg, s) && OwnersDiffer(s.data.upsLog) && j < |s.data.upsLog|
    requires RoundOf(s, s.data.upsLog[j].owner, startedAt, from)
    ensures s.data.upsLog[j].startedAt == startedAt
  {
    hide Locks, CacheOk, ThreadOk, RoundDone, Wanted;
    assert s.data.upsLog[j] in s.data.upsLog;
    assert UpsPublicationOk(cfg, s, s.data.upsLog[j]);
  }

  /** A round that begins at the k-th action is published, if at all, under the time of that action. */
  lemma BegunAtOnce(cfg: Config, actions: seq<Action>, i: nat, k: nat)
    requires Possible(cfg, actions) && i < |Run(cfg, actions).data.upsLog|
    requires Begins(cfg, actions, k, Run(cfg, actions).data.upsLog[i].owner)
    ensures Run(cfg, actions).data.upsLog[i].startedAt == Run(cfg, actions[..k]).now
  {
    var a := Run(cfg, actions).data.upsLog[i].owner;
    BusyAfterBeginning(cfg, actions, k, a);
    RoundGoesThrough(cfg, actions, k + 1, a);
    EachPublishesOnce(cfg, actions);
    RunKeepsInvariant(cfg, actions);
    hide Run, Possible, Invariant;
    PublishedOnceAt(cfg, Run(cfg, actions), i, Run(cfg, actions[..k]).now, |Run(cfg, actions[..k + 1]).data.upsLog|);
  }

  lemma BusyAfterBeginning(cfg: Config, actions: seq<Action>, k: nat, t: nat)
    requires Possible(cfg, actions) && Begins(cfg, actions, k, t)
    ensures Possible(cfg, actions[..k + 1])
    ensures
      var s, s' := Run(cfg, actions[..k]), Run(cfg, actions[..k + 1]);
      && t < |s'.threads| && s'.threads[t].pc.UpsRound? && s'.threads[t].pc.startedAt == s.now
      && s'.data.upsLog == s.data.upsLog
  {
    PrefixPossible(cfg, actions, k + 1);
    assert actions[..k + 1][..k] == actions[..k];
    var s, c := Run(cfg, actions[..k]), actions[k].choice;
    BusyNext(cfg, s.data, s.now, t, s.threads[t], c);
    StepIsStep(cfg, s, t, c);
    hide Act, Move, CanMove, Mu, HoldsRefresh, SameExcept;
  }

  lemma OlderWasUnderWay(cfg: Config, actions: seq<Action>, i: nat, j: nat, k: nat)
    requires Possible(cfg, actions) && i < j < |Run(cfg, actions).data.upsLog|
    requires Begins(cfg, actions, k, Run(cfg, actions).data.upsLog[i].owner)
    requires Run(cfg, actions).data.upsLog[j].startedAt < Run(cfg, actions[..k]).now
    ensures OlderRound(Run(cfg, actions[..k]), Run(cfg, actions).data.upsLog[j].owner)
  {
    var log, s := Run(cfg, actions).data.upsLog, Run(cfg, actions[..k]);
    var a, b := log[i].owner, log[j].owner;
    var from := UnderWayOrPublished(cfg, actions, j, k);
    RunKeepsInvariant(cfg, actions[..k]);
    PublishedNeverChanges(cfg, actions, k);
    EachPublishesOnce(cfg, actions);
    hide Run, Possible, Invariant, RoundOf, OwnersDiffer;
    NotInLine(cfg, actions, i, j, k);
    BusyNotPublished(cfg, s, log, i, j, log[j].startedAt, from);
  }

  /** A publication of a round that began before the k-th action: its call is in that round by then, or past it. */
  lemma UnderWayOrPublished(cfg: Config, actions: seq<Action>, j: nat, k: nat) returns (from: nat)
    requires Possible(cfg, actions) && j < |Run(cfg, actions).data.upsLog| && k <= |actions| && Possible(cfg, actions[..k])
    requires Run(cfg, actions).data.upsLog[j].startedAt < Run(cfg, actions[..k]).now
    ensures
      var p := Run(cfg, actions).data.upsLog[j];
      RoundOf(Run(cfg, actions[..k]), p.owner, p.startedAt, from)
  {
    var kb := BeganBefore(cfg, actions, j, k);
    BusyAfterBeginning(cfg, actions, kb, Run(cfg, actions).data.upsLog[j].owner);
    assert actions[..k][..kb + 1] == actions[..kb + 1];
    hide Run, Possible, RoundOf;
    RoundGoesThrough(cfg, actions[..k], kb + 1, Run(cfg, actions).data.upsLog[j].owner);
    from := |Run(cfg, actions[..kb + 1]).data.upsLog|;
  }

  lemma BeganBefore(cfg: Config, actions: seq<Action>, j: nat, k: nat) returns (kb: nat)
    requires Possible(cfg, actions) && j < |Run(cfg, actions).data.upsLog| && k <= |actions| && Possible(cfg, actions[..k])
    requires Run(cfg, actions).data.upsLog[j].startedAt < Run(cfg, actions[..k]).now
    ensures kb < k && Begins(cfg, actions, kb, Run(cfg, actions).data.upsLog[j].owner)
    ensures Run(cfg, actions[..kb]).now == Run(cfg, actions).data.upsLog[j].startedAt
  {
    RunKeepsInvariant(cfg, actions);
    var p := Run(cfg, actions).data.upsLog[j];
    assert p in Run(cfg, actions).data.upsLog;
    assert UpsPublicationOk(cfg, Run(cfg, actions), p);
    kb := RoundWasBegun(cfg, actions, p.owner, p.startedAt);
    if k <= kb {
      ClockRuns(cfg, actions, k, kb);
    }
  }

  /** When one call begins a round, another that is in line publishes first. */
  lemma NotInLine(cfg: Config, actions: seq<Action>, i: nat, j: nat, k: nat)
    requires Possible(cfg, actions) && i < j < |Run(cfg, actions).data.upsLog|
    requires Begins(cfg, actions, k, Run(cfg, actions).data.upsLog[i].owner)
    ensures
      var s, b := Run(cfg, actions[..k]), Run(cfg, actions).data.upsLog[j].owner;
      b < |s.threads| && Busy(s.threads[b].pc) ==> Fetching(s.threads[b].pc)
  {
    var log, s := Run(cfg, actions).data.upsLog, Run(cfg, actions[..k]);
    var a, b := log[i].owner, log[j].owner;
    EachPublishesOnce(cfg, actions);
    RunKeepsInvariant(cfg, actions[..k]);
    hide Run, Possible, Invariant;
    if b < |s.threads| && Busy(s.threads[b].pc) && !Fetching(s.threads[b].pc) {
      GetsInLine(cfg, s, a, b);
      InLinePublishesFirst(cfg, actions, k, a, b);
      InLineContradicts(cfg, Run(cfg, actions), i, j);
    }
  }

  lemma GetsInLine(cfg: Config, s: State, a: nat, b: nat)
    requires Invariant(cfg, s) && a < |s.threads| && b < |s.threads| && s.threads[a].pc.UpsMiss?
    requires Busy(s.threads[b].pc) && !Fetching(s.threads[b].pc)
    ensures InLineBefore(s, a, b)
  {
    NotOwnedYet(cfg, s, a);
    hide Invariant;
  }

  lemma NotOwnedYet(cfg: Config, s: State, t: nat)
    requires Invariant(cfg, s) && t < |s.threads| && !UpsFinished(s.threads[t].pc)
    ensures !Owns(s.data.upsLog, t)
  {
    hide Locks, CacheOk, ThreadOk, RoundDone, Wanted;
    forall p | p in s.data.upsLog ensures p.owner != t {
      assert UpsPublicationOk(cfg, s, p);
    }
  }

  lemma InLineContradicts(cfg: Config, s: State, i: nat, j: nat)
    requires i < j < |s.data.upsLog| && OwnersDiffer(s.data.upsLog)
    ensures !InLineBefore(s, s.data.upsLog[i].owner, s.data.upsLog[j].owner)
  {
    var log := s.data.upsLog;
    assert Owns(log, log[i].owner);
    if x :| 0 <= x < |log| && log[x].owner == log[j].owner && forall y | 0 <= y < |log| && log[y].owner == log[i].owner :: x < y {
    }
  }

  /** Of two calls one of which has still to begin, the other was not published before it if it is published later. */
  lemma BusyNotPublished(cfg: Config, s: State, log: seq<Publication>, i: nat, j: nat, startedAt: nat, from: nat)
    requires Invariant(cfg, s) && s.data.upsLog <= log && i < j < |log| && OwnersDiffer(log)
    requires log[i].owner < |s.threads| && !UpsFinished(s.threads[log[i].owner].pc)
    requires RoundOf(s, log[j].owner, startedAt, from)
    ensures log[j].owner < |s.threads| && Busy(s.threads[log[j].owner].pc) && s.threads[log[j].owner].pc.startedAt == startedAt
  {
    NotOwnedYet(cfg, s, log[i].owner);
    hide Invariant;
    assert forall x | 0 <= x < |s.data.upsLog| :: log[x] == s.data.upsLog[x];
    assert i >= |s.data.upsLog|;
  }

  // ---------------------------------------------------------------- when it can still happen

  /** In some continuation the result of call a is overwritten by that of an older round. */
  ghost predicate CanBeOverwritten(cfg: Config, actions: seq<Action>, a: nat) {
    exists longer :: Overwrites(cfg, actions, longer, a)
  }

  ghost predicate Overwrites(cfg: Config, actions: seq<Action>, longer: seq<Action>, a: nat) {
    && actions <= longer && Possible(cfg, longer)
    && var log := Run(cfg, longer).data.upsLog;
       exists i, j | 0 <= i < j < |log| :: log[i].owner == a && log[j].startedAt < log[i].startedAt
  }

  /** Threads that hold and await nothing do not keep others from going on. */
  lemma RunnableBeside(cfg: Config, s: State, b: nat, unfinished: nat) returns (t: nat)
    requires Invariant(cfg, s) && b < |s.threads| && Fetching(s.threads[b].pc)
    requires unfinished < |s.threads| && unfinished != b && !s.threads[unfinished].pc.Done?
    ensures t < |s.threads| && t != b && !s.threads[t].pc.Done?
    ensures Mu(s.threads[t].pc) == Free ==> s.mu.waiting.None? && s.mu.writer.None?
    ensures Mu(s.threads[t].pc) == Waiting ==> s.mu.readers == {}
    ensures s.threads[t].pc.WantRefresh? ==> s.refreshMu.None?
  {
    hide LogOk, CacheOk, ThreadOk;
    t := Runnable(cfg, s, unfinished);
    if t == b {
      assert LocksOf(s, b, s.threads[b].pc) && LocksOf(s, unfinished, s.threads[unfinished].pc);
      if s.threads[unfinished].pc.WantRefresh? && s.refreshMu.Some? {
        t := s.refreshMu.value;
        assert LocksOf(s, t, s.threads[t].pc);
      } else if s.mu.readers != {} {
        t :| t in s.mu.readers;
        assert LocksOf(s, t, s.threads[t].pc);
      } else {
        t := unfinished;
      }
    }
  }

  /** All calls but one that is fetching can return, while it stays where it is. */
  lemma {:induction false} OthersReturn(cfg: Config, actions: seq<Action>, b: nat) returns (longer: seq<Action>)
    requires Possible(cfg, actions) && b < |Run(cfg, actions).threads| && Fetching(Run(cfg, actions).threads[b].pc)
    ensures Possible(cfg, longer) && actions <= longer
    ensures |Run(cfg, longer).threads| == |Run(cfg, actions).threads|
    ensures Run(cfg, longer).threads[b] == Run(cfg, actions).threads[b]
    ensures forall t | 0 <= t < |Run(cfg, longer).threads| && t != b :: Run(cfg, longer).threads[t].pc.Done?
    decreases Total(cfg, Run(cfg, actions).threads)
  {
    hide Run, Possible, Total, CanStep, Invariant, StepOf;
    if unfinished :| && 0 <= unfinished < |Run(cfg, actions).threads| && unfinished != b
                     && !Run(cfg, actions).threads[unfinished].pc.Done? {
      RunKeepsInvariant(cfg, actions);
      var t := RunnableBeside(cfg, Run(cfg, actions), b, unfinished);
      var c := Ready(cfg, Run(cfg, actions), t);
      StepExtends(cfg, actions, t, c);
      OneThreadMoves(cfg, actions, t, c);
      longer := OthersReturn(cfg, actions + [Step(t, c)], b);
    } else {
      longer := actions;
    }
  }

  lemma OneThreadMoves(cfg: Config, actions: seq<Action>, t: nat, c: Choice)
    requires Possible(cfg, actions) && CanStep(cfg, Run(cfg, actions), t, c)
    ensures Possible(cfg, actions + [Step(t, c)])
    ensures
      var s, s' := Run(cfg, actions), Run(cfg, actions + [Step(t, c)]);
      |s'.threads| == |s.threads| && forall u | 0 <= u < |s.threads| && u != t :: s'.threads[u] == s.threads[u]
  {
    Goes(cfg, actions, Step(t, c));
    hide Act, Move, CanMove, Mu, HoldsRefresh;
  }

  /** A call that is about to begin a round can have its result overwritten by that of an older round exactly when
      some other call is in a round that began before now, and not yet in line to publish it. */
  lemma OverwritableExactly(cfg: Config, actions: seq<Action>, a: nat, c: Choice)
    requires Possible(cfg, actions) && a < |Run(cfg, actions).threads| && Run(cfg, actions).threads[a].pc.UpsMiss?
    requires CanStep(cfg, Run(cfg, actions), a, c)
    ensures CanBeOverwritten(cfg, actions + [Step(a, c)], a) <==> exists b :: OlderRound(Run(cfg, actions), b)
  {
    var begun := actions + [Step(a, c)];
    if longer :| Overwrites(cfg, begun, longer, a) {
      var log := Run(cfg, longer).data.upsLog;
      var i, j :| 0 <= i < j < |log| && log[i].owner == a && log[j].startedAt < log[i].startedAt;
      assert longer[..|actions|] == actions && longer[|actions|] == Step(a, c);
      UpstreamGoesBackExactly(cfg, longer, i, j, |actions|);
      assert OlderRound(Run(cfg, actions), log[j].owner);
    }
    if b :| OlderRound(Run(cfg, actions), b) {
      var longer := OlderOverwrites(cfg, actions, a, b, c);
      assert Overwrites(cfg, begun, longer, a);
    }
  }

  lemma OlderOverwrites(cfg: Config, actions: seq<Action>, a: nat, b: nat, c: Choice) returns (longer: seq<Action>)
    requires Possible(cfg, actions) && a < |Run(cfg, actions).threads| && Run(cfg, actions).threads[a].pc.UpsMiss?
    requires CanStep(cfg, Run(cfg, actions), a, c) && OlderRound(Run(cfg, actions), b)
    ensures Overwrites(cfg, actions + [Step(a, c)], longer, a)
  {
    var s, begun := Run(cfg, actions), actions + [Step(a, c)];
    Goes(cfg, actions, Step(a, c));
    assert begun[..|actions|] == actions && begun[..|begun|] == begun;
    BusyAfterBeginning(cfg, begun, |actions|, a);
    OneThreadMoves(cfg, actions, a, c);
    hide Run, Possible, CanStep;
    var middle := OthersReturn(cfg, begun, b);
    longer := EveryCallCanReturn(cfg, middle);
    assert middle[..|begun|] == begun && longer[..|begun|] == begun;
    var i := PublishedByThen(cfg, middle, |begun|, a);
    var j := PublishedAfter(cfg, middle, longer, i, b);
  }

  /** What the fetching call publishes comes after all that is there while it still fetches. */
  lemma PublishedAfter(cfg: Config, middle: seq<Action>, longer: seq<Action>, i: nat, b: nat) returns (j: nat)
    requires Possible(cfg, middle) && Possible(cfg, longer) && middle <= longer
    requires b < |Run(cfg, middle).threads| && Busy(Run(cfg, middle).threads[b].pc) && i < |Run(cfg, middle).data.upsLog|
    requires b < |Run(cfg, longer).threads| && Run(cfg, longer).threads[b].pc.Done?
    ensures
      var was, log := Run(cfg, middle), Run(cfg, longer).data.upsLog;
      i < j < |log| && log[i] == was.data.upsLog[i] && log[j].owner == b && log[j].startedAt == was.threads[b].pc.startedAt
  {
    assert longer[..|middle|] == middle;
    RoundGoesThrough(cfg, longer, |middle|, b);
    PublishedNeverChanges(cfg, longer, |middle|);
    hide Run, Possible;
    var was, log := Run(cfg, middle), Run(cfg, longer).data.upsLog;
    j :| |was.data.upsLog| <= j < |log| && log[j].owner == b && log[j].startedAt == was.threads[b].pc.startedAt;
  }

  /** A call that was in a round and has returned has published it. */
  lemma PublishedByThen(cfg: Config, actions: seq<Action>, k: nat, t: nat) returns (i: nat)
    requires Possible(cfg, actions) && k <= |actions| && Possible(cfg, actions[..k])
    requires t < |Run(cfg, actions[..k]).threads| && Busy(Run(cfg, actions[..k]).threads[t].pc)
    requires t < |Run(cfg, actions).threads| && Run(cfg, actions).threads[t].pc.Done?
    ensures i < |Run(cfg, actions).data.upsLog| && Run(cfg, actions).data.upsLog[i].owner == t
    ensures Run(cfg, actions).data.upsLog[i].startedAt == Run(cfg, actions[..k]).threads[t].pc.startedAt
  {
    RoundGoesThrough(cfg, actions, k, t);
    hide Run, Possible;
    var log := Run(cfg, actions).data.upsLog;
    i :| 0 <= i < |log| && log[i].owner == t && log[i].startedAt == Run(cfg, actions[..k]).threads[t].pc.startedAt;
  }

  // ---------------------------------------------------------------- a run in which it does

  const FREE := RWMutex({}, None, None)

  /** A refreshing call for no names: its round has nothing to wait for. */
  const NOTHING := UpstreamFor({}, true)

  lemma Goes(cfg: Config, actions: seq<Action>, a: Action)
    requires Possible(cfg, actions) && Enabled(cfg, Run(cfg, actions), a)
    ensures Possible(cfg, actions + [a]) && Run(cfg, actions + [a]) == After(cfg, Run(cfg, actions), a)
  {
    assert (actions + [a])[..|actions|] == actions;
    hide Enabled, After;
  }

  ghost predicate At(s: State, t: nat, pc: Pc) {
    t < |s.threads| && s.threads[t] == Thread(NOTHING, pc)
  }

  /** All other threads are where they were. */
  ghost predicate OnlyMoves(s: State, s': State, t: nat) {
    && s'.now == s.now && |s'.threads| == |s.threads|
    && forall u | 0 <= u < |s.threads| && u != t :: s'.threads[u] == s.threads[u]
  }

  /** One step of such a call that leaves the refresh lock alone. */
  lemma Moves(cfg: Config, actions: seq<Action>, t: nat, pc: Pc, to: Pc)
    requires Possible(cfg, actions) && At(Run(cfg, actions), t, pc)
    requires var s := Run(cfg, actions);
             && Act(cfg, s.data, s.now, t, Thread(NOTHING, pc), Go).Some?
             && Act(cfg, s.data, s.now, t, Thread(NOTHING, pc), Go).value.pc == to
             && CanMove(s.mu, Mu(pc), Mu(to)) && !HoldsRefresh(pc) && !HoldsRefresh(to)
    ensures
      var s, s' := Run(cfg, actions), StepOf(cfg, Run(cfg, actions), t, Go);
      && Possible(cfg, actions + [Step(t, Go)]) && Run(cfg, actions + [Step(t, Go)]) == s'
      && At(s', t, to) && OnlyMoves(s, s', t) && s'.mu == Move(s.mu, t, Mu(pc), Mu(to))
      && s'.data == Act(cfg, s.data, s.now, t, Thread(NOTHING, pc), Go).value.data
  {
    hide Run, Possible, Act, Mu, HoldsRefresh, Move, CanMove;
    Goes(cfg, actions, Step(t, Go));
  }

  lemma ChecksActs(cfg: Config, d: Data, now: nat, t: nat)
    ensures Act(cfg, d, now, t, Thread(NOTHING, WantUpsCheck), Go) == Some(Next(UpsCheck, d))
    ensures Act(cfg, d, now, t, Thread(NOTHING, UpsCheck), Go) == Some(Next(UpsMiss, d))
    ensures Act(cfg, d, now, t, Thread(NOTHING, UpsMiss), Go) ==
            Some(Next(UpsRound(now, {}, {}), d.(fetched := d.fetched[t := Fetches(map[], map[])])))
  {
    hide Covers, CachedFetches, ActInventories, ActCached;
    assert Wanted(cfg, {}) == {};
  }

  lemma LocksActs(cfg: Config, d: Data, now: nat, t: nat, startedAt: nat)
    ensures Act(cfg, d, now, t, Thread(NOTHING, UpsRound(startedAt, {}, {})), Go) == Some(Next(UpsWantWrite(startedAt), d))
    ensures Act(cfg, d, now, t, Thread(NOTHING, UpsWantWrite(startedAt)), Go) == Some(Next(UpsAwaitWrite(startedAt), d))
    ensures Act(cfg, d, now, t, Thread(NOTHING, UpsAwaitWrite(startedAt)), Go) == Some(Next(UpsStamp(startedAt), d))
    ensures Act(cfg, d, now, t, Thread(NOTHING, UpsStamp(startedAt)), Go) == Some(Next(SetUps(startedAt, now), d))
  {
    hide Wanted, ActInventories, ActCached;
  }

  lemma WritesActs(cfg: Config, d: Data, now: nat, t: nat, startedAt: nat, at: nat)
    ensures Act(cfg, d, now, t, Thread(NOTHING, SetUps(startedAt, at)), Go) ==
            Some(Next(SetErrs(at), d.(ups := Some(t), upsLog := d.upsLog + [Publication(t, startedAt, at)])))
    ensures Act(cfg, d, now, t, Thread(NOTHING, SetErrs(at)), Go) == Some(Next(SetUpsAt(at), d.(errs := Some(t))))
    ensures Act(cfg, d, now, t, Thread(NOTHING, SetUpsAt(at)), Go) == Some(Next(UpsWritten, d.(upsAt := at)))
    ensures d.upsLog != [] ==>
              Act(cfg, d, now, t, Thread(NOTHING, UpsWritten), Go) ==
              Some(Next(Done(Releases(t, t, |d.upsLog| - 1, Own)), d))
  {
    hide Wanted, ActInventories, ActCached;
  }

  lemma RoundStarts(cfg: Config, actions: seq<Action>, t: nat) returns (longer: seq<Action>)
    requires Possible(cfg, actions) && At(Run(cfg, actions), t, WantUpsCheck) && Run(cfg, actions).mu == FREE
    ensures
      Possible(cfg, longer) &&
      var s, s' := Run(cfg, actions), Run(cfg, longer);
      && At(s', t, UpsRound(s.now, {}, {})) && s'.mu == FREE && s'.data.upsLog == s.data.upsLog && OnlyMoves(s, s', t)
  {
    hide Run, Possible, Act, StepOf, CanStep;
    var s := Run(cfg, actions);
    var one := actions + [Step(t, Go)];
    var two := one + [Step(t, Go)];
    longer := two + [Step(t, Go)];
    ChecksActs(cfg, s.data, s.now, t);
    assert {} + {t} - {t} == {};
    Moves(cfg, actions, t, WantUpsCheck, UpsCheck);
    Moves(cfg, one, t, UpsCheck, UpsMiss);
    Moves(cfg, two, t, UpsMiss, UpsRound(s.now, {}, {}));
  }

  lemma TakesWriteLock(cfg: Config, actions: seq<Action>, t: nat, startedAt: nat) returns (longer: seq<Action>)
    requires Possible(cfg, actions) && At(Run(cfg, actions), t, UpsRound(startedAt, {}, {})) && Run(cfg, actions).mu == FREE
    ensures
      Possible(cfg, longer) &&
      var s, s' := Run(cfg, actions), Run(cfg, longer);
      && At(s', t, SetUps(startedAt, s.now)) && s'.mu == RWMutex({}, None, Some(t)) && s'.data == s.data && OnlyMoves(s, s', t)
  {
    hide Run, Possible, Act, StepOf, CanStep;
    var s := Run(cfg, actions);
    var one := actions + [Step(t, Go)];
    var two := one + [Step(t, Go)];
    var three := two + [Step(t, Go)];
    longer := three + [Step(t, Go)];
    LocksActs(cfg, s.data, s.now, t, startedAt);
    Moves(cfg, actions, t, UpsRound(startedAt, {}, {}), UpsWantWrite(startedAt));
    Moves(cfg, one, t, UpsWantWrite(startedAt), UpsAwaitWrite(startedAt));
    Moves(cfg, two, t, UpsAwaitWrite(startedAt), UpsStamp(startedAt));
    Moves(cfg, three, t, UpsStamp(startedAt), SetUps(startedAt, s.now));
  }

  lemma WritesFields(cfg: Config, actions: seq<Action>, t: nat, startedAt: nat, at: nat) returns (longer: seq<Action>)
    requires Possible(cfg, actions) && At(Run(cfg, actions), t, SetUps(startedAt, at))
    requires Run(cfg, actions).mu == RWMutex({}, None, Some(t))
    ensures
      Possible(cfg, longer) &&
      var s, s' := Run(cfg, actions), Run(cfg, longer);
      && s'.mu == FREE && s'.data.upsLog == s.data.upsLog + [Publication(t, startedAt, at)] && OnlyMoves(s, s', t)
      && t < |s'.threads| && s'.threads[t].pc.Done?
  {
    hide Run, Possible, Act, StepOf, CanStep;
    var s := Run(cfg, actions);
    var one := actions + [Step(t, Go)];
    var two := one + [Step(t, Go)];
    var three := two + [Step(t, Go)];
    longer := three + [Step(t, Go)];
    WritesActs(cfg, s.data, s.now, t, startedAt, at);
    Moves(cfg, actions, t, SetUps(startedAt, at), SetErrs(at));
    WritesActs(cfg, Run(cfg, one).data, s.now, t, startedAt, at);
    Moves(cfg, one, t, SetErrs(at), SetUpsAt(at));
    WritesActs(cfg, Run(cfg, two).data, s.now, t, startedAt, at);
    Moves(cfg, two, t, SetUpsAt(at), UpsWritten);
    var d := Run(cfg, three).data;
    WritesActs(cfg, d, s.now, t, startedAt, at);
    Moves(cfg, three, t, UpsWritten, Done(Releases(t, t, |d.upsLog| - 1, Own)));
  }

  /** It does happen: a slow round overwrites the result of one that started later and was published earlier. */
  lemma SlowRoundOverwrites(cfg: Config) returns (actions: seq<Action>)
    requires cfg.hasUpstream
    ensures Possible(cfg, actions)
    ensures
      var d := Run(cfg, actions).data;
      && |d.upsLog| == 2 && d.upsLog[1].startedAt < d.upsLog[0].startedAt && d.ups == Some(d.upsLog[1].owner)
  {
    var starts := [] + [Start(NOTHING)] + [Start(NOTHING)];
    TwoCalls(cfg);
    hide Run, Possible;
    actions := RoundStarts(cfg, starts, 0);
    Goes(cfg, actions, Tick(1));
    actions := actions + [Tick(1)];
    actions := RoundStarts(cfg, actions, 1);
    actions := TakesWriteLock(cfg, actions, 1, 1);
    actions := WritesFields(cfg, actions, 1, 1, 1);
    actions := TakesWriteLock(cfg, actions, 0, 0);
    actions := WritesFields(cfg, actions, 0, 0, 1);
    RunKeepsInvariant(cfg, actions);
  }

  lemma TwoCalls(cfg: Config)
    requires cfg.hasUpstream
    ensures
      var starts := [] + [Start(NOTHING)] + [Start(NOTHING)];
      && Possible(cfg, starts)
      && Run(cfg, starts) == INIT.(threads := [Thread(NOTHING, WantUpsCheck), Thread(NOTHING, WantUpsCheck)])
  {
    NothingRun(cfg);
    hide Run, Possible, CanStep;
    Goes(cfg, [], Start(NOTHING));
    Goes(cfg, [] + [Start(NOTHING)], Start(NOTHING));
  }

  lemma NothingRun(cfg: Config)
    ensures Possible(cfg, []) && Run(cfg, []) == INIT
  {
    hide Enabled, After;
  }
}
