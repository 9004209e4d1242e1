/** What every step of the refresh protocol keeps. */
module RefreshInvariant {
  import opened Options
  import opened RefreshProtocol

  // ---------------------------------------------------------------- the locks

  /** The locks are held by exactly the threads whose program counter says so, and no reader runs beside a writer. */
  ghost predicate Locks(s: State) {
    && (forall t | t in s.mu.readers :: t < |s.threads|)
    && (s.mu.waiting.Some? ==> s.mu.waiting.value < |s.threads|)
    && (s.mu.writer.Some? ==> s.mu.writer.value < |s.threads|)
    && (s.refreshMu.Some? ==> s.refreshMu.value < |s.threads|)
    && (forall t | 0 <= t < |s.threads| :: LocksOf(s, t, s.threads[t].pc))
    && (s.mu.writer.Some? ==> s.mu.readers == {} && s.mu.waiting.None?)
  }

  ghost predicate LocksOf(s: State, t: nat, pc: Pc) {
    && (t in s.mu.readers <==> Mu(pc) == Reading)
    && (s.mu.waiting == Some(t) <==> Mu(pc) == Waiting)
    && (s.mu.writer == Some(t) <==> Mu(pc) == Writing)
    && (s.refreshMu == Some(t) <==> HoldsRefresh(pc))
  }

  lemma StepKeepsLocks(cfg: Config, s: State, t: nat, c: Choice)
    requires Locks(s) && CanStep(cfg, s, t, c)
    ensures Locks(StepOf(cfg, s, t, c))
  {
    hide Act, Mu, HoldsRefresh;
    var s' := StepOf(cfg, s, t, c);
    var from, to := Mu(s.threads[t].pc), Mu(s'.threads[t].pc);
    forall u | 0 <= u < |s'.threads| ensures LocksOf(s', u, s'.threads[u].pc) {
      assert LocksOf(s, u, s.threads[u].pc) && LocksOf(s, t, s.threads[t].pc);
    }
  }

  // ---------------------------------------------------------------- publications

  ghost predicate Complete(cfg: Config, d: Data, t: nat) {
    t in d.heap && d.heap[t].Keys == cfg.environments
  }

  /** A call that is past its own publication, or that never makes one. */
  predicate Finished(pc: Pc) {
    pc.SetInvsAt? || pc.Written? || pc.Return? || pc.Done?
  }

  predicate UpsFinished(pc: Pc) {
    pc.SetErrs? || pc.SetUpsAt? || pc.UpsWritten? || pc.Done?
  }

  /** Each name of the round ended in exactly one of the two maps. */
  ghost predicate RoundDone(f: Fetches, names: set<string>) {
    f.found.Keys !! f.failed.Keys && f.found.Keys + f.failed.Keys == names
  }

  /** A round in progress: the wanted names are waiting, being fetched, or in exactly one of the maps. */
  ghost predicate InProgress(f: Fetches, wanted: set<string>, todo: set<string>, running: set<string>) {
    && |running| <= UPSTREAM_CONCURRENCY && todo !! running && todo + running <= wanted
    && RoundDone(f, wanted - todo - running)
  }

  ghost predicate PublicationOk(cfg: Config, s: State, p: Publication) {
    && p.startedAt <= p.at <= s.now && p.owner < |s.threads|
    && Complete(cfg, s.data, p.owner) && Finished(s.threads[p.owner].pc)
  }

  ghost predicate UpsPublicationOk(cfg: Config, s: State, p: Publication) {
    && p.startedAt <= p.at <= s.now && p.owner < |s.threads|
    && p.owner in s.data.fetched && s.threads[p.owner].call.UpstreamFor?
    && RoundDone(s.data.fetched[p.owner], Wanted(cfg, s.threads[p.owner].call.names))
    && UpsFinished(s.threads[p.owner].pc)
  }

  /** Rounds do not overlap: each starts at least a second after the one before was published. */
  ghost predicate Spaced(log: seq<Publication>) {
    forall i, j | 0 <= i < j < |log| :: log[i].at + SECOND <= log[j].startedAt
  }

  /** Upstream rounds may overlap, but their publications follow one another. */
  ghost predicate Stamped(log: seq<Publication>) {
    forall i, j | 0 <= i < j < |log| :: log[i].at <= log[j].at
  }

  ghost predicate NotAfter(log: seq<Publication>, at: nat) {
    log != [] ==> log[|log| - 1].at <= at
  }

  ghost predicate LogOk(cfg: Config, s: State) {
    && (forall p | p in s.data.log :: PublicationOk(cfg, s, p))
    && (forall p | p in s.data.upsLog :: UpsPublicationOk(cfg, s, p))
    && Spaced(s.data.log) && Stamped(s.data.upsLog)
  }

  function LastOwner(log: seq<Publication>): Option<nat> {
    if log == [] then None else Some(log[|log| - 1].owner)
  }

  /** Where the thread is that holds the write lock; Written stands for none. */
  function WriterPc(s: State): Pc {
    if s.mu.writer.Some? && s.mu.writer.value < |s.threads| then s.threads[s.mu.writer.value].pc else Written
  }

  /** The fields name the last publication; only a writer sees them differ while it writes them one by one. */
  ghost predicate CacheOk(s: State) {
    var d, pc := s.data, WriterPc(s);
    && d.invs == LastOwner(d.log) && d.ups == LastOwner(d.upsLog)
    && (d.log != [] ==> d.invsAt == d.log[|d.log| - 1].at || pc.SetInvsAt?)
    && (d.errs == d.ups || pc.SetErrs?)
    && (d.upsLog != [] ==> d.upsAt == d.upsLog[|d.upsLog| - 1].at || pc.SetErrs? || pc.SetUpsAt?)
  }

  // ---------------------------------------------------------------- threads

  predicate InventoriesCall(call: Call) {
    call.Inventories? || call.CachedInventories?
  }

  /** How old a map may be that a call takes without making its own: the bound of the documentation. */
  function Limit(cfg: Config, call: Call): int {
    if Refreshing(call) || cfg.ttl < SECOND then SECOND else cfg.ttl
  }

  /** At that time the last publication was younger than the limit. */
  ghost predicate Younger(log: seq<Publication>, at: nat, limit: int) {
    log != [] && log[|log| - 1].at <= at && at - log[|log| - 1].at < limit
  }

  ghost predicate OldEnough(log: seq<Publication>, at: nat) {
    log != [] ==> log[|log| - 1].at + SECOND <= at
  }

  ghost predicate OutcomeOk(cfg: Config, d: Data, t: nat, call: Call, o: Outcome) {
    match o
    case Found(invs, entry, verdict) =>
      && InventoriesCall(call) && entry < |d.log| && d.log[entry].owner == invs
      && (match verdict
          case Own => invs == t
          case Recent(at) => d.log[entry].at <= at && at - d.log[entry].at < Limit(cfg, call)
          case AnyAge => call.CachedInventories?)
    case Input(invs, entry, ups, errs, upsEntry) =>
      && call.CachedInput? && entry < |d.log| && d.log[entry].owner == invs && ups == errs
      && (ups.Some? <==> upsEntry.Some?)
      && (ups.Some? ==> upsEntry.value < |d.upsLog| && d.upsLog[upsEntry.value].owner == ups.value)
    case NoInput => call.CachedInput?
    case Releases(ups, errs, entry, verdict) =>
      && call.UpstreamFor? && ups == errs && entry < |d.upsLog| && d.upsLog[entry].owner == ups
      && ups in d.fetched && Covers(d.fetched[ups], Wanted(cfg, call.names))
      && (match verdict
          case Own => ups == t
          case Recent(at) => !call.refreshUpstream && d.upsLog[entry].at <= at && at - d.upsLog[entry].at < cfg.ttl
          case AnyAge => false)
    case NoReleases => call.UpstreamFor? && !cfg.hasUpstream
  }

  /** What is known when a thread of Inventories is at a program point. */
  ghost predicate InventoriesOk(cfg: Config, s: State, t: nat, call: Call, pc: Pc) {
    var d := s.data;
    InventoriesCall(call) &&
    match pc
    case Hit(at) => !Refreshing(call) && Younger(d.log, at, cfg.ttl)
    case Rechecked(recent, judged) =>
      judged == d.invs && if recent.Some? then Younger(d.log, recent.value, SECOND) else OldEnough(d.log, s.now)
    case ReadUnlocked(at, judged) => judged == d.invs && Younger(d.log, at, SECOND)
    case Round(startedAt, todo) =>
      && t in d.heap && todo <= cfg.environments && d.heap[t].Keys == cfg.environments - todo
      && startedAt <= s.now && OldEnough(d.log, startedAt)
    case WantWrite(startedAt) => Complete(cfg, d, t) && startedAt <= s.now && OldEnough(d.log, startedAt)
    case AwaitWrite(startedAt) => Complete(cfg, d, t) && startedAt <= s.now && OldEnough(d.log, startedAt)
    case Stamp(startedAt) => Complete(cfg, d, t) && startedAt <= s.now && OldEnough(d.log, startedAt)
    case SetInvs(startedAt, at) => Complete(cfg, d, t) && startedAt <= at <= s.now && OldEnough(d.log, startedAt)
    case SetInvsAt(at) => LastOwner(d.log) == Some(t) && d.log[|d.log| - 1].at == at
    case Written => LastOwner(d.log) == Some(t)
    case Return(o) => o.Found? && OutcomeOk(cfg, d, t, call, o)
    case _ => true
  }

  ghost predicate CachedOk(cfg: Config, s: State, call: Call, pc: Pc) {
    var d := s.data;
    match pc
    case GotCached(got) => call.CachedInventories? && got == d.invs
    case GotInvs(got) => call.CachedInput? && got == d.invs
    case GotUps(got, gotUps) => call.CachedInput? && got == d.invs && got.Some? && gotUps == d.ups
    case _ => if pc.WantCached? || pc.ReadCached? then call.CachedInventories? else call.CachedInput?
  }

  ghost predicate UpstreamOk(cfg: Config, s: State, t: nat, call: Call, pc: Pc) {
    var d := s.data;
    call.UpstreamFor? &&
    var wanted := Wanted(cfg, call.names);
    match pc
    case UpsHit(at) =>
      && !call.refreshUpstream && Younger(d.upsLog, at, cfg.ttl) && d.ups.Some? && d.ups.value in d.fetched
      && Covers(d.fetched[d.ups.value], wanted)
    case UpsHitErrs(at, gotUps) =>
      && !call.refreshUpstream && Younger(d.upsLog, at, cfg.ttl) && gotUps == d.ups
      && gotUps.Some? && gotUps.value in d.fetched
      && Covers(d.fetched[gotUps.value], wanted)
    case UpsRound(startedAt, todo, running) =>
      startedAt <= s.now && t in d.fetched && InProgress(d.fetched[t], wanted, todo, running)
    case UpsWantWrite(startedAt) => startedAt <= s.now && t in d.fetched && RoundDone(d.fetched[t], wanted)
    case UpsAwaitWrite(startedAt) => startedAt <= s.now && t in d.fetched && RoundDone(d.fetched[t], wanted)
    case UpsStamp(startedAt) => startedAt <= s.now && t in d.fetched && RoundDone(d.fetched[t], wanted)
    case SetUps(startedAt, at) =>
      startedAt <= at <= s.now && NotAfter(d.upsLog, at) && t in d.fetched && RoundDone(d.fetched[t], wanted)
    case SetErrs(at) => LastOwner(d.upsLog) == Some(t) && d.upsLog[|d.upsLog| - 1].at == at
    case SetUpsAt(at) => LastOwner(d.upsLog) == Some(t) && d.upsLog[|d.upsLog| - 1].at == at
    case UpsWritten => LastOwner(d.upsLog) == Some(t)
    case _ => true
  }

  ghost predicate ThreadOk(cfg: Config, s: State, t: nat)
    requires t < |s.threads|
  {
    var call, pc := s.threads[t].call, s.threads[t].pc;
    if pc.Done? then OutcomeOk(cfg, s.data, t, call, pc.result)
    else if CachedPc(pc) then CachedOk(cfg, s, call, pc)
    else if UpstreamPc(pc) then UpstreamOk(cfg, s, t, call, pc)
    else InventoriesOk(cfg, s, t, call, pc)
  }

  ghost predicate Invariant(cfg: Config, s: State) {
    && Locks(s) && LogOk(cfg, s) && CacheOk(s)
    && forall t | 0 <= t < |s.threads| :: ThreadOk(cfg, s, t)
  }

  // ---------------------------------------------------------------- what a step may change

  ghost predicate SameExcept<T>(before: map<nat, T>, after: map<nat, T>, t: nat) {
    && t in after
    && forall u | u != t :: (u in before <==> u in after) && (u in before ==> before[u] == after[u])
  }

  /** A step of a thread changes only its own maps, and these only in its round; it publishes only as a writer. */
  ghost predicate DataFrame(pc: Pc, d: Data, d': Data, t: nat) {
    && (d'.heap == d.heap || ((pc.Rechecked? || pc.Round?) && SameExcept(d.heap, d'.heap, t)))
    && (d'.fetched == d.fetched || ((pc.UpsMiss? || pc.UpsRound?) && SameExcept(d.fetched, d'.fetched, t)))
    && d'.invs == (if pc.SetInvs? then Some(t) else d.invs)
    && d'.log == (if pc.SetInvs? then d.log + [Publication(t, pc.startedAt, pc.at)] else d.log)
    && d'.invsAt == (if pc.SetInvsAt? then pc.at else d.invsAt)
    && d'.ups == (if pc.SetUps? then Some(t) else d.ups)
    && d'.upsLog == (if pc.SetUps? then d.upsLog + [Publication(t, pc.startedAt, pc.at)] else d.upsLog)
    && d'.errs == (if pc.SetErrs? then Some(t) else d.errs)
    && d'.upsAt == (if pc.SetUpsAt? then pc.at else d.upsAt)
  }

  lemma ActFrames(cfg: Config, d: Data, now: nat, t: nat, th: Thread, c: Choice)
    requires Act(cfg, d, now, t, th, c).Some?
    ensures DataFrame(th.pc, d, Act(cfg, d, now, t, th, c).value.data, t)
  {
    hide ActInventories, ActCached, ActUpstream, DataFrame;
    if CachedPc(th.pc) {
      CachedFrames(d, t, th.pc);
    } else if UpstreamPc(th.pc) {
      UpstreamFrames(cfg, d, now, t, th.call, th.pc, c);
    } else {
      InventoriesFrames(cfg, d, now, t, th.call, th.pc, c);
    }
  }

  lemma CachedFrames(d: Data, t: nat, pc: Pc)
    requires CachedPc(pc) && ActCached(d, pc).Some?
    ensures DataFrame(pc, d, ActCached(d, pc).value.data, t)
  {
  }

  lemma UpstreamFrames(cfg: Config, d: Data, now: nat, t: nat, call: Call, pc: Pc, c: Choice)
    requires UpstreamPc(pc) && ActUpstream(cfg, d, now, t, call, pc, c).Some?
    ensures DataFrame(pc, d, ActUpstream(cfg, d, now, t, call, pc, c).value.data, t)
  {
    hide Covers, AddFetch, CachedFetches, Wanted;
  }

  lemma InventoriesFrames(cfg: Config, d: Data, now: nat, t: nat, call: Call, pc: Pc, c: Choice)
    requires !CachedPc(pc) && !UpstreamPc(pc) && ActInventories(cfg, d, now, t, call, pc, c).Some?
    ensures DataFrame(pc, d, ActInventories(cfg, d, now, t, call, pc, c).value.data, t)
  {
    hide WorkerResult;
  }

  /** A step of thread t and what it leaves alone. */
  ghost predicate Stepped(s: State, s': State, t: nat) {
    && t < |s.threads| == |s'.threads| && s'.now == s.now
    && (forall u | 0 <= u < |s.threads| && u != t :: s'.threads[u] == s.threads[u])
    && s'.threads[t].call == s.threads[t].call
    && DataFrame(s.threads[t].pc, s.data, s'.data, t)
  }

  lemma StepIsStep(cfg: Config, s: State, t: nat, c: Choice)
    requires CanStep(cfg, s, t, c)
    ensures Stepped(s, StepOf(cfg, s, t, c), t)
  {
    hide Act, Mu, HoldsRefresh, Move, CanMove;
    ActFrames(cfg, s.data, s.now, t, s.threads[t], c);
  }

  /** Program points that two threads can be at together. */
  ghost predicate Beside(p: Pc, q: Pc) {
    && !(HoldsRefresh(p) && HoldsRefresh(q))
    && !(Mu(p) == Writing && (Mu(q) == Reading || Mu(q) == Writing))
  }

  lemma LocksExclude(s: State, t: nat, u: nat)
    requires Locks(s) && t < |s.threads| && u < |s.threads| && t != u
    ensures Beside(s.threads[t].pc, s.threads[u].pc)
  {
    hide Mu, HoldsRefresh;
    assert LocksOf(s, t, s.threads[t].pc) && LocksOf(s, u, s.threads[u].pc);
  }

  // ---------------------------------------------------------------- other threads

  lemma OutcomeStays(cfg: Config, s: State, s': State, t: nat, u: nat, call: Call, o: Outcome)
    requires LogOk(cfg, s) && Stepped(s, s', t) && OutcomeOk(cfg, s.data, u, call, o)
    ensures OutcomeOk(cfg, s'.data, u, call, o)
  {
    hide Covers, Wanted, Complete, RoundDone, Spaced;
    if o.Releases? {
      assert s.data.upsLog[o.entry] in s.data.upsLog;
      assert UpsPublicationOk(cfg, s, s.data.upsLog[o.entry]);
    }
  }

  lemma InventoriesStay(cfg: Config, s: State, s': State, t: nat, u: nat)
    requires LogOk(cfg, s) && Stepped(s, s', t) && u < |s.threads| && u != t
    requires Beside(s.threads[t].pc, s.threads[u].pc)
    requires InventoriesOk(cfg, s, u, s.threads[u].call, s.threads[u].pc)
    ensures InventoriesOk(cfg, s', u, s.threads[u].call, s.threads[u].pc)
  {
    hide OutcomeOk, LogOk;
    var pc := s.threads[u].pc;
    if pc.Return? {
      OutcomeStays(cfg, s, s', t, u, s.threads[u].call, pc.result);
    }
  }

  lemma CachedStay(cfg: Config, s: State, s': State, t: nat, u: nat)
    requires Stepped(s, s', t) && u < |s.threads| && u != t && Beside(s.threads[t].pc, s.threads[u].pc)
    requires CachedPc(s.threads[u].pc) && CachedOk(cfg, s, s.threads[u].call, s.threads[u].pc)
    ensures CachedOk(cfg, s', s.threads[u].call, s.threads[u].pc)
  {
  }

  lemma UpstreamStays(cfg: Config, s: State, s': State, t: nat, u: nat)
    requires LogOk(cfg, s) && CacheOk(s) && Stepped(s, s', t) && u < |s.threads| && u != t
    requires Beside(s.threads[t].pc, s.threads[u].pc)
    requires UpstreamPc(s.threads[u].pc) && UpstreamOk(cfg, s, u, s.threads[u].call, s.threads[u].pc)
    ensures UpstreamOk(cfg, s', u, s.threads[u].call, s.threads[u].pc)
  {
    hide Covers, Wanted, RoundDone;
    var pc := s.threads[u].pc;
    if pc.UpsHit? || pc.UpsHitErrs? {
      var last := s.data.upsLog[|s.data.upsLog| - 1];
      assert last in s.data.upsLog && UpsPublicationOk(cfg, s, last);
    }
  }

  lemma OthersStay(cfg: Config, s: State, t: nat, c: Choice, u: nat)
    requires Invariant(cfg, s) && CanStep(cfg, s, t, c) && u < |s.threads| && u != t
    ensures ThreadOk(cfg, StepOf(cfg, s, t, c), u)
  {
    var s' := StepOf(cfg, s, t, c);
    StepIsStep(cfg, s, t, c);
    LocksExclude(s, t, u);
    hide StepOf, CanStep, Locks, LogOk, CacheOk, Stepped, Beside, OutcomeOk, InventoriesOk, CachedOk, UpstreamOk;
    assert s'.threads[u] == s.threads[u] by { assert Stepped(s, s', t); }
    assert ThreadOk(cfg, s, u);
    var pc := s.threads[u].pc;
    if pc.Done? {
      OutcomeStays(cfg, s, s', t, u, s.threads[u].call, pc.result);
    } else if CachedPc(pc) {
      CachedStay(cfg, s, s', t, u);
    } else if UpstreamPc(pc) {
      UpstreamStays(cfg, s, s', t, u);
    } else {
      InventoriesStay(cfg, s, s', t, u);
    }
  }

  // ---------------------------------------------------------------- the thread itself

  /** A reader finds the fields as the last publication left them, not half written. */
  ghost predicate Whole(d: Data) {
    && d.errs == d.ups
    && (d.log != [] ==> d.invsAt == d.log[|d.log| - 1].at)
    && (d.upsLog != [] ==> d.upsAt == d.upsLog[|d.upsLog| - 1].at)
  }

  lemma ReadersSeeWhole(s: State, t: nat)
    requires Locks(s) && CacheOk(s) && t < |s.threads| && Mu(s.threads[t].pc) == Reading
    ensures Whole(s.data)
  {
    hide Mu, HoldsRefresh;
    assert LocksOf(s, t, s.threads[t].pc);
  }

  lemma LastPublished(cfg: Config, s: State)
    requires LogOk(cfg, s)
    ensures s.data.log != [] ==> PublicationOk(cfg, s, s.data.log[|s.data.log| - 1])
    ensures s.data.upsLog != [] ==> UpsPublicationOk(cfg, s, s.data.upsLog[|s.data.upsLog| - 1])
  {
    if s.data.log != [] {
      assert s.data.log[|s.data.log| - 1] in s.data.log;
    }
    if s.data.upsLog != [] {
      assert s.data.upsLog[|s.data.upsLog| - 1] in s.data.upsLog;
    }
  }

  /** The facts about the shared data that a step of thread t relies on. */
  ghost predicate Known(cfg: Config, s: State, t: nat) {
    && t < |s.threads|
    && s.data.invs == LastOwner(s.data.log) && s.data.ups == LastOwner(s.data.upsLog)
    && (Mu(s.threads[t].pc) == Reading ==> Whole(s.data))
    && (s.data.log != [] ==> PublicationOk(cfg, s, s.data.log[|s.data.log| - 1]))
    && (s.data.upsLog != [] ==> UpsPublicationOk(cfg, s, s.data.upsLog[|s.data.upsLog| - 1]))
  }

  lemma InvariantIsKnown(cfg: Config, s: State, t: nat)
    requires Invariant(cfg, s) && t < |s.threads|
    ensures Known(cfg, s, t)
  {
    LastPublished(cfg, s);
    if Mu(s.threads[t].pc) == Reading {
      ReadersSeeWhole(s, t);
    }
  }

  /** Thread t, at pc, goes on to what next says. */
  ghost predicate GoesOn(s: State, s': State, t: nat, call: Call, pc: Pc, next: Option<Next>) {
    && t < |s.threads| && s.threads[t] == Thread(call, pc)
    && next.Some? && s'.data == next.value.data && s'.now == s.now
    && s'.threads == s.threads[t := Thread(call, next.value.pc)]
  }

  predicate RoundPc(pc: Pc) {
    pc.Rechecked? || pc.Round? || pc.UpsMiss? || pc.UpsRound?
  }

  predicate PublishPc(pc: Pc) {
    || pc.WantWrite? || pc.AwaitWrite? || pc.Stamp? || pc.SetInvs? || pc.SetInvsAt? || pc.Written?
    || pc.UpsWantWrite? || pc.UpsAwaitWrite? || pc.UpsStamp? || pc.SetUps? || pc.SetErrs? || pc.SetUpsAt? || pc.UpsWritten?
  }

  lemma CheckGoesOn(cfg: Config, s: State, s': State, t: nat, call: Call, pc: Pc, c: Choice)
    requires Known(cfg, s, t) && GoesOn(s, s', t, call, pc, ActInventories(cfg, s.data, s.now, t, call, pc, c))
    requires InventoriesOk(cfg, s, t, call, pc) && !RoundPc(pc) && !PublishPc(pc) && !pc.Done?
    ensures ThreadOk(cfg, s', t)
  {
    hide WorkerResult, UpstreamOk, CachedOk, UpsPublicationOk, HoldsRefresh, Complete;
  }

  lemma RoundGoesOn(cfg: Config, s: State, s': State, t: nat, call: Call, pc: Pc, c: Choice)
    requires Known(cfg, s, t) && GoesOn(s, s', t, call, pc, ActInventories(cfg, s.data, s.now, t, call, pc, c))
    requires InventoriesOk(cfg, s, t, call, pc) && RoundPc(pc)
    ensures ThreadOk(cfg, s', t)
  {
    hide WorkerResult, UpstreamOk, CachedOk, UpsPublicationOk, PublicationOk, HoldsRefresh, OutcomeOk;
  }

  lemma PublishGoesOn(cfg: Config, s: State, s': State, t: nat, call: Call, pc: Pc, c: Choice)
    requires Known(cfg, s, t) && GoesOn(s, s', t, call, pc, ActInventories(cfg, s.data, s.now, t, call, pc, c))
    requires InventoriesOk(cfg, s, t, call, pc) && PublishPc(pc)
    ensures ThreadOk(cfg, s', t)
  {
    hide WorkerResult, UpstreamOk, CachedOk, UpsPublicationOk, PublicationOk, HoldsRefresh;
  }

  lemma CachedGoesOn(cfg: Config, s: State, s': State, t: nat, call: Call, pc: Pc)
    requires Known(cfg, s, t) && GoesOn(s, s', t, call, pc, ActCached(s.data, pc))
    requires CachedPc(pc) && CachedOk(cfg, s, call, pc)
    ensures ThreadOk(cfg, s', t)
  {
    hide UpstreamOk, UpsPublicationOk, PublicationOk, HoldsRefresh;
  }

  lemma UpsCheckGoesOn(cfg: Config, s: State, s': State, t: nat, call: Call, pc: Pc, c: Choice)
    requires Known(cfg, s, t) && GoesOn(s, s', t, call, pc, ActUpstream(cfg, s.data, s.now, t, call, pc, c))
    requires UpstreamPc(pc) && UpstreamOk(cfg, s, t, call, pc) && !RoundPc(pc) && !PublishPc(pc)
    ensures ThreadOk(cfg, s', t)
  {
    hide InventoriesOk, CachedOk, PublicationOk, HoldsRefresh, RoundDone, Covers, Wanted;
  }

  lemma StartKeepsProgress(f: Fetches, wanted: set<string>, todo: set<string>, running: set<string>, name: string)
    requires InProgress(f, wanted, todo, running) && name in todo && |running| < UPSTREAM_CONCURRENCY
    ensures InProgress(f, wanted, todo - {name}, running + {name})
  {
    assert wanted - (todo - {name}) - (running + {name}) == wanted - todo - running;
  }

  lemma EndKeepsProgress(f: Fetches, wanted: set<string>, todo: set<string>, running: set<string>, c: Choice)
    requires InProgress(f, wanted, todo, running) && c.EndFetch? && c.name in running
    ensures InProgress(AddFetch(f, c), wanted, todo, running - {c.name})
  {
    var done, f' := wanted - todo - running, AddFetch(f, c);
    assert wanted - todo - (running - {c.name}) == done + {c.name};
    assert c.name !in done;
    FetchAdds(f, c, done);
  }

  lemma FetchAdds(f: Fetches, c: Choice, names: set<string>)
    requires RoundDone(f, names) && c.EndFetch? && c.name !in names
    ensures RoundDone(AddFetch(f, c), names + {c.name})
  {
    assert c.name !in f.found.Keys + f.failed.Keys;
    if c.releases.Some? {
      assert AddFetch(f, c).found.Keys == f.found.Keys + {c.name};
    } else {
      assert AddFetch(f, c).failed.Keys == f.failed.Keys + {c.name};
    }
  }

  lemma UpsRoundStarts(cfg: Config, s: State, s': State, t: nat, call: Call, pc: Pc, c: Choice)
    requires GoesOn(s, s', t, call, pc, ActUpstream(cfg, s.data, s.now, t, call, pc, c))
    requires UpstreamOk(cfg, s, t, call, pc) && pc.UpsMiss?
    ensures ThreadOk(cfg, s', t)
  {
    hide InventoriesOk, CachedOk, HoldsRefresh, Wanted;
    var wanted := Wanted(cfg, call.names);
    assert wanted - wanted - {} == {};
  }

  lemma UpsRoundGoesOn(cfg: Config, s: State, s': State, t: nat, call: Call, pc: Pc, c: Choice)
    requires GoesOn(s, s', t, call, pc, ActUpstream(cfg, s.data, s.now, t, call, pc, c))
    requires UpstreamOk(cfg, s, t, call, pc) && pc.UpsRound?
    ensures ThreadOk(cfg, s', t)
  {
    hide InventoriesOk, CachedOk, HoldsRefresh, Wanted, AddFetch, OutcomeOk, InProgress, RoundDone;
    FetchGoesOn(s.data.fetched[t], Wanted(cfg, call.names), pc, c);
  }

  lemma FetchGoesOn(f: Fetches, wanted: set<string>, pc: Pc, c: Choice)
    requires pc.UpsRound? && InProgress(f, wanted, pc.todo, pc.running)
    ensures c.StartFetch? && c.name in pc.todo && |pc.running| < UPSTREAM_CONCURRENCY ==>
              InProgress(f, wanted, pc.todo - {c.name}, pc.running + {c.name})
    ensures c.EndFetch? && c.name in pc.running ==> InProgress(AddFetch(f, c), wanted, pc.todo, pc.running - {c.name})
    ensures pc.todo == {} && pc.running == {} ==> RoundDone(f, wanted)
  {
    hide InProgress, AddFetch, RoundDone;
    if c.StartFetch? && c.name in pc.todo && |pc.running| < UPSTREAM_CONCURRENCY {
      StartKeepsProgress(f, wanted, pc.todo, pc.running, c.name);
    }
    if c.EndFetch? && c.name in pc.running {
      EndKeepsProgress(f, wanted, pc.todo, pc.running, c);
    }
    if pc.todo == {} && pc.running == {} {
      NothingLeft(f, wanted);
    }
  }

  lemma NothingLeft(f: Fetches, wanted: set<string>)
    requires InProgress(f, wanted, {}, {})
    ensures RoundDone(f, wanted)
  {
    assert wanted - {} - {} == wanted;
  }

  lemma UpsPublishGoesOn(cfg: Config, s: State, s': State, t: nat, call: Call, pc: Pc, c: Choice)
    requires Known(cfg, s, t) && GoesOn(s, s', t, call, pc, ActUpstream(cfg, s.data, s.now, t, call, pc, c))
    requires UpstreamPc(pc) && UpstreamOk(cfg, s, t, call, pc) && PublishPc(pc)
    ensures ThreadOk(cfg, s', t)
  {
    hide InventoriesOk, CachedOk, PublicationOk, HoldsRefresh, Wanted;
  }

  lemma StepGoesOn(cfg: Config, s: State, t: nat, c: Choice)
    requires Invariant(cfg, s) && CanStep(cfg, s, t, c)
    ensures ThreadOk(cfg, StepOf(cfg, s, t, c), t)
  {
    var s', call, pc := StepOf(cfg, s, t, c), s.threads[t].call, s.threads[t].pc;
    InvariantIsKnown(cfg, s, t);
    assert ThreadOk(cfg, s, t);
    hide ActCached, ActInventories, ActUpstream, Mu, HoldsRefresh, Move, CanMove;
    hide Known, InventoriesOk, CachedOk, UpstreamOk, OutcomeOk, Locks, LogOk, CacheOk;
    if CachedPc(pc) {
      CachedGoesOn(cfg, s, s', t, call, pc);
    } else if UpstreamPc(pc) {
      UpstreamStepGoesOn(cfg, s, s', t, call, pc, c);
    } else {
      InventoriesStepGoesOn(cfg, s, s', t, call, pc, c);
    }
  }

  lemma UpstreamStepGoesOn(cfg: Config, s: State, s': State, t: nat, call: Call, pc: Pc, c: Choice)
    requires Known(cfg, s, t) && GoesOn(s, s', t, call, pc, ActUpstream(cfg, s.data, s.now, t, call, pc, c))
    requires UpstreamPc(pc) && UpstreamOk(cfg, s, t, call, pc)
    ensures ThreadOk(cfg, s', t)
  {
    hide ActUpstream, Known, UpstreamOk, ThreadOk;
    if pc.UpsMiss? {
      UpsRoundStarts(cfg, s, s', t, call, pc, c);
    } else if pc.UpsRound? {
      UpsRoundGoesOn(cfg, s, s', t, call, pc, c);
    } else if PublishPc(pc) {
      UpsPublishGoesOn(cfg, s, s', t, call, pc, c);
    } else {
      UpsCheckGoesOn(cfg, s, s', t, call, pc, c);
    }
  }

  lemma InventoriesStepGoesOn(cfg: Config, s: State, s': State, t: nat, call: Call, pc: Pc, c: Choice)
    requires Known(cfg, s, t) && GoesOn(s, s', t, call, pc, ActInventories(cfg, s.data, s.now, t, call, pc, c))
    requires !CachedPc(pc) && !UpstreamPc(pc) && ThreadOk(cfg, s, t)
    ensures ThreadOk(cfg, s', t)
  {
    assert !pc.Done?;
    assert InventoriesOk(cfg, s, t, call, pc);
    hide ActInventories, Known, InventoriesOk, ThreadOk;
    if RoundPc(pc) {
      RoundGoesOn(cfg, s, s', t, call, pc, c);
    } else if PublishPc(pc) {
      PublishGoesOn(cfg, s, s', t, call, pc, c);
    } else {
      CheckGoesOn(cfg, s, s', t, call, pc, c);
    }
  }

  // ---------------------------------------------------------------- fields and log

  /** Where a writer goes. */
  lemma NextPoint(cfg: Config, d: Data, now: nat, t: nat, th: Thread, c: Choice)
    requires Act(cfg, d, now, t, th, c).Some?
    ensures
      var pc, to := th.pc, Act(cfg, d, now, t, th, c).value.pc;
      && (to.SetInvsAt? <==> pc.SetInvs?) && (to.SetErrs? <==> pc.SetUps?) && (to.SetUpsAt? <==> pc.SetErrs?)
  {
    if CachedPc(th.pc) {
      hide ActInventories, ActUpstream;
    } else if UpstreamPc(th.pc) {
      hide ActInventories, ActCached, Covers, AddFetch, CachedFetches;
    } else {
      hide ActUpstream, ActCached, WorkerResult;
    }
  }

  /** Beside a writer, another thread's step leaves the writer alone. */
  lemma WriterStays(cfg: Config, s: State, t: nat, c: Choice)
    requires Locks(s) && CanStep(cfg, s, t, c)
    ensures
      var s' := StepOf(cfg, s, t, c);
      if Mu(s'.threads[t].pc) == Writing then s'.mu.writer == Some(t)
      else if Mu(s.threads[t].pc) == Writing then s'.mu.writer == None
      else s'.mu.writer == s.mu.writer && WriterPc(s') == WriterPc(s)
    ensures Mu(s.threads[t].pc) == Writing ==> s.mu.writer == Some(t)
  {
    hide Act, Mu, HoldsRefresh;
    assert LocksOf(s, t, s.threads[t].pc);
  }

  /** What a thread that writes fields knows of the last publication. */
  ghost predicate WriterKnows(d: Data, t: nat, pc: Pc) {
    && (pc.SetInvsAt? ==> LastOwner(d.log) == Some(t) && d.log[|d.log| - 1].at == pc.at)
    && (pc.SetErrs? || pc.SetUpsAt? ==> LastOwner(d.upsLog) == Some(t) && d.upsLog[|d.upsLog| - 1].at == pc.at)
  }

  lemma CacheStays(s: State, s': State, t: nat)
    requires CacheOk(s) && Stepped(s, s', t) && WriterKnows(s.data, t, s.threads[t].pc)
    requires Mu(s.threads[t].pc) == Writing ==> WriterPc(s) == s.threads[t].pc
    requires
      if Mu(s'.threads[t].pc) == Writing then WriterPc(s') == s'.threads[t].pc
      else if Mu(s.threads[t].pc) == Writing then WriterPc(s') == Written
      else WriterPc(s') == WriterPc(s)
    requires
      var pc, to := s.threads[t].pc, s'.threads[t].pc;
      && (to.SetInvsAt? <==> pc.SetInvs?) && (to.SetErrs? <==> pc.SetUps?) && (to.SetUpsAt? <==> pc.SetErrs?)
    requires Mu(s'.threads[t].pc) == Writing && Mu(s.threads[t].pc) != Writing ==> WriterPc(s) == Written
    ensures CacheOk(s')
  {
    hide SameExcept, WriterPc;
  }

  lemma ThreadKnowsWrites(cfg: Config, s: State, t: nat)
    requires Invariant(cfg, s) && t < |s.threads|
    ensures WriterKnows(s.data, t, s.threads[t].pc)
  {
    hide Locks, LogOk, CacheOk, OutcomeOk, CachedOk, InProgress, RoundDone, Complete, Covers, Wanted;
    assert ThreadOk(cfg, s, t);
  }

  lemma StepKeepsCache(cfg: Config, s: State, t: nat, c: Choice)
    requires Invariant(cfg, s) && CanStep(cfg, s, t, c)
    ensures CacheOk(StepOf(cfg, s, t, c))
  {
    var s' := StepOf(cfg, s, t, c);
    StepIsStep(cfg, s, t, c);
    NextPoint(cfg, s.data, s.now, t, s.threads[t], c);
    WriterStays(cfg, s, t, c);
    FirstWriter(cfg, s, t, c);
    ThreadKnowsWrites(cfg, s, t);
    hide Act, LogOk, Locks, Stepped, CacheOk, Mu, Move, CanMove, ThreadOk, HoldsRefresh, WriterKnows;
    CacheStays(s, s', t);
  }

  /** A thread becomes the writer only when there is none. */
  lemma FirstWriter(cfg: Config, s: State, t: nat, c: Choice)
    requires Locks(s) && CanStep(cfg, s, t, c)
    ensures Mu(StepOf(cfg, s, t, c).threads[t].pc) == Writing && Mu(s.threads[t].pc) != Writing ==> WriterPc(s) == Written
  {
    hide Act, Mu, HoldsRefresh;
    assert LocksOf(s, t, s.threads[t].pc);
  }

  lemma PublicationStays(cfg: Config, s: State, s': State, t: nat, p: Publication)
    requires Stepped(s, s', t) && PublicationOk(cfg, s, p)
    requires Finished(s.threads[t].pc) ==> Finished(s'.threads[t].pc)
    ensures PublicationOk(cfg, s', p) && s'.data.heap[p.owner] == s.data.heap[p.owner]
  {
  }

  lemma UpsPublicationStays(cfg: Config, s: State, s': State, t: nat, p: Publication)
    requires Stepped(s, s', t) && UpsPublicationOk(cfg, s, p)
    requires UpsFinished(s.threads[t].pc) ==> UpsFinished(s'.threads[t].pc)
    ensures UpsPublicationOk(cfg, s', p) && s'.data.fetched[p.owner] == s.data.fetched[p.owner]
  {
    hide RoundDone, Wanted;
  }

  /** A finished thread stays finished. */
  lemma FinishedForGood(cfg: Config, d: Data, now: nat, t: nat, th: Thread, c: Choice)
    requires Act(cfg, d, now, t, th, c).Some?
    ensures
      var pc, to := th.pc, Act(cfg, d, now, t, th, c).value.pc;
      && (Finished(pc) || pc.SetInvs? ==> Finished(to)) && (UpsFinished(pc) || pc.SetUps? ==> UpsFinished(to))
  {
    hide WorkerResult, AddFetch, Covers, CachedFetches;
    if CachedPc(th.pc) {
      hide ActInventories, ActUpstream;
    } else if UpstreamPc(th.pc) {
      hide ActInventories, ActCached;
    } else {
      hide ActUpstream, ActCached;
    }
  }

  /** What a thread knows when it publishes. */
  ghost predicate PublisherKnows(cfg: Config, s: State, t: nat)
    requires t < |s.threads|
  {
    var call, pc, d := s.threads[t].call, s.threads[t].pc, s.data;
    && (pc.SetInvs? ==> Complete(cfg, d, t) && pc.startedAt <= pc.at <= s.now && OldEnough(d.log, pc.startedAt))
    && (pc.SetUps? ==>
          && call.UpstreamFor? && t in d.fetched && RoundDone(d.fetched[t], Wanted(cfg, call.names))
          && pc.startedAt <= pc.at <= s.now && NotAfter(d.upsLog, pc.at))
  }

  lemma LogStays(cfg: Config, s: State, s': State, t: nat)
    requires LogOk(cfg, s) && Stepped(s, s', t) && PublisherKnows(cfg, s, t)
    requires
      var pc, to := s.threads[t].pc, s'.threads[t].pc;
      && (Finished(pc) || pc.SetInvs? ==> Finished(to)) && (UpsFinished(pc) || pc.SetUps? ==> UpsFinished(to))
    ensures LogOk(cfg, s')
  {
    forall p | p in s'.data.log ensures PublicationOk(cfg, s', p) {
      if p in s.data.log {
        PublicationStays(cfg, s, s', t, p);
      }
    }
    forall p | p in s'.data.upsLog ensures UpsPublicationOk(cfg, s', p) {
      if p in s.data.upsLog {
        UpsPublicationStays(cfg, s, s', t, p);
      }
    }
    SpacedStays(cfg, s, s', t);
    hide SameExcept, RoundDone, Wanted;
    assert Stamped(s'.data.upsLog);
  }

  lemma SpacedStays(cfg: Config, s: State, s': State, t: nat)
    requires LogOk(cfg, s) && Stepped(s, s', t) && PublisherKnows(cfg, s, t)
    ensures Spaced(s'.data.log)
  {
    var log := s.data.log;
    if s.threads[t].pc.SetInvs? && log != [] {
      var last := |log| - 1;
      forall i | 0 <= i < |log| ensures log[i].at + SECOND <= s.threads[t].pc.startedAt {
        assert log[last] in log && log[i] in log;
        assert PublicationOk(cfg, s, log[last]);
      }
    }
  }

  lemma StepKeepsLog(cfg: Config, s: State, t: nat, c: Choice)
    requires Invariant(cfg, s) && CanStep(cfg, s, t, c)
    ensures LogOk(cfg, StepOf(cfg, s, t, c))
  {
    var s' := StepOf(cfg, s, t, c);
    StepIsStep(cfg, s, t, c);
    FinishedForGood(cfg, s.data, s.now, t, s.threads[t], c);
    assert PublisherKnows(cfg, s, t) by {
      assert ThreadOk(cfg, s, t);
      hide OutcomeOk, CachedOk, CacheOk, Locks, Act, InProgress;
    }
    hide Act, Finished, UpsFinished, LogOk, Locks, Stepped, CacheOk, Mu, Move, CanMove, ThreadOk;
    hide HoldsRefresh, PublisherKnows;
    LogStays(cfg, s, s', t);
  }

  // ---------------------------------------------------------------- every action, every run

  lemma StepKeepsInvariant(cfg: Config, s: State, t: nat, c: Choice)
    requires Invariant(cfg, s) && CanStep(cfg, s, t, c)
    ensures Invariant(cfg, StepOf(cfg, s, t, c))
  {
    StepKeepsLocks(cfg, s, t, c);
    StepKeepsLog(cfg, s, t, c);
    StepKeepsCache(cfg, s, t, c);
    var s' := StepOf(cfg, s, t, c);
    forall u | 0 <= u < |s'.threads| ensures ThreadOk(cfg, s', u) {
      if u == t {
        StepGoesOn(cfg, s, t, c);
      } else {
        OthersStay(cfg, s, t, c, u);
      }
    }
  }

  lemma TickKeepsInvariant(cfg: Config, s: State, to: nat)
    requires Invariant(cfg, s) && to >= s.now
    ensures Invariant(cfg, s.(now := to))
  {
    var s' := s.(now := to);
    hide Mu, HoldsRefresh, OutcomeOk, RoundDone, InProgress, Wanted, Complete;
    assert WriterPc(s') == WriterPc(s);
    forall t | 0 <= t < |s'.threads| ensures LocksOf(s', t, s'.threads[t].pc) {
      assert LocksOf(s, t, s.threads[t].pc);
    }
    forall p | p in s'.data.log ensures PublicationOk(cfg, s', p) {
      assert PublicationOk(cfg, s, p);
    }
    forall p | p in s'.data.upsLog ensures UpsPublicationOk(cfg, s', p) {
      assert UpsPublicationOk(cfg, s, p);
    }
    forall t | 0 <= t < |s'.threads| ensures ThreadOk(cfg, s', t) {
      ThreadWaits(cfg, s, to, t);
    }
  }

  lemma ThreadWaits(cfg: Config, s: State, to: nat, t: nat)
    requires t < |s.threads| && ThreadOk(cfg, s, t) && to >= s.now
    ensures ThreadOk(cfg, s.(now := to), t)
  {
    hide OutcomeOk, RoundDone, InProgress, Wanted, Complete, Covers;
  }

  lemma StartKeepsInvariant(cfg: Config, s: State, call: Call)
    requires Invariant(cfg, s)
    ensures Invariant(cfg, s.(threads := s.threads + [Thread(call, FirstPc(cfg, call))]))
  {
    var s' := s.(threads := s.threads + [Thread(call, FirstPc(cfg, call))]);
    forall t | 0 <= t < |s'.threads| ensures LocksOf(s', t, s'.threads[t].pc) {
      hide Mu, HoldsRefresh;
      if t < |s.threads| {
        assert LocksOf(s, t, s.threads[t].pc);
      } else {
        NewThreadHoldsNothing(cfg, s, call);
      }
    }
    hide Mu, HoldsRefresh, OutcomeOk, RoundDone, InProgress, Wanted, Complete, ThreadOk, FirstPc;
    assert WriterPc(s') == WriterPc(s);
    forall p | p in s'.data.log ensures PublicationOk(cfg, s', p) {
      assert PublicationOk(cfg, s, p);
    }
    forall p | p in s'.data.upsLog ensures UpsPublicationOk(cfg, s', p) {
      assert UpsPublicationOk(cfg, s, p);
    }
    forall t | 0 <= t < |s'.threads| ensures ThreadOk(cfg, s', t) {
      ThreadJoins(cfg, s, s', call, t);
    }
  }

  lemma NewThreadHoldsNothing(cfg: Config, s: State, call: Call)
    requires Locks(s)
    ensures LocksOf(s, |s.threads|, FirstPc(cfg, call))
  {
  }

  lemma ThreadJoins(cfg: Config, s: State, s': State, call: Call, t: nat)
    requires s' == s.(threads := s.threads + [Thread(call, FirstPc(cfg, call))]) && t < |s'.threads|
    requires t < |s.threads| ==> ThreadOk(cfg, s, t)
    ensures ThreadOk(cfg, s', t)
  {
    hide RoundDone, InProgress, Wanted, Complete, Covers;
  }

  lemma ActionKeepsInvariant(cfg: Config, s: State, a: Action)
    requires Invariant(cfg, s) && Enabled(cfg, s, a)
    ensures Invariant(cfg, After(cfg, s, a))
  {
    hide Invariant, CanStep, StepOf;
    match a
    case Tick(to) => TickKeepsInvariant(cfg, s, to);
    case Start(call) => StartKeepsInvariant(cfg, s, call);
    case Step(t, c) => StepKeepsInvariant(cfg, s, t, c);
  }

  /** Every reachable state, whatever the interleaving, satisfies the invariant. */
  lemma {:induction false} RunKeepsInvariant(cfg: Config, actions: seq<Action>)
    requires Possible(cfg, actions)
    ensures Invariant(cfg, Run(cfg, actions))
  {
    if actions != [] {
      hide Invariant, Enabled, After;
      RunKeepsInvariant(cfg, actions[..|actions| - 1]);
      ActionKeepsInvariant(cfg, Run(cfg, actions[..|actions| - 1]), actions[|actions| - 1]);
    }
  }
}
