/** The caches of the service (internal/service): concurrent calls, two locks, discovery rounds and upstream rounds.
    A call is a thread with a program counter, and a step of a thread is one access to shared state. */
module RefreshProtocol {
  import opened Model
  import opened Options

  /** One second on the clock, which counts nanoseconds. */
  const SECOND := 1_000_000_000

  /** How many upstream fetches of a round run at once. */
  const UPSTREAM_CONCURRENCY := 4

  /** The environments of the platform, the cache lifetime, whether there is an upstream client, and
      which component names the catalog knows with an upstream. */
  datatype Config = Config(environments: set<string>, ttl: int, hasUpstream: bool, tracked: string -> bool)

  datatype Call =
    | Inventories(refresh: bool)
    | CachedInventories
    | CachedInput
    | UpstreamFor(names: set<string>, refreshUpstream: bool)

  /** Why a map was returned: made by the call itself, judged recent at some time, or taken at any age. */
  datatype Verdict = Own | Recent(decidedAt: nat) | AnyAge

  /** What a call returns. A map is named by the call that made it; entry is its place in the log of publications. */
  datatype Outcome =
    | Found(invs: nat, entry: nat, verdict: Verdict)
    | Input(invs: nat, entry: nat, inputUps: Option<nat>, inputErrs: Option<nat>, upsEntry: Option<nat>)
    | NoInput
    | Releases(ups: nat, errs: nat, entry: nat, verdict: Verdict)
    | NoReleases

  datatype Pc =
    // Inventories
    | WantCheck
    | Check
    | Hit(decidedAt: nat)
    | Miss
    | WantRefresh
    | WantRecheck
    | Recheck
    | Rechecked(recent: Option<nat>, judged: Option<nat>)
    | ReadUnlocked(decidedAt: nat, judged: Option<nat>)
    | Round(startedAt: nat, todo: set<string>)
    | WantWrite(startedAt: nat)
    | AwaitWrite(startedAt: nat)
    | Stamp(startedAt: nat)
    | SetInvs(startedAt: nat, at: nat)
    | SetInvsAt(at: nat)
    | Written
    | Return(result: Outcome)
    | Done(result: Outcome)
    // CachedInventories
    | WantCached
    | ReadCached
    | GotCached(got: Option<nat>)
    // CachedInput
    | WantInput
    | ReadInput
    | GotInvs(got: Option<nat>)
    | GotUps(got: Option<nat>, gotUps: Option<nat>)
    // upstreamFor
    | WantUpsCheck
    | UpsCheck
    | UpsHit(decidedAt: nat)
    | UpsHitErrs(decidedAt: nat, gotUps: Option<nat>)
    | UpsMiss
    | UpsRound(startedAt: nat, todo: set<string>, running: set<string>)
    | UpsWantWrite(startedAt: nat)
    | UpsAwaitWrite(startedAt: nat)
    | UpsStamp(startedAt: nat)
    | SetUps(startedAt: nat, at: nat)
    | SetErrs(at: nat)
    | SetUpsAt(at: nat)
    | UpsWritten

  datatype Thread = Thread(call: Call, pc: Pc)

  // ---------------------------------------------------------------- the locks

  /** How a thread stands to the read-write lock. */
  datatype MuMode = Free | Reading | Waiting | Writing

  function Mu(pc: Pc): MuMode {
    match pc
    case Check | Hit(_) | Miss | Recheck | Rechecked(_, _) | ReadCached | GotCached(_) | ReadInput | GotInvs(_)
    | GotUps(_, _) | UpsCheck | UpsHit(_) | UpsHitErrs(_, _) | UpsMiss => Reading
    case AwaitWrite(_) | UpsAwaitWrite(_) => Waiting
    case Stamp(_) | SetInvs(_, _) | SetInvsAt(_) | Written | UpsStamp(_) | SetUps(_, _) | SetErrs(_) | SetUpsAt(_)
    | UpsWritten => Writing
    case _ => Free
  }

  predicate HoldsRefresh(pc: Pc) {
    pc.WantRecheck? || pc.Recheck? || pc.Rechecked? || pc.ReadUnlocked? || pc.Round? || pc.WantWrite? || pc.AwaitWrite?
    || pc.Stamp? || pc.SetInvs? || pc.SetInvsAt? || pc.Written? || pc.Return?
  }

  /** A Go read-write lock: a writer that waits keeps new readers out. */
  datatype RWMutex = RWMutex(readers: set<nat>, waiting: Option<nat>, writer: Option<nat>)

  predicate CanMove(mu: RWMutex, from: MuMode, to: MuMode) {
    || from == to
    || ((from, to) == (Free, Reading) && mu.waiting.None? && mu.writer.None?)
    || (from, to) == (Reading, Free)
    || ((from, to) == (Free, Waiting) && mu.waiting.None? && mu.writer.None?)
    || ((from, to) == (Waiting, Writing) && mu.readers == {})
    || (from, to) == (Writing, Free)
  }

  function Move(mu: RWMutex, t: nat, from: MuMode, to: MuMode): RWMutex {
    if from == to then mu
    else
      match to
      case Reading => mu.(readers := mu.readers + {t})
      case Waiting => mu.(waiting := Some(t))
      case Writing => mu.(waiting := None, writer := Some(t))
      case Free => if from == Reading then mu.(readers := mu.readers - {t}) else mu.(writer := None)
  }

  // ---------------------------------------------------------------- shared data

  /** What the upstream round of a call has fetched. */
  datatype Fetches = Fetches(found: map<string, seq<UpstreamRelease>>, failed: map<string, string>)

  datatype Publication = Publication(owner: nat, startedAt: nat, at: nat)

  /** The fields of the service, the maps that calls make, and the history of publications. */
  datatype Data = Data(
    invs: Option<nat>, invsAt: nat, ups: Option<nat>, errs: Option<nat>, upsAt: nat,
    heap: map<nat, map<string, Inventory>>, fetched: map<nat, Fetches>,
    log: seq<Publication>, upsLog: seq<Publication>)

  function Wanted(cfg: Config, names: set<string>): set<string> {
    set n | n in names && cfg.tracked(n)
  }

  predicate Covers(f: Fetches, names: set<string>) {
    forall n | n in names :: n in f.found || n in f.failed
  }

  /** What happens in a step: the program goes on, a discovery worker or a fetch ends, or a fetch starts. */
  datatype Choice =
    | Go
    | Worker(env: string, inventory: Option<Inventory>, error: string)
    | StartFetch(name: string)
    | EndFetch(name: string, releases: Option<seq<UpstreamRelease>>, error: string)

  datatype Next = Next(pc: Pc, data: Data)

  predicate Refreshing(call: Call) {
    call.Inventories? && call.refresh
  }

  /** An unreachable environment gets an inventory that holds the error. */
  function WorkerResult(c: Choice): Inventory
    requires c.Worker?
  {
    if c.inventory.Some? then c.inventory.value else Inventory([], "", [c.error])
  }

  function AddFetch(f: Fetches, c: Choice): Fetches
    requires c.EndFetch?
  {
    if c.releases.Some? then f.(found := f.found[c.name := c.releases.value]) else f.(failed := f.failed[c.name := c.error])
  }

  /** The steps of Inventories. */
  function ActInventories(cfg: Config, d: Data, now: nat, t: nat, call: Call, pc: Pc, c: Choice): Option<Next> {
    match pc
    case WantCheck => Some(Next(Check, d))
    case Check =>
      var hit := !Refreshing(call) && d.invs.Some? && now - d.invsAt < cfg.ttl;
      Some(Next(if hit then Hit(now) else Miss, d))
    case Hit(decidedAt) =>
      if d.invs.None? || d.log == [] then None
      else Some(Next(Done(Found(d.invs.value, |d.log| - 1, Recent(decidedAt))), d))
    case Miss => Some(Next(WantRefresh, d))
    case WantRefresh => Some(Next(WantRecheck, d))
    case WantRecheck => Some(Next(Recheck, d))
    case Recheck =>
      var recent := d.invs.Some? && now - d.invsAt < SECOND;
      Some(Next(Rechecked(if recent then Some(now) else None, d.invs), d))
    case Rechecked(recent, judged) =>
      if recent.Some? then Some(Next(ReadUnlocked(recent.value, judged), d))
      else Some(Next(Round(now, cfg.environments), d.(heap := d.heap[t := map[]])))
    case ReadUnlocked(decidedAt, _) =>
      if d.invs.None? || d.log == [] then None
      else Some(Next(Return(Found(d.invs.value, |d.log| - 1, Recent(decidedAt))), d))
    case Round(startedAt, todo) =>
      if todo == {} && c.Go? then Some(Next(WantWrite(startedAt), d))
      else if c.Worker? && c.env in todo && t in d.heap then
        Some(Next(Round(startedAt, todo - {c.env}), d.(heap := d.heap[t := d.heap[t][c.env := WorkerResult(c)]])))
      else None
    case WantWrite(startedAt) => Some(Next(AwaitWrite(startedAt), d))
    case AwaitWrite(startedAt) => Some(Next(Stamp(startedAt), d))
    case Stamp(startedAt) => Some(Next(SetInvs(startedAt, now), d))
    case SetInvs(startedAt, at) =>
      Some(Next(SetInvsAt(at), d.(invs := Some(t), log := d.log + [Publication(t, startedAt, at)])))
    case SetInvsAt(at) => Some(Next(Written, d.(invsAt := at)))
    case Written => if d.log == [] then None else Some(Next(Return(Found(t, |d.log| - 1, Own)), d))
    case Return(result) => Some(Next(Done(result), d))
    case _ => None
  }

  /** The steps of CachedInventories, which may go on as Inventories, and of CachedInput. */
  function ActCached(d: Data, pc: Pc): Option<Next> {
    match pc
    case WantCached => Some(Next(ReadCached, d))
    case ReadCached => Some(Next(GotCached(d.invs), d))
    case GotCached(got) =>
      if got.None? then Some(Next(WantCheck, d))
      else if d.log == [] then None
      else Some(Next(Done(Found(got.value, |d.log| - 1, AnyAge)), d))
    case WantInput => Some(Next(ReadInput, d))
    case ReadInput => Some(Next(GotInvs(d.invs), d))
    case GotInvs(got) => Some(Next(if got.None? then Done(NoInput) else GotUps(got, d.ups), d))
    case GotUps(got, gotUps) =>
      if got.None? || d.log == [] then None
      else
        var upsEntry := if d.upsLog == [] then None else Some(|d.upsLog| - 1);
        Some(Next(Done(Input(got.value, |d.log| - 1, gotUps, d.errs, upsEntry)), d))
    case _ => None
  }

  /** What the fields ups and upsErrs point to; a nil map is empty. */
  function CachedFetches(d: Data): Fetches {
    Fetches(
      if d.ups.Some? && d.ups.value in d.fetched then d.fetched[d.ups.value].found else map[],
      if d.errs.Some? && d.errs.value in d.fetched then d.fetched[d.errs.value].failed else map[])
  }

  /** The steps of upstreamFor. */
  function ActUpstream(cfg: Config, d: Data, now: nat, t: nat, call: Call, pc: Pc, c: Choice): Option<Next> {
    if !call.UpstreamFor? then None
    else
      match pc
      case WantUpsCheck => Some(Next(UpsCheck, d))
      case UpsCheck =>
        var hit :=
          && !call.refreshUpstream && d.ups.Some? && now - d.upsAt < cfg.ttl
          && Covers(CachedFetches(d), Wanted(cfg, call.names));
        Some(Next(if hit then UpsHit(now) else UpsMiss, d))
      case UpsHit(decidedAt) => Some(Next(UpsHitErrs(decidedAt, d.ups), d))
      case UpsHitErrs(decidedAt, gotUps) =>
        if gotUps.None? || d.errs.None? || d.upsLog == [] then None
        else Some(Next(Done(Releases(gotUps.value, d.errs.value, |d.upsLog| - 1, Recent(decidedAt))), d))
      case UpsMiss =>
        Some(Next(UpsRound(now, Wanted(cfg, call.names), {}), d.(fetched := d.fetched[t := Fetches(map[], map[])])))
      case UpsRound(startedAt, todo, running) =>
        if todo == {} && running == {} && c.Go? then Some(Next(UpsWantWrite(startedAt), d))
        else if c.StartFetch? && c.name in todo && |running| < UPSTREAM_CONCURRENCY then
          Some(Next(UpsRound(startedAt, todo - {c.name}, running + {c.name}), d))
        else if c.EndFetch? && c.name in running && t in d.fetched then
          Some(Next(UpsRound(startedAt, todo, running - {c.name}),
                    d.(fetched := d.fetched[t := AddFetch(d.fetched[t], c)])))
        else None
      case UpsWantWrite(startedAt) => Some(Next(UpsAwaitWrite(startedAt), d))
      case UpsAwaitWrite(startedAt) => Some(Next(UpsStamp(startedAt), d))
      case UpsStamp(startedAt) => Some(Next(SetUps(startedAt, now), d))
      case SetUps(startedAt, at) =>
        Some(Next(SetErrs(at), d.(ups := Some(t), upsLog := d.upsLog + [Publication(t, startedAt, at)])))
      case SetErrs(at) => Some(Next(SetUpsAt(at), d.(errs := Some(t))))
      case SetUpsAt(at) => Some(Next(UpsWritten, d.(upsAt := at)))
      case UpsWritten => if d.upsLog == [] then None else Some(Next(Done(Releases(t, t, |d.upsLog| - 1, Own)), d))
      case _ => None
  }

  predicate CachedPc(pc: Pc) {
    pc.WantCached? || pc.ReadCached? || pc.GotCached? || pc.WantInput? || pc.ReadInput? || pc.GotInvs? || pc.GotUps?
  }

  predicate UpstreamPc(pc: Pc) {
    || pc.WantUpsCheck? || pc.UpsCheck? || pc.UpsHit? || pc.UpsHitErrs? || pc.UpsMiss? || pc.UpsRound?
    || pc.UpsWantWrite? || pc.UpsAwaitWrite? || pc.UpsStamp? || pc.SetUps? || pc.SetErrs? || pc.SetUpsAt? || pc.UpsWritten?
  }

  function Act(cfg: Config, d: Data, now: nat, t: nat, th: Thread, c: Choice): Option<Next> {
    if CachedPc(th.pc) then ActCached(d, th.pc)
    else if UpstreamPc(th.pc) then ActUpstream(cfg, d, now, t, th.call, th.pc, c)
    else ActInventories(cfg, d, now, t, th.call, th.pc, c)
  }

  // ---------------------------------------------------------------- runs

  datatype State = State(now: nat, threads: seq<Thread>, mu: RWMutex, refreshMu: Option<nat>, data: Data)

  /** Time passes, a call starts, or a thread takes a step. */
  datatype Action = Tick(to: nat) | Start(call: Call) | Step(t: nat, choice: Choice)

  const INIT := State(0, [], RWMutex({}, None, None), None, Data(None, 0, None, None, 0, map[], map[], [], []))

  function FirstPc(cfg: Config, call: Call): Pc {
    match call
    case Inventories(_) => WantCheck
    case CachedInventories => WantCached
    case CachedInput => WantInput
    case UpstreamFor(_, _) => if cfg.hasUpstream then WantUpsCheck else Done(NoReleases)
  }

  predicate CanStep(cfg: Config, s: State, t: nat, c: Choice)
  {
    && t < |s.threads|
    && var pc := s.threads[t].pc;
       var next := Act(cfg, s.data, s.now, t, s.threads[t], c);
       && next.Some?
       && CanMove(s.mu, Mu(pc), Mu(next.value.pc))
       && (!HoldsRefresh(pc) && HoldsRefresh(next.value.pc) ==> s.refreshMu.None?)
  }

  function StepOf(cfg: Config, s: State, t: nat, c: Choice): State
    requires CanStep(cfg, s, t, c)
  {
    var pc := s.threads[t].pc;
    var next := Act(cfg, s.data, s.now, t, s.threads[t], c).value;
    var refreshMu :=
      if HoldsRefresh(pc) == HoldsRefresh(next.pc) then s.refreshMu else if HoldsRefresh(next.pc) then Some(t) else None;
    State(s.now, s.threads[t := s.threads[t].(pc := next.pc)], Move(s.mu, t, Mu(pc), Mu(next.pc)), refreshMu, next.data)
  }

  predicate Enabled(cfg: Config, s: State, a: Action) {
    match a
    case Tick(to) => to >= s.now
    case Start(call) => true
    case Step(t, c) => CanStep(cfg, s, t, c)
  }

  function After(cfg: Config, s: State, a: Action): State
    requires Enabled(cfg, s, a)
  {
    match a
    case Tick(to) => s.(now := to)
    case Start(call) => s.(threads := s.threads + [Thread(call, FirstPc(cfg, call))])
    case Step(t, c) => StepOf(cfg, s, t, c)
  }

  /** Whether the actions can happen one after the other, from the start of the program. */
  predicate Possible(cfg: Config, actions: seq<Action>)
    decreases |actions|, 0
  {
    actions == [] ||
    (Possible(cfg, actions[..|actions| - 1]) && Enabled(cfg, Run(cfg, actions[..|actions| - 1]), actions[|actions| - 1]))
  }

  function Run(cfg: Config, actions: seq<Action>): State
    requires Possible(cfg, actions)
    decreases |actions|, 1
  {
    if actions == [] then INIT else After(cfg, Run(cfg, actions[..|actions| - 1]), actions[|actions| - 1])
  }
}
