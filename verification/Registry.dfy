/**
 The session registry under concurrency.  Any number of threads serve calls over one mutex for the
 session map and one mutex per session; the idle reaper is one more thread.  A thread is modelled by
 the point it has reached between two lock operations, and a step moves one thread past one of them.

 A mutex is held by the thread whose program point says so, and is free when there is none.  A
 poisoned mutex is recovered everywhere it is met, so it behaves like any other.
 */
module Registry {
  import opened Wrappers
  import opened Sizes

  type SessionId = nat
  type Handle = nat
  type Thread = nat

  const NANOS := 1_000_000_000

  datatype Config = Config(idleTimeoutSecs: Option<nat>, maxSessions: Option<nat>, snapshotOnClose: bool)

  datatype Lock = MapLock | SessionLock(handle: Handle)

  /** Why an id is looked up in the map, and so how its session will be locked. */
  datatype Purpose = ForSwitch | ForFork | ForMergeSource(target: SessionId) | ForWebFork | ForUpdate | ForWebUse

  /** What is done while holding the map. */
  datatype MapJob = Insert | Resolve(id: SessionId, purpose: Purpose) | Remove(id: SessionId)
                  | CloneForTree | CloneForList | StartSweep

  /** What is done while holding a session. */
  datatype Use =
    | Read | ReadListed(left: set<Handle>) | ForkRead | MergeRead(target: SessionId) | WebForkRead | Update | WebUse

  /**
   A program point.  `outer` is the source session that a merge or a fork from the web interface keeps
   locked while it goes on to the map and to a second session.
   */
  datatype Point =
    | Resting
    | MapWait(job: MapJob, outer: Option<Handle>)
    | MapHeld(job: MapJob, outer: Option<Handle>)
    | SessionWait(handle: Handle, use: Use, outer: Option<Handle>)
    | SessionTry(handle: Handle, use: Use, outer: Option<Handle>)
    | SessionHeld(handle: Handle, use: Use, outer: Option<Handle>)
    | Running(handle: Handle, outer: Option<Handle>)
    | Sweep(ids: set<SessionId>)
    | SweepHeld(id: SessionId, handle: Handle, ids: set<SessionId>)
    | Walk(todo: set<Handle>, held: set<Handle>)
    | Listing(todo: set<Handle>)

  /** `evicted` records which sessions the reaper has removed; nothing reads it. */
  datatype State = State(
    sessions: map<SessionId, Handle>,
    next: Handle,
    lastActivity: map<Handle, nat>,
    now: nat,
    threads: map<Thread, Point>,
    evicted: set<Handle>)
  {
    function To(t: Thread, point: Point): State {
      this.(threads := threads[t := point])
    }

    ghost predicate Free(lock: Lock) {
      forall t | t in threads :: lock !in Holds(threads[t])
    }

    function Last(handle: Handle): nat {
      if handle in lastActivity then lastActivity[handle] else 0
    }
  }

  function Only(handle: Option<Handle>): set<Lock> {
    match handle
    case None => {}
    case Some(h) => {SessionLock(h)}
  }

  function Holds(point: Point): set<Lock> {
    match point
    case Resting => {}
    case MapWait(_, outer) => Only(outer)
    case MapHeld(_, outer) => {MapLock} + Only(outer)
    case SessionWait(_, _, outer) => Only(outer)
    case SessionTry(_, _, outer) => Only(outer)
    case SessionHeld(handle, _, outer) => {SessionLock(handle)} + Only(outer)
    case Running(handle, outer) => {SessionLock(handle)} + Only(outer)
    case Sweep(_) => {MapLock}
    case SweepHeld(_, handle, _) => {MapLock, SessionLock(handle)}
    case Walk(_, held) => set h | h in held :: SessionLock(h)
    case Listing(_) => {}
  }

  /** The lock a thread is blocked on; trying a lock does not block. */
  function Wants(point: Point): Option<Lock> {
    match point
    case MapWait(_, _) => Some(MapLock)
    case SessionWait(handle, _, _) => Some(SessionLock(handle))
    case _ => None
  }

  /** Everything a step leaves to the outside: which call, which element of a set, which way an error goes. */
  datatype Choice = Choice(job: MapJob, id: SessionId, handle: Handle, born: nat, yes: bool)

  predicate IsIdle(c: Config, s: State, handle: Handle) {
    c.idleTimeoutSecs.Some? && s.Last(handle) <= s.now && (s.now - s.Last(handle)) / NANOS > c.idleTimeoutSecs.value
  }

  predicate Full(c: Config, s: State) {
    c.maxSessions.Some? && |s.sessions| >= c.maxSessions.value
  }

  /** A reaper exists only when a timeout is configured. */
  predicate MayStart(c: Config, job: MapJob) {
    job.StartSweep? ==> c.idleTimeoutSecs.Some?
  }

  function Resolved(purpose: Purpose, handle: Handle, outer: Option<Handle>): Point {
    match purpose
    case ForSwitch => SessionWait(handle, Read, outer)
    case ForFork => SessionWait(handle, ForkRead, outer)
    case ForMergeSource(target) => SessionWait(handle, MergeRead(target), outer)
    case ForWebFork => SessionTry(handle, WebForkRead, outer)
    case ForUpdate => SessionTry(handle, Update, outer)
    case ForWebUse => SessionTry(handle, WebUse, outer)
  }

  /** What thread `t` does next while holding the map. */
  function MapStep(c: Config, s: State, t: Thread, job: MapJob, outer: Option<Handle>, w: Choice): Option<State> {
    match job
    case Insert =>
      if Full(c, s) then Some(s.To(t, Resting))
      else if w.id in s.sessions || w.born > s.now then None
      else
        Some(WithSession(s, w.id, w.born).To(t, SessionWait(s.next, Read, outer)))
    case Resolve(id, purpose) =>
      Some(s.To(t, if id in s.sessions then Resolved(purpose, s.sessions[id], outer) else Resting))
    case Remove(id) =>
      if id !in s.sessions then Some(s.To(t, Resting))
      else
        var next := if c.snapshotOnClose && w.yes then SessionWait(s.sessions[id], Read, None) else Resting;
        Some(s.(sessions := s.sessions - {id}).To(t, next))
    case CloneForTree => Some(s.To(t, Walk(s.sessions.Values, {})))
    case CloneForList => Some(s.To(t, Listing(s.sessions.Values)))
    case StartSweep => Some(s.To(t, Sweep(s.sessions.Keys)))
  }

  /** What thread `t` does next while holding session `handle`. */
  function UseStep(c: Config, s: State, t: Thread, handle: Handle, use: Use, outer: Option<Handle>, w: Choice): State {
    match use
    case Read => s.To(t, Resting)
    case ReadListed(left) => s.To(t, Listing(left))
    case ForkRead => s.To(t, if w.yes then MapWait(Insert, None) else Resting)
    case WebForkRead => s.To(t, if w.yes then MapWait(Insert, Some(handle)) else Resting)
    case MergeRead(target) => s.To(t, if w.yes then MapWait(Resolve(target, ForUpdate), Some(handle)) else Resting)
    case Update =>
      if IsIdle(c, s, handle) then s.To(t, Resting)
      else s.(lastActivity := s.lastActivity[handle := s.now]).To(t, Running(handle, outer))
    case WebUse => s.To(t, Resting)
  }

  /** The state after a step of thread `t`, or `None` when it cannot take one (with this choice). */
  ghost function Next(c: Config, s: State, t: Thread, w: Choice): Option<State> {
    if t !in s.threads then None
    else
      match s.threads[t]
      case Resting => if MayStart(c, w.job) then Some(s.To(t, MapWait(w.job, None))) else None
      case MapWait(job, outer) => if s.Free(MapLock) then Some(s.To(t, MapHeld(job, outer))) else None
      case MapHeld(job, outer) => MapStep(c, s, t, job, outer, w)
      case SessionWait(handle, use, outer) =>
        if s.Free(SessionLock(handle)) then Some(s.To(t, SessionHeld(handle, use, outer))) else None
      case SessionTry(handle, use, outer) =>
        Some(s.To(t, if s.Free(SessionLock(handle)) then SessionHeld(handle, use, outer) else Resting))
      case SessionHeld(handle, use, outer) => Some(UseStep(c, s, t, handle, use, outer, w))
      case Running(_, _) => Some(s.To(t, Resting))
      case Sweep(ids) =>
        if ids == {} then Some(s.To(t, Resting))
        else if w.id !in ids || w.id !in s.sessions then None
        else
          var (handle, left) := (s.sessions[w.id], ids - {w.id});
          Some(s.To(t, if s.Free(SessionLock(handle)) then SweepHeld(w.id, handle, left) else Sweep(left)))
      case SweepHeld(id, handle, ids) =>
        if IsIdle(c, s, handle) then
          Some(s.(sessions := s.sessions - {id}, evicted := s.evicted + {handle}).To(t, Sweep(ids)))
        else Some(s.To(t, Sweep(ids)))
      case Walk(todo, held) =>
        if todo == {} then Some(s.To(t, Resting))
        else if w.handle !in todo then None
        else
          var left := todo - {w.handle};
          Some(s.To(t, Walk(left, if s.Free(SessionLock(w.handle)) then held + {w.handle} else held)))
      case Listing(todo) =>
        if todo == {} then Some(s.To(t, Resting))
        else if w.handle !in todo then None
        else Some(s.To(t, SessionWait(w.handle, ReadListed(todo - {w.handle}), None)))
  }

  ghost predicate Init(s: State) {
    && s.sessions == map[] && s.next == 0 && s.lastActivity == map[] && s.evicted == {}
    && forall t | t in s.threads :: s.threads[t] == Resting
  }

  ghost predicate ThreadStep(c: Config, s: State, s': State) {
    exists t, w :: Next(c, s, t, w) == Some(s')
  }

  ghost predicate Tick(s: State, s': State) {
    s.now <= s'.now && s' == s.(now := s'.now)
  }

  ghost predicate Moves(c: Config, s: State, s': State) {
    ThreadStep(c, s, s') || Tick(s, s')
  }

  ghost predicate MovesAt(c: Config, run: seq<State>, i: nat) {
    0 < i < |run| && Moves(c, run[i - 1], run[i])
  }

  /** A run: any interleaving of the threads' steps, with time passing in between. */
  ghost predicate Behaviour(c: Config, run: seq<State>) {
    && run != [] && Init(run[0])
    && forall i | 0 < i < |run| :: MovesAt(c, run, i)
  }

  // ----- the invariant -----

  ghost predicate OlderThan(handle: Option<Handle>, bound: nat) {
    handle.Some? ==> handle.value < bound
  }

  /**
   What a program point promises about itself: its handles exist; a session is only waited for, while
   another one is held, if it is newer; and with a session held, a lookup in the map only serves an update.
   */
  ghost predicate Proper(s: State, point: Point) {
    match point
    case Resting => true
    case MapWait(job, outer) => OlderThan(outer, s.next) && (outer.Some? ==> ServesOuter(job))
    case MapHeld(job, outer) => OlderThan(outer, s.next) && (outer.Some? ==> ServesOuter(job))
    case SessionWait(handle, use, outer) =>
      handle < s.next && OlderThan(outer, handle) && (outer.Some? ==> use.Read?) && ProperUse(s, use)
    case SessionTry(handle, use, outer) =>
      handle < s.next && OlderThan(outer, s.next) && (outer.Some? ==> use.Update?) && ProperUse(s, use)
    case SessionHeld(handle, use, outer) =>
      handle < s.next && OlderThan(outer, s.next) && (outer.Some? ==> use.Read? || use.Update?) && ProperUse(s, use)
    case Running(handle, outer) => handle < s.next && OlderThan(outer, s.next) && handle !in s.evicted
    case Sweep(ids) => ids <= s.sessions.Keys
    case SweepHeld(id, handle, ids) =>
      id !in ids && ids <= s.sessions.Keys && id in s.sessions && s.sessions[id] == handle
    case Walk(todo, held) => (forall h | h in todo :: h < s.next) && forall h | h in held :: h < s.next
    case Listing(todo) => forall h | h in todo :: h < s.next
  }

  /** What a thread may ask of the map while it holds a session. */
  predicate ServesOuter(job: MapJob) {
    job.Insert? || (job.Resolve? && job.purpose.ForUpdate?)
  }

  ghost predicate ProperUse(s: State, use: Use) {
    use.ReadListed? ==> forall h | h in use.left :: h < s.next
  }

  /** No lock has two holders. */
  ghost predicate Exclusive(s: State) {
    forall t, u | t in s.threads && u in s.threads && t != u :: Holds(s.threads[t]) !! Holds(s.threads[u])
  }

  ghost predicate Registered(s: State) {
    && (forall id | id in s.sessions :: s.sessions[id] < s.next && s.sessions[id] !in s.evicted)
    && (forall a, b | a in s.sessions && b in s.sessions && a != b :: s.sessions[a] != s.sessions[b])
    && (forall h | h in s.lastActivity :: h < s.next && s.lastActivity[h] <= s.now)
    && (forall h: Handle :: h < s.next ==> h in s.lastActivity)
  }

  ghost predicate Limited(c: Config, s: State) {
    c.maxSessions.Some? ==> |s.sessions| <= c.maxSessions.value
  }

  /** Whoever was evicted is idle, for good. */
  ghost predicate EvictedAreIdle(c: Config, s: State) {
    forall h | h in s.evicted :: h < s.next && IsIdle(c, s, h)
  }

  /** The part of the invariant that neither program points nor the limit matter to. */
  ghost predicate Sound(c: Config, s: State) {
    Registered(s) && EvictedAreIdle(c, s)
  }

  ghost predicate Inv(c: Config, s: State) {
    && Exclusive(s)
    && Sound(c, s)
    && Limited(c, s)
    && forall t | t in s.threads :: Proper(s, s.threads[t])
  }

  // ----- every step keeps the invariant -----

  /** A thread keeps locks apart from the others' when every lock it gains was free. */
  lemma StaysExclusive(s: State, t: Thread, point: Point)
    requires Exclusive(s) && t in s.threads
    requires forall lock | lock in Holds(point) :: lock in Holds(s.threads[t]) || s.Free(lock)
    ensures Exclusive(s.To(t, point))
  {
    var s' := s.To(t, point);
    forall u, v | u in s'.threads && v in s'.threads && u != v
      ensures Holds(s'.threads[u]) !! Holds(s'.threads[v])
    {
      if u == t || v == t {
        var other := if u == t then v else u;
        forall lock | lock in Holds(point)
          ensures lock !in Holds(s.threads[other])
        {
        }
      }
    }
  }

  /** A step changes the session map only under the map lock, and evicts only sessions it holds. */
  ghost predicate Disciplined(s: State, t: Thread, s': State)
    requires t in s.threads
  {
    && s'.threads.Keys == s.threads.Keys
    && (forall u | u in s.threads && u != t :: s'.threads[u] == s.threads[u])
    && s.next <= s'.next && s.now == s'.now
    && (s'.sessions == s.sessions || MapLock in Holds(s.threads[t]))
    && s.evicted <= s'.evicted
    && forall h | h in s'.evicted && h !in s.evicted :: SessionLock(h) in Holds(s.threads[t])
  }

  lemma OthersStayProper(s: State, t: Thread, s': State)
    requires Exclusive(s) && t in s.threads && Disciplined(s, t, s')
    requires forall u | u in s.threads :: Proper(s, s.threads[u])
    ensures forall u | u in s.threads && u != t :: Proper(s', s'.threads[u])
  {
    forall u | u in s.threads && u != t
      ensures Proper(s', s'.threads[u])
    {
      assert Proper(s, s.threads[u]);
      assert Holds(s.threads[u]) !! Holds(s.threads[t]);
      var point := s.threads[u];
      match point
      case Running(h, _) => assert SessionLock(h) in Holds(point);
      case Sweep(_) => assert MapLock in Holds(point);
      case SweepHeld(_, _, _) => assert MapLock in Holds(point);
      case _ =>
    }
  }

  lemma MovedIsSound(c: Config, s: State, t: Thread, point: Point)
    requires Sound(c, s)
    ensures Sound(c, s.To(t, point))
  {
  }

  function WithSession(s: State, id: SessionId, born: nat): State {
    s.(sessions := s.sessions[id := s.next], lastActivity := s.lastActivity[s.next := born], next := s.next + 1)
  }

  lemma InsertedIsSound(c: Config, s: State, id: SessionId, born: nat)
    requires Sound(c, s) && !Full(c, s) && id !in s.sessions && born <= s.now
    ensures Sound(c, WithSession(s, id, born))
  {
  }

  /** The limit is checked under the same hold of the map as the insertion, so it is never exceeded. */
  lemma StaysLimited(c: Config, s: State, t: Thread, w: Choice)
    requires Limited(c, s) && Next(c, s, t, w).Some?
    ensures Limited(c, Next(c, s, t, w).value)
  {
    var s' := Next(c, s, t, w).value;
    if s.threads[t].MapHeld? && s.threads[t].job.Insert? {
      if !Full(c, s) {
        assert s'.sessions == s.sessions[w.id := s.next];
        OneMoreKey(s.sessions, w.id, s.next);
      }
    } else {
      OnlyInsertsGrow(c, s, t, w);
      FewerKeys(s'.sessions, s.sessions);
    }
  }

  lemma OnlyInsertsGrow(c: Config, s: State, t: Thread, w: Choice)
    requires Next(c, s, t, w).Some? && !(s.threads[t].MapHeld? && s.threads[t].job.Insert?)
    ensures Next(c, s, t, w).value.sessions.Keys <= s.sessions.Keys
  {
  }

  lemma OneMoreKey<K, V>(m: map<K, V>, key: K, value: V)
    requires key !in m
    ensures |m[key := value]| == |m| + 1
  {
    assert m[key := value].Keys == m.Keys + {key};
    assert |m.Keys + {key}| == |m.Keys| + 1;
  }

  lemma FewerKeys<K, V>(few: map<K, V>, many: map<K, V>)
    requires few.Keys <= many.Keys
    ensures |few| <= |many|
  {
    SubsetSize(few.Keys, many.Keys);
  }

  lemma RemovedIsSound(c: Config, s: State, id: SessionId)
    requires Sound(c, s) && id in s.sessions
    ensures Sound(c, s.(sessions := s.sessions - {id}))
  {
  }

  lemma EvictedIsSound(c: Config, s: State, id: SessionId)
    requires Sound(c, s) && id in s.sessions && IsIdle(c, s, s.sessions[id])
    ensures Sound(c, s.(sessions := s.sessions - {id}, evicted := s.evicted + {s.sessions[id]}))
  {
    RemovedIsSound(c, s, id);
  }

  lemma TouchedIsSound(c: Config, s: State, h: Handle)
    requires Sound(c, s) && h < s.next && !IsIdle(c, s, h)
    ensures Sound(c, s.(lastActivity := s.lastActivity[h := s.now]))
  {
  }

  /** What a step of thread `t` must show by itself; the other threads and the exclusion of locks follow. */
  ghost predicate StepKept(c: Config, s: State, t: Thread, s': State)
    requires t in s.threads
  {
    && Sound(c, s') && Disciplined(s, t, s')
    && Proper(s', s'.threads[t])
    && forall lock | lock in Holds(s'.threads[t]) :: lock in Holds(s.threads[t]) || s.Free(lock)
  }

  lemma MovedKeeps(c: Config, s: State, t: Thread, point: Point)
    requires Sound(c, s) && t in s.threads && Proper(s, point)
    requires forall lock | lock in Holds(point) :: lock in Holds(s.threads[t]) || s.Free(lock)
    ensures StepKept(c, s, t, s.To(t, point))
  {
    MovedIsSound(c, s, t, point);
  }

  lemma InsertKeeps(c: Config, s: State, t: Thread, outer: Option<Handle>, w: Choice)
    requires Sound(c, s) && t in s.threads && s.threads[t] == MapHeld(Insert, outer) && Proper(s, s.threads[t])
    requires !Full(c, s) && w.id !in s.sessions && w.born <= s.now
    ensures StepKept(c, s, t, WithSession(s, w.id, w.born).To(t, SessionWait(s.next, Read, outer)))
  {
    InsertedIsSound(c, s, w.id, w.born);
    MovedIsSound(c, WithSession(s, w.id, w.born), t, SessionWait(s.next, Read, outer));
  }

  lemma RemoveKeeps(c: Config, s: State, t: Thread, id: SessionId, point: Point)
    requires Sound(c, s) && t in s.threads && s.threads[t] == MapHeld(Remove(id), None) && id in s.sessions
    requires point == Resting || point == SessionWait(s.sessions[id], Read, None)
    ensures StepKept(c, s, t, s.(sessions := s.sessions - {id}).To(t, point))
  {
    RemovedIsSound(c, s, id);
    MovedIsSound(c, s.(sessions := s.sessions - {id}), t, point);
  }

  lemma MapStepKeeps(c: Config, s: State, t: Thread, job: MapJob, outer: Option<Handle>, w: Choice)
    requires Sound(c, s) && t in s.threads && s.threads[t] == MapHeld(job, outer) && Proper(s, s.threads[t])
    requires MapStep(c, s, t, job, outer, w).Some?
    ensures StepKept(c, s, t, MapStep(c, s, t, job, outer, w).value)
  {
    match job
    case Insert =>
      if Full(c, s) {
        MovedKeeps(c, s, t, Resting);
      } else {
        InsertKeeps(c, s, t, outer, w);
      }
    case Resolve(id, purpose) =>
      if id in s.sessions {
        MovedKeeps(c, s, t, Resolved(purpose, s.sessions[id], outer));
      } else {
        MovedKeeps(c, s, t, Resting);
      }
    case Remove(id) =>
      if id in s.sessions {
        var point := if c.snapshotOnClose && w.yes then SessionWait(s.sessions[id], Read, None) else Resting;
        RemoveKeeps(c, s, t, id, point);
      } else {
        MovedKeeps(c, s, t, Resting);
      }
    case CloneForTree => MovedKeeps(c, s, t, Walk(s.sessions.Values, {}));
    case CloneForList => MovedKeeps(c, s, t, Listing(s.sessions.Values));
    case StartSweep => MovedKeeps(c, s, t, Sweep(s.sessions.Keys));
  }

  lemma UseStepKeeps(c: Config, s: State, t: Thread, h: Handle, use: Use, outer: Option<Handle>, w: Choice)
    requires Sound(c, s) && t in s.threads && s.threads[t] == SessionHeld(h, use, outer) && Proper(s, s.threads[t])
    ensures StepKept(c, s, t, UseStep(c, s, t, h, use, outer, w))
  {
    if use.Update? && !IsIdle(c, s, h) {
      TouchedIsSound(c, s, h);
    }
  }

  lemma SweepStepKeeps(c: Config, s: State, t: Thread, w: Choice)
    requires Sound(c, s) && t in s.threads && s.threads[t].SweepHeld? && Proper(s, s.threads[t])
    requires Next(c, s, t, w).Some?
    ensures StepKept(c, s, t, Next(c, s, t, w).value)
  {
    var SweepHeld(id, h, ids) := s.threads[t];
    if IsIdle(c, s, h) {
      EvictedIsSound(c, s, id);
    }
  }

  /** The steps that only move the thread, perhaps onto a free lock. */
  lemma MoveKeeps(c: Config, s: State, t: Thread, w: Choice)
    requires Sound(c, s) && t in s.threads && Proper(s, s.threads[t]) && Next(c, s, t, w).Some?
    requires !s.threads[t].MapHeld? && !s.threads[t].SessionHeld? && !s.threads[t].SweepHeld?
    ensures StepKept(c, s, t, Next(c, s, t, w).value)
  {
    match s.threads[t]
    case Resting => MovedKeeps(c, s, t, MapWait(w.job, None));
    case MapWait(job, outer) => MovedKeeps(c, s, t, MapHeld(job, outer));
    case SessionWait(h, use, outer) => MovedKeeps(c, s, t, SessionHeld(h, use, outer));
    case SessionTry(h, use, outer) =>
      MovedKeeps(c, s, t, if s.Free(SessionLock(h)) then SessionHeld(h, use, outer) else Resting);
    case Running(_, _) => MovedKeeps(c, s, t, Resting);
    case Sweep(ids) =>
      if ids == {} {
        MovedKeeps(c, s, t, Resting);
      } else {
        var (h, left) := (s.sessions[w.id], ids - {w.id});
        MovedKeeps(c, s, t, if s.Free(SessionLock(h)) then SweepHeld(w.id, h, left) else Sweep(left));
      }
    case Walk(todo, held) =>
      if todo == {} {
        MovedKeeps(c, s, t, Resting);
      } else {
        var more := if s.Free(SessionLock(w.handle)) then held + {w.handle} else held;
        MovedKeeps(c, s, t, Walk(todo - {w.handle}, more));
      }
    case Listing(todo) =>
      if todo == {} {
        MovedKeeps(c, s, t, Resting);
      } else {
        MovedKeeps(c, s, t, SessionWait(w.handle, ReadListed(todo - {w.handle}), None));
      }
  }

  lemma NextKeeps(c: Config, s: State, t: Thread, w: Choice)
    requires Sound(c, s) && Next(c, s, t, w).Some? && Proper(s, s.threads[t])
    ensures StepKept(c, s, t, Next(c, s, t, w).value)
  {
    var point := s.threads[t];
    if point.MapHeld? {
      MapStepKeeps(c, s, t, point.job, point.outer, w);
    } else if point.SessionHeld? {
      UseStepKeeps(c, s, t, point.handle, point.use, point.outer, w);
    } else if point.SweepHeld? {
      SweepStepKeeps(c, s, t, w);
    } else {
      MoveKeeps(c, s, t, w);
    }
  }

  lemma KeptIsInv(c: Config, s: State, t: Thread, s': State)
    requires Inv(c, s) && t in s.threads && StepKept(c, s, t, s') && Limited(c, s')
    ensures Inv(c, s')
  {
    StaysExclusive(s, t, s'.threads[t]);
    ExclusiveByPoints(s.To(t, s'.threads[t]), s');
    OthersStayProper(s, t, s');
  }

  lemma ExclusiveByPoints(a: State, b: State)
    requires Exclusive(a) && a.threads == b.threads
    ensures Exclusive(b)
  {
  }

  lemma NextKeepsInv(c: Config, s: State, t: Thread, w: Choice)
    requires Inv(c, s) && Next(c, s, t, w).Some?
    ensures Inv(c, Next(c, s, t, w).value) && StepKept(c, s, t, Next(c, s, t, w).value)
  {
    assert Proper(s, s.threads[t]);
    NextKeeps(c, s, t, w);
    StaysLimited(c, s, t, w);
    KeptIsInv(c, s, t, Next(c, s, t, w).value);
  }

  lemma TickKeepsInv(c: Config, s: State, s': State)
    requires Inv(c, s) && Tick(s, s')
    ensures Inv(c, s')
  {
    forall h | h in s.evicted
      ensures IsIdle(c, s', h)
    {
      TimeKeepsIdle(c, s, s', h);
    }
    forall t | t in s'.threads
      ensures Proper(s', s'.threads[t])
    {
      assert Proper(s, s.threads[t]);
    }
  }

  /** Time alone never makes an idle session active again. */
  lemma TimeKeepsIdle(c: Config, s: State, s': State, h: Handle)
    requires IsIdle(c, s, h) && Tick(s, s')
    ensures IsIdle(c, s', h)
  {
    DivisionGrows(s.now - s.Last(h), s'.now - s.Last(h));
  }

  lemma DivisionGrows(a: nat, b: nat)
    requires a <= b
    ensures a / NANOS <= b / NANOS
  {
  }

  lemma InitIsInv(c: Config, s: State)
    requires Init(s)
    ensures Inv(c, s)
  {
    assert forall t | t in s.threads :: Holds(s.threads[t]) == {};
  }

  lemma MovesKeepInv(c: Config, s: State, s': State)
    requires Inv(c, s) && Moves(c, s, s')
    ensures Inv(c, s')
  {
    if ThreadStep(c, s, s') {
      var t, w :| Next(c, s, t, w) == Some(s');
      NextKeepsInv(c, s, t, w);
    } else {
      TickKeepsInv(c, s, s');
    }
  }

  lemma {:induction false} InvAlways(c: Config, run: seq<State>, i: nat)
    requires Behaviour(c, run) && i < |run|
    ensures Inv(c, run[i])
  {
    if i > 0 {
      InvAlways(c, run, i - 1);
      assert MovesAt(c, run, i);
      MovesKeepInv(c, run[i - 1], run[i]);
    } else {
      InitIsInv(c, run[0]);
    }
  }

  // ----- no deadlock -----

  /** Thread `t` is blocked on a lock that thread `u` holds. */
  ghost predicate BlockedOn(s: State, t: Thread, u: Thread) {
    && t in s.threads && u in s.threads
    && Wants(s.threads[t]).Some? && Wants(s.threads[t]).value in Holds(s.threads[u])
  }

  /** How far along the order of locks a thread is blocked; beyond all locks when it is not. */
  function Level(s: State, point: Point): nat {
    match point
    case MapWait(_, _) => s.next
    case SessionWait(handle, _, _) => handle
    case _ => s.next + 1
  }

  /** Whoever blocks a thread is itself blocked further along, or not at all. */
  lemma BlockerIsFurther(c: Config, s: State, t: Thread, u: Thread)
    requires Inv(c, s) && BlockedOn(s, t, u)
    ensures Level(s, s.threads[t]) < Level(s, s.threads[u])
  {
    assert Proper(s, s.threads[t]) && Proper(s, s.threads[u]);
  }

  ghost predicate Cycle(s: State, threads: seq<Thread>) {
    && threads != []
    && forall i | 0 <= i < |threads| :: BlockedOn(s, threads[i], threads[if i + 1 == |threads| then 0 else i + 1])
  }

  lemma {:induction false} LevelsGrow(c: Config, s: State, threads: seq<Thread>, i: nat)
    requires Inv(c, s) && Cycle(s, threads) && i < |threads|
    ensures threads[0] in s.threads && threads[i] in s.threads
    ensures Level(s, s.threads[threads[0]]) <= Level(s, s.threads[threads[i]])
  {
    if i > 0 {
      LevelsGrow(c, s, threads, i - 1);
      BlockerIsFurther(c, s, threads[i - 1], threads[i]);
    } else {
      assert BlockedOn(s, threads[0], threads[if 1 == |threads| then 0 else 1]);
    }
  }

  /** In no reachable state do threads wait for each other in a circle, of whatever length. */
  lemma NoCycle(c: Config, run: seq<State>, i: nat, threads: seq<Thread>)
    requires Behaviour(c, run) && i < |run|
    ensures !Cycle(run[i], threads)
  {
    var s := run[i];
    if Cycle(s, threads) {
      InvAlways(c, run, i);
      var last := |threads| - 1;
      LevelsGrow(c, s, threads, last);
      BlockerIsFurther(c, s, threads[last], threads[0]);
    }
  }

  /** Some thread in the middle of a call can go on. */
  ghost predicate CanGoOn(c: Config, s: State) {
    exists t, w :: Next(c, s, t, w).Some? && s.threads[t] != Resting
  }

  lemma FreshId(ids: set<SessionId>) returns (id: SessionId)
    ensures id !in ids && forall other | other in ids :: other < id
  {
    if ids == {} {
      id := 0;
    } else {
      var some :| some in ids;
      var rest := FreshId(ids - {some});
      id := if rest <= some then some + 1 else rest;
      assert forall other | other in ids :: other == some || other in ids - {some};
    }
  }

  lemma UnblockedGoesOn(c: Config, s: State, t: Thread)
    requires Inv(c, s) && t in s.threads && s.threads[t] != Resting
    requires Wants(s.threads[t]).Some? ==> s.Free(Wants(s.threads[t]).value)
    ensures CanGoOn(c, s)
  {
    assert Proper(s, s.threads[t]);
    var id := FreshId(s.sessions.Keys);
    var w := Choice(Insert, id, 0, 0, false);
    match s.threads[t] {
      case Sweep(ids) =>
        if ids != {} {
          var some :| some in ids;
          w := w.(id := some);
        }
      case Walk(todo, _) =>
        if todo != {} {
          var some :| some in todo;
          w := w.(handle := some);
        }
      case Listing(todo) =>
        if todo != {} {
          var some :| some in todo;
          w := w.(handle := some);
        }
      case _ =>
    }
    assert Next(c, s, t, w).Some?;
  }

  lemma {:induction false} BusyGoesOn(c: Config, s: State, t: Thread)
    requires Inv(c, s) && t in s.threads && s.threads[t] != Resting
    ensures CanGoOn(c, s)
    decreases s.next + 1 - Level(s, s.threads[t])
  {
    assert Proper(s, s.threads[t]);
    var wanted := Wants(s.threads[t]);
    if wanted.Some? && !s.Free(wanted.value) {
      var u :| u in s.threads && wanted.value in Holds(s.threads[u]);
      assert Proper(s, s.threads[u]);
      BlockerIsFurther(c, s, t, u);
      BusyGoesOn(c, s, u);
    } else {
      UnblockedGoesOn(c, s, t);
    }
  }

  /** Deadlock freedom: whenever some call is unfinished, some unfinished call can take its next step. */
  lemma NeverStuck(c: Config, run: seq<State>, i: nat, t: Thread)
    requires Behaviour(c, run) && i < |run| && t in run[i].threads && run[i].threads[t] != Resting
    ensures CanGoOn(c, run[i])
  {
    InvAlways(c, run, i);
    BusyGoesOn(c, run[i], t);
  }

  // ----- eviction -----

  lemma EvictedGrows(c: Config, s: State, s': State)
    requires Inv(c, s) && Moves(c, s, s')
    ensures s.evicted <= s'.evicted
  {
    if ThreadStep(c, s, s') {
      var t, w :| Next(c, s, t, w) == Some(s');
      NextKeepsInv(c, s, t, w);
    }
  }

  lemma {:induction false} EvictedForGood(c: Config, run: seq<State>, i: nat, j: nat)
    requires Behaviour(c, run) && i <= j < |run|
    ensures run[i].evicted <= run[j].evicted
    decreases j
  {
    if i < j {
      EvictedForGood(c, run, i, j - 1);
      EvictedGrowsAt(c, run, j);
    }
  }

  lemma EvictedGrowsAt(c: Config, run: seq<State>, j: nat)
    requires Behaviour(c, run) && 0 < j < |run|
    ensures run[j - 1].evicted <= run[j].evicted
  {
    InvAlways(c, run, j - 1);
    assert MovesAt(c, run, j);
    EvictedGrows(c, run[j - 1], run[j]);
  }

  /**
   Eviction loses no work: once the reaper has removed a session, no call that had already looked the
   session up runs on it, then or at any later point of the run; nor can a later lookup find it.
   */
  lemma EvictedNeverRuns(c: Config, run: seq<State>, i: nat, j: nat, h: Handle, t: Thread)
    requires Behaviour(c, run) && i <= j < |run| && h in run[i].evicted && t in run[j].threads
    ensures run[j].threads[t].Running? ==> run[j].threads[t].handle != h
    ensures h !in run[j].sessions.Values
  {
    EvictedForGood(c, run, i, j);
    InvAlways(c, run, j);
    assert Proper(run[j], run[j].threads[t]);
  }

  /** A session is evicted only when idle and when no other thread holds its lock. */
  lemma HeldIsNotEvicted(c: Config, run: seq<State>, i: nat, h: Handle) returns (reaper: Thread)
    requires Behaviour(c, run) && i + 1 < |run| && h in run[i + 1].evicted && h !in run[i].evicted
    ensures reaper in run[i].threads && run[i].threads[reaper].SweepHeld? && run[i].threads[reaper].handle == h
    ensures IsIdle(c, run[i], h)
    ensures forall u | u in run[i].threads && u != reaper :: SessionLock(h) !in Holds(run[i].threads[u])
  {
    InvAlways(c, run, i);
    assert MovesAt(c, run, i + 1) && !Tick(run[i], run[i + 1]);
    var t, w :| Next(c, run[i], t, w) == Some(run[i + 1]);
    reaper := t;
    EvictionStep(c, run[i], t, w, h);
  }

  lemma EvictionStep(c: Config, s: State, t: Thread, w: Choice, h: Handle)
    requires Inv(c, s) && Next(c, s, t, w).Some? && h in Next(c, s, t, w).value.evicted && h !in s.evicted
    ensures s.threads[t].SweepHeld? && s.threads[t].handle == h && IsIdle(c, s, h)
    ensures forall u | u in s.threads && u != t :: SessionLock(h) !in Holds(s.threads[u])
  {
    EvictsWhatItHolds(c, s, t, w, h);
    assert SessionLock(h) in Holds(s.threads[t]);
    assert forall u | u in s.threads && u != t :: Holds(s.threads[u]) !! Holds(s.threads[t]);
  }

  lemma EvictsWhatItHolds(c: Config, s: State, t: Thread, w: Choice, h: Handle)
    requires Next(c, s, t, w).Some? && h in Next(c, s, t, w).value.evicted && h !in s.evicted
    ensures s.threads[t].SweepHeld? && s.threads[t].handle == h && IsIdle(c, s, h)
  {
  }

  /** A registered session keeps its id until it is closed, or evicted while idle. */
  lemma OnlyClosedOrEvicted(c: Config, s: State, t: Thread, w: Choice, id: SessionId)
    requires Inv(c, s) && Next(c, s, t, w).Some? && id in s.sessions
    ensures var s' := Next(c, s, t, w).value;
            if id in s'.sessions then s'.sessions[id] == s.sessions[id]
            else (s.threads[t].MapHeld? && s.threads[t].job == Remove(id))
                 || (s.threads[t].SweepHeld? && s.threads[t].id == id && IsIdle(c, s, s.sessions[id]))
  {
    assert Proper(s, s.threads[t]);
  }

  // ----- idleness is absorbing -----

  /** Thread `t` is inside the closure of an update of session `h`. */
  ghost predicate RunsOn(s: State, t: Thread, h: Handle) {
    t in s.threads && s.threads[t].Running? && s.threads[t].handle == h
  }

  /** The session stays idle, and no thread begins to work on it. */
  ghost predicate StaysIdle(c: Config, s: State, s': State, h: Handle) {
    && h < s'.next && IsIdle(c, s', h)
    && forall t | RunsOn(s', t, h) :: t in s.threads && s.threads[t] == s'.threads[t]
  }

  lemma InsertKeepsIdle(c: Config, s: State, t: Thread, w: Choice, h: Handle)
    requires h < s.next && IsIdle(c, s, h) && Next(c, s, t, w).Some?
    requires s.threads[t].MapHeld? && s.threads[t].job.Insert?
    ensures StaysIdle(c, s, Next(c, s, t, w).value, h)
  {
  }

  lemma MapStepKeepsIdle(c: Config, s: State, t: Thread, w: Choice, h: Handle)
    requires h < s.next && IsIdle(c, s, h) && Next(c, s, t, w).Some?
    requires s.threads[t].MapHeld? && !s.threads[t].job.Insert?
    ensures StaysIdle(c, s, Next(c, s, t, w).value, h)
  {
  }

  lemma UseStepKeepsIdle(c: Config, s: State, t: Thread, w: Choice, h: Handle)
    requires h < s.next && IsIdle(c, s, h) && Next(c, s, t, w).Some? && s.threads[t].SessionHeld?
    ensures StaysIdle(c, s, Next(c, s, t, w).value, h)
  {
  }

  lemma MoveKeepsIdle(c: Config, s: State, t: Thread, w: Choice, h: Handle)
    requires h < s.next && IsIdle(c, s, h) && Next(c, s, t, w).Some?
    requires !s.threads[t].MapHeld? && !s.threads[t].SessionHeld?
    ensures StaysIdle(c, s, Next(c, s, t, w).value, h)
  {
  }

  lemma MovesKeepIdle(c: Config, s: State, s': State, h: Handle)
    requires h < s.next && IsIdle(c, s, h) && Moves(c, s, s')
    ensures StaysIdle(c, s, s', h)
  {
    if ThreadStep(c, s, s') {
      var t, w :| Next(c, s, t, w) == Some(s');
      if s.threads[t].MapHeld? && s.threads[t].job.Insert? {
        InsertKeepsIdle(c, s, t, w, h);
      } else if s.threads[t].MapHeld? {
        MapStepKeepsIdle(c, s, t, w, h);
      } else if s.threads[t].SessionHeld? {
        UseStepKeepsIdle(c, s, t, w, h);
      } else {
        MoveKeepsIdle(c, s, t, w, h);
      }
    } else {
      TimeKeepsIdle(c, s, s', h);
    }
  }

  /**
   Once a session is idle it stays idle, whatever the threads do: no call refreshes it, and whoever runs on
   it later was already running on it then.
   */
  lemma {:induction false} IdleIsAbsorbing(c: Config, run: seq<State>, i: nat, j: nat, h: Handle)
    requires Behaviour(c, run) && i <= j < |run| && h < run[i].next && IsIdle(c, run[i], h)
    ensures StaysIdle(c, run[i], run[j], h)
    decreases j
  {
    if i < j {
      IdleIsAbsorbing(c, run, i, j - 1, h);
      assert MovesAt(c, run, j);
      MovesKeepIdle(c, run[j - 1], run[j], h);
    }
  }

  // ----- what updates, sweeps, closes and insertions do -----

  /** Thread `t` holds session `h` for an update it has not begun. */
  ghost predicate Updating(s: State, t: Thread, h: Handle) {
    t in s.threads && s.threads[t].SessionHeld? && s.threads[t].handle == h && s.threads[t].use.Update?
  }

  /** The thread whose point changed between two neighbouring states is the one that took the step. */
  lemma StepOf(c: Config, run: seq<State>, i: nat, t: Thread) returns (w: Choice)
    requires Behaviour(c, run) && i + 1 < |run| && t in run[i].threads && t in run[i + 1].threads
    requires run[i].threads[t] != run[i + 1].threads[t]
    ensures Next(c, run[i], t, w) == Some(run[i + 1])
  {
    InvAlways(c, run, i);
    assert MovesAt(c, run, i + 1) && !Tick(run[i], run[i + 1]);
    var u, w' :| Next(c, run[i], u, w') == Some(run[i + 1]);
    NextKeepsInv(c, run[i], u, w');
    w := w';
  }

  /** Beginning an update makes now the time of the session's last activity. */
  lemma UpdateRefreshes(c: Config, run: seq<State>, i: nat, t: Thread, h: Handle)
    requires Behaviour(c, run) && i + 1 < |run| && Updating(run[i], t, h) && RunsOn(run[i + 1], t, h)
    ensures run[i + 1].lastActivity == run[i].lastActivity[h := run[i].now] && run[i + 1].now == run[i].now
  {
    var w := StepOf(c, run, i, t);
  }

  /** The time of last activity never goes back. */
  lemma MovesKeepLast(c: Config, s: State, s': State, h: Handle)
    requires Inv(c, s) && h < s.next && Moves(c, s, s')
    ensures h < s'.next && s.Last(h) <= s'.Last(h)
  {
    if ThreadStep(c, s, s') {
      var t, w :| Next(c, s, t, w) == Some(s');
      if s.threads[t].MapHeld? {
        MapStepKeepsLast(c, s, t, w, h);
      } else if s.threads[t].SessionHeld? {
        UseStepKeepsLast(c, s, t, w, h);
      } else {
        MoveKeepsLast(c, s, t, w);
      }
    }
  }

  lemma MapStepKeepsLast(c: Config, s: State, t: Thread, w: Choice, h: Handle)
    requires h < s.next && Next(c, s, t, w).Some? && s.threads[t].MapHeld?
    ensures h < Next(c, s, t, w).value.next && Next(c, s, t, w).value.Last(h) == s.Last(h)
  {
  }

  lemma UseStepKeepsLast(c: Config, s: State, t: Thread, w: Choice, h: Handle)
    requires Registered(s) && h < s.next && Next(c, s, t, w).Some? && s.threads[t].SessionHeld?
    ensures h < Next(c, s, t, w).value.next && s.Last(h) <= Next(c, s, t, w).value.Last(h)
  {
  }

  lemma MoveKeepsLast(c: Config, s: State, t: Thread, w: Choice)
    requires Next(c, s, t, w).Some? && !s.threads[t].MapHeld? && !s.threads[t].SessionHeld?
    ensures Next(c, s, t, w).value.lastActivity == s.lastActivity && Next(c, s, t, w).value.next == s.next
  {
  }

  lemma {:induction false} LastGrows(c: Config, run: seq<State>, i: nat, j: nat, h: Handle)
    requires Behaviour(c, run) && i <= j < |run| && h < run[i].next
    ensures h < run[j].next && run[i].Last(h) <= run[j].Last(h)
    decreases j
  {
    if i < j {
      LastGrows(c, run, i, j - 1, h);
      LastKeptAt(c, run, j, h);
    }
  }

  lemma LastKeptAt(c: Config, run: seq<State>, j: nat, h: Handle)
    requires Behaviour(c, run) && 0 < j < |run| && h < run[j - 1].next
    ensures h < run[j].next && run[j - 1].Last(h) <= run[j].Last(h)
  {
    InvAlways(c, run, j - 1);
    assert MovesAt(c, run, j);
    MovesKeepLast(c, run[j - 1], run[j], h);
  }

  /** An update that holds its session runs exactly when the timeout has not passed since the last activity. */
  lemma UpdateDecides(c: Config, s: State, t: Thread, h: Handle, w: Choice)
    requires Inv(c, s) && Updating(s, t, h)
    ensures h in s.lastActivity && s.lastActivity[h] <= s.now && Next(c, s, t, w).Some?
    ensures RunsOn(Next(c, s, t, w).value, t, h)
            <==> c.idleTimeoutSecs.None? || (s.now - s.lastActivity[h]) / 1_000_000_000 <= c.idleTimeoutSecs.value
  {
    assert Proper(s, s.threads[t]);
  }

  lemma RecentIsNotIdle(c: Config, s: State, h: Handle, used: nat)
    requires Inv(c, s) && h < s.next && used <= s.Last(h)
    requires c.idleTimeoutSecs.Some? && (s.now - used) / 1_000_000_000 <= c.idleTimeoutSecs.value
    ensures !IsIdle(c, s, h) && h !in s.evicted
  {
    assert s.Last(h) <= s.now;
    DivisionGrows(s.now - s.Last(h), s.now - used);
  }

  /** A session that was updated within the timeout is not evicted, and another update of it is not refused. */
  lemma RecentlyUsedIsSafe(c: Config, run: seq<State>, i: nat, j: nat, t: Thread, h: Handle)
    requires Behaviour(c, run) && i < j < |run| && Updating(run[i], t, h) && RunsOn(run[i + 1], t, h)
    requires c.idleTimeoutSecs.Some? && (run[j].now - run[i].now) / 1_000_000_000 <= c.idleTimeoutSecs.value
    ensures h !in run[j].evicted
    ensures forall u, w | Updating(run[j], u, h) ::
              Next(c, run[j], u, w).Some? && RunsOn(Next(c, run[j], u, w).value, u, h)
  {
    UpdateRefreshes(c, run, i, t, h);
    UpdatedIsKnown(c, run, i, t, h);
    LastGrows(c, run, i + 1, j, h);
    InvAlways(c, run, j);
    RecentIsNotIdle(c, run[j], h, run[i].now);
    forall u, w | Updating(run[j], u, h)
      ensures Next(c, run[j], u, w).Some? && RunsOn(Next(c, run[j], u, w).value, u, h)
    {
      UpdateRuns(c, run[j], u, h, w);
    }
  }

  lemma UpdatedIsKnown(c: Config, run: seq<State>, i: nat, t: Thread, h: Handle)
    requires Behaviour(c, run) && i + 1 < |run| && RunsOn(run[i + 1], t, h)
    ensures h < run[i + 1].next
  {
    InvAlways(c, run, i + 1);
    assert Proper(run[i + 1], run[i + 1].threads[t]);
  }

  lemma UpdateRuns(c: Config, s: State, t: Thread, h: Handle, w: Choice)
    requires Updating(s, t, h) && !IsIdle(c, s, h)
    ensures Next(c, s, t, w).Some? && RunsOn(Next(c, s, t, w).value, t, h)
  {
  }

  /** With no timeout configured, no session is ever evicted. */
  lemma NoTimeoutNoEviction(c: Config, run: seq<State>, i: nat)
    requires Behaviour(c, run) && i < |run| && c.idleTimeoutSecs.None?
    ensures run[i].evicted == {}
  {
    InvAlways(c, run, i);
  }

  /** A session the sweep has locked leaves the map exactly when the timeout has passed since its last activity. */
  lemma SweepDecides(c: Config, run: seq<State>, i: nat, t: Thread, timeout: nat)
    requires Behaviour(c, run) && i + 1 < |run| && t in run[i].threads && t in run[i + 1].threads
    requires run[i].threads[t].SweepHeld? && run[i].threads[t] != run[i + 1].threads[t]
    requires c.idleTimeoutSecs == Some(timeout)
    ensures var SweepHeld(id, h, _) := run[i].threads[t];
            var s, s' := run[i], run[i + 1];
            && h in s.lastActivity && s.lastActivity[h] <= s.now
            && var idle := (s.now - s.lastActivity[h]) / 1_000_000_000 > timeout;
               && s'.sessions == (if idle then s.sessions - {id} else s.sessions)
               && s'.evicted == (if idle then s.evicted + {h} else s.evicted)
  {
    InvAlways(c, run, i);
    assert Proper(run[i], run[i].threads[t]);
    var w := StepOf(c, run, i, t);
  }

  /** A sweep starts with every session of the map, and passes over one only while its lock is taken. */
  lemma SweepVisits(c: Config, run: seq<State>, i: nat, t: Thread)
    requires Behaviour(c, run) && i + 1 < |run| && t in run[i].threads && t in run[i + 1].threads
    requires run[i].threads[t] != run[i + 1].threads[t]
    ensures run[i].threads[t].MapHeld? && run[i].threads[t].job == StartSweep ==>
              run[i + 1].threads[t] == Sweep(run[i].sessions.Keys)
    ensures run[i].threads[t].Sweep? ==>
              match run[i + 1].threads[t]
              case Resting => run[i].threads[t].ids == {}
              case Sweep(left) =>
                exists id: SessionId ::
                  && id in run[i].threads[t].ids && id in run[i].sessions
                  && left == run[i].threads[t].ids - {id}
                  && !run[i].Free(SessionLock(run[i].sessions[id]))
              case SweepHeld(id, h, left) =>
                id in run[i].threads[t].ids && id in run[i].sessions && h == run[i].sessions[id]
                && left == run[i].threads[t].ids - {id}
              case _ => false
  {
    var w := StepOf(c, run, i, t);
  }

  /** Closing takes exactly the one session out of the map. */
  lemma CloseRemoves(c: Config, run: seq<State>, i: nat, t: Thread, id: SessionId)
    requires Behaviour(c, run) && i + 1 < |run| && t in run[i].threads && t in run[i + 1].threads
    requires run[i].threads[t].MapHeld? && run[i].threads[t].job == Remove(id)
    requires run[i].threads[t] != run[i + 1].threads[t]
    ensures run[i + 1].sessions == run[i].sessions - {id} && run[i + 1].evicted == run[i].evicted
  {
    var w := StepOf(c, run, i, t);
    assert id !in run[i].sessions ==> run[i].sessions - {id} == run[i].sessions;
  }

  /**
   An insertion is refused exactly when the map is full; otherwise a session no thread knows yet is
   registered under an id not in use, and the thread goes on to lock it.
   */
  lemma InsertRegisters(c: Config, run: seq<State>, i: nat, t: Thread)
    requires Behaviour(c, run) && i + 1 < |run| && t in run[i].threads && t in run[i + 1].threads
    requires run[i].threads[t].MapHeld? && run[i].threads[t].job == Insert && run[i].threads[t] != run[i + 1].threads[t]
    ensures var (s, s', h) := (run[i], run[i + 1], run[i].next);
            if c.maxSessions.Some? && |s.sessions| >= c.maxSessions.value then
              s'.threads[t] == Resting && s'.sessions == s.sessions
            else
              && (exists id: SessionId :: id !in s.sessions && s'.sessions == s.sessions[id := h])
              && h !in s.sessions.Values && h !in s.evicted && h in s'.lastActivity
              && s'.threads[t] == SessionWait(h, Read, s.threads[t].outer)
              && forall u | u in s.threads :: !Knows(s.threads[u], h)
  {
    InvAlways(c, run, i);
    NextIsUnknown(c, run[i]);
    var w := StepOf(c, run, i, t);
    InsertStep(c, run[i], t, w);
  }

  lemma InsertStep(c: Config, s: State, t: Thread, w: Choice)
    requires Next(c, s, t, w).Some? && s.threads[t].MapHeld? && s.threads[t].job == Insert
    ensures var s' := Next(c, s, t, w).value;
            if c.maxSessions.Some? && |s.sessions| >= c.maxSessions.value then
              s'.threads[t] == Resting && s'.sessions == s.sessions
            else
              && w.id !in s.sessions && s'.sessions == s.sessions[w.id := s.next] && s.next in s'.lastActivity
              && s'.threads[t] == SessionWait(s.next, Read, s.threads[t].outer)
  {
  }

  lemma NextIsUnknown(c: Config, s: State)
    requires Inv(c, s)
    ensures s.next !in s.sessions.Values && s.next !in s.evicted
    ensures forall u | u in s.threads :: !Knows(s.threads[u], s.next)
  {
    forall u | u in s.threads
      ensures !Knows(s.threads[u], s.next)
    {
      assert Proper(s, s.threads[u]);
    }
  }

  /** Where a step takes its thread. */
  ghost function NextPoint(c: Config, s: State, t: Thread, w: Choice): Option<Point> {
    match Next(c, s, t, w)
    case None => None
    case Some(s') => if t in s'.threads then Some(s'.threads[t]) else None
  }

  /** The thread either ends its call here or goes on to `point`; both can happen. */
  ghost predicate MayGoOn(c: Config, s: State, t: Thread, point: Point) {
    && (forall w :: NextPoint(c, s, t, w) == Some(Resting) || NextPoint(c, s, t, w) == Some(point))
    && (exists w :: NextPoint(c, s, t, w) == Some(point))
    && (exists w :: NextPoint(c, s, t, w) == Some(Resting))
  }

  /**
   What is still locked while a call goes on: a fork lets go of its source before it inserts the new session,
   a fork from the web interface and a merge keep theirs, and a merge only looks its target up for an update.
   */
  lemma SourcesKept(c: Config, s: State, t: Thread)
    requires t in s.threads && s.threads[t].SessionHeld?
    ensures var SessionHeld(h, use, _) := s.threads[t];
            match use
            case ForkRead => MayGoOn(c, s, t, MapWait(Insert, None))
            case WebForkRead => MayGoOn(c, s, t, MapWait(Insert, Some(h)))
            case MergeRead(target) => MayGoOn(c, s, t, MapWait(Resolve(target, ForUpdate), Some(h)))
            case ReadListed(left) => forall w :: NextPoint(c, s, t, w) == Some(Listing(left))
            case Read => forall w :: NextPoint(c, s, t, w) == Some(Resting)
            case WebUse => forall w :: NextPoint(c, s, t, w) == Some(Resting)
            case Update => true
  {
    var on, off := Choice(Insert, 0, 0, 0, true), Choice(Insert, 0, 0, 0, false);
    assert NextPoint(c, s, t, on).Some? && NextPoint(c, s, t, off).Some?;
  }

  /** The tree tries each session once and keeps what it could lock; the list waits for each in turn. */
  lemma WalksVisit(c: Config, s: State, t: Thread, w: Choice)
    requires t in s.threads && NextPoint(c, s, t, w).Some?
    ensures s.threads[t].Walk? ==>
              var Walk(todo, held) := s.threads[t];
              NextPoint(c, s, t, w) == Some(
                if todo == {} then Resting
                else Walk(todo - {w.handle}, held + if s.Free(SessionLock(w.handle)) then {w.handle} else {}))
    ensures s.threads[t].Listing? ==>
              var Listing(todo) := s.threads[t];
              NextPoint(c, s, t, w) == Some(
                if todo == {} then Resting else SessionWait(w.handle, ReadListed(todo - {w.handle}), None))
    ensures (s.threads[t].Walk? || s.threads[t].Listing?) && s.threads[t].todo != {} ==> w.handle in s.threads[t].todo
  {
    assert s.threads[t].Walk? ==> s.threads[t].held + {} == s.threads[t].held;
  }

  /** A closed session is locked once more only for its snapshot, after it has left the map. */
  lemma ClosedGoesOn(c: Config, s: State, t: Thread, id: SessionId)
    requires t in s.threads && s.threads[t] == MapHeld(Remove(id), None)
    ensures if c.snapshotOnClose && id in s.sessions then MayGoOn(c, s, t, SessionWait(s.sessions[id], Read, None))
            else forall w :: NextPoint(c, s, t, w) == Some(Resting)
  {
    var on, off := Choice(Insert, 0, 0, 0, true), Choice(Insert, 0, 0, 0, false);
    assert NextPoint(c, s, t, on).Some? && NextPoint(c, s, t, off).Some?;
  }

  /** A lookup goes on to the session registered under the id, and ends the call when there is none. */
  lemma LookupFinds(c: Config, run: seq<State>, i: nat, t: Thread, id: SessionId, purpose: Purpose)
    requires Behaviour(c, run) && i + 1 < |run| && t in run[i].threads && t in run[i + 1].threads
    requires run[i].threads[t].MapHeld? && run[i].threads[t].job == Resolve(id, purpose)
    requires run[i].threads[t] != run[i + 1].threads[t]
    ensures var point := run[i + 1].threads[t];
            if id !in run[i].sessions then point == Resting
            else
              && (point.SessionWait? || point.SessionTry?) && point.handle == run[i].sessions[id]
              && point.outer == run[i].threads[t].outer
              && (point.use.Update? <==> purpose.ForUpdate?)
              && (point.SessionTry? <==> purpose.ForUpdate? || purpose.ForWebFork? || purpose.ForWebUse?)
  {
    var w := StepOf(c, run, i, t);
  }

  // ----- what eviction does not guarantee -----

  /** The thread holds a handle on the session, or may still take it from a list it made. */
  predicate Knows(point: Point, h: Handle) {
    match point
    case Resting => false
    case MapWait(_, outer) => outer == Some(h)
    case MapHeld(_, outer) => outer == Some(h)
    case SessionWait(handle, use, outer) => handle == h || outer == Some(h) || (use.ReadListed? && h in use.left)
    case SessionTry(handle, use, outer) => handle == h || outer == Some(h) || (use.ReadListed? && h in use.left)
    case SessionHeld(handle, use, outer) => handle == h || outer == Some(h) || (use.ReadListed? && h in use.left)
    case Running(handle, outer) => handle == h || outer == Some(h)
    case Sweep(_) => false
    case SweepHeld(_, handle, _) => handle == h
    case Walk(todo, held) => h in todo || h in held
    case Listing(todo) => h in todo
  }

  /** Whoever knows session `h` after the step knew it before. */
  ghost predicate TeachesNothing(s: State, s': State, h: Handle) {
    forall t | t in s'.threads && Knows(s'.threads[t], h) :: t in s.threads && Knows(s.threads[t], h)
  }

  lemma StepTeachesNothing(c: Config, s: State, t: Thread, w: Choice, h: Handle)
    requires h < s.next && h !in s.sessions.Values && Next(c, s, t, w).Some?
    ensures TeachesNothing(s, Next(c, s, t, w).value, h)
  {
    if s.threads[t].MapHeld? {
      MapStepTeachesNothing(c, s, t, w, h);
    } else if s.threads[t].SessionHeld? {
      UseStepTeachesNothing(c, s, t, w, h);
    } else if s.threads[t].Walk? || s.threads[t].Listing? {
      ListStepTeachesNothing(c, s, t, w, h);
    } else {
      MoveTeachesNothing(c, s, t, w, h);
    }
  }

  lemma MapStepTeachesNothing(c: Config, s: State, t: Thread, w: Choice, h: Handle)
    requires h < s.next && h !in s.sessions.Values && Next(c, s, t, w).Some? && s.threads[t].MapHeld?
    ensures TeachesNothing(s, Next(c, s, t, w).value, h)
  {
  }

  lemma UseStepTeachesNothing(c: Config, s: State, t: Thread, w: Choice, h: Handle)
    requires Next(c, s, t, w).Some? && s.threads[t].SessionHeld?
    ensures TeachesNothing(s, Next(c, s, t, w).value, h)
  {
  }

  lemma MoveTeachesNothing(c: Config, s: State, t: Thread, w: Choice, h: Handle)
    requires h !in s.sessions.Values && Next(c, s, t, w).Some?
    requires !s.threads[t].MapHeld? && !s.threads[t].SessionHeld? && !s.threads[t].Walk? && !s.threads[t].Listing?
    ensures TeachesNothing(s, Next(c, s, t, w).value, h)
  {
  }

  lemma ListStepTeachesNothing(c: Config, s: State, t: Thread, w: Choice, h: Handle)
    requires Next(c, s, t, w).Some? && (s.threads[t].Walk? || s.threads[t].Listing?)
    ensures TeachesNothing(s, Next(c, s, t, w).value, h)
  {
  }

  lemma MovesTeachNothing(c: Config, s: State, s': State, h: Handle)
    requires Inv(c, s) && h in s.evicted && Moves(c, s, s')
    ensures TeachesNothing(s, s', h)
  {
    if ThreadStep(c, s, s') {
      var t, w :| Next(c, s, t, w) == Some(s');
      assert h !in s.sessions.Values;
      StepTeachesNothing(c, s, t, w, h);
    }
  }

  lemma NothingTaughtAt(c: Config, run: seq<State>, j: nat, h: Handle)
    requires Behaviour(c, run) && 0 < j < |run| && h in run[j - 1].evicted
    ensures TeachesNothing(run[j - 1], run[j], h)
  {
    InvAlways(c, run, j - 1);
    assert MovesAt(c, run, j);
    MovesTeachNothing(c, run[j - 1], run[j], h);
  }

  /** Whoever holds a handle on an evicted session looked it up before the eviction. */
  lemma {:induction false} LookedUpBefore(c: Config, run: seq<State>, i: nat, j: nat, h: Handle, t: Thread)
    requires Behaviour(c, run) && i <= j < |run| && h in run[i].evicted
    requires t in run[j].threads && Knows(run[j].threads[t], h)
    ensures t in run[i].threads && Knows(run[i].threads[t], h)
    decreases j
  {
    if i < j {
      EvictedForGood(c, run, i, j - 1);
      NothingTaughtAt(c, run, j, h);
      LookedUpBefore(c, run, i, j - 1, h, t);
    }
  }

  /** The thread reads or changes the session at this point. */
  predicate WorksOn(point: Point, h: Handle) {
    match point
    case SessionHeld(handle, use, _) => handle == h && !use.Update?
    case Running(handle, _) => handle == h
    case Walk(_, held) => h in held
    case _ => false
  }

  /**
   A call that looked a session up before it was evicted, and finds its lock free afterwards, goes on to
   work on it if and only if it is not an update: only updates look at the idle time.
   */
  lemma EvictedIsUsedIff(c: Config, run: seq<State>, i: nat, h: Handle, t: Thread, w: Choice, w': Choice)
    requires Behaviour(c, run) && i < |run| && h in run[i].evicted && t in run[i].threads
    requires run[i].threads[t].SessionTry? || run[i].threads[t].SessionWait?
    requires run[i].threads[t].handle == h && run[i].Free(SessionLock(h))
    ensures var s, use := run[i], run[i].threads[t].use;
            var first := Next(c, s, t, w);
            && first.Some?
            && var second := Next(c, first.value, t, w');
               && second.Some?
               && (WorksOn(first.value.threads[t], h) || WorksOn(second.value.threads[t], h) <==> !use.Update?)
  {
    InvAlways(c, run, i);
    assert IsIdle(c, run[i], h);
  }

  /** Two threads and at most session 0, which is handle 0 and was last active at time 0. */
  function Two(registered: bool, created: bool, now: nat, evicted: bool, caller: Point, reaper: Point): State {
    State(if registered then map[0 := 0] else map[],
          if created then 1 else 0,
          if created then map[0 := 0] else map[],
          now,
          map[0 := caller, 1 := reaper],
          if evicted then {0} else {})
  }

  lemma TwoFree(s: State, caller: Point, reaper: Point, lock: Lock)
    requires s.threads == map[0 := caller, 1 := reaper]
    ensures s.Free(lock) <==> lock !in Holds(caller) && lock !in Holds(reaper)
  {
    assert s.threads[0] == caller && s.threads[1] == reaper;
    assert s.Free(lock) ==> 0 in s.threads && 1 in s.threads;
  }

  /** The caller's steps, as equalities of states. */
  lemma CallerMoves(
    registered: bool, created: bool, now: nat, evicted: bool, caller: Point, reaper: Point, point: Point)
    ensures Two(registered, created, now, evicted, caller, reaper).To(0, point)
         == Two(registered, created, now, evicted, point, reaper)
  {
    assert (map[0 := caller, 1 := reaper])[0 := point] == map[0 := point, 1 := reaper];
  }

  lemma ReaperMoves(
    registered: bool, created: bool, now: nat, evicted: bool, caller: Point, reaper: Point, point: Point)
    ensures Two(registered, created, now, evicted, caller, reaper).To(1, point)
         == Two(registered, created, now, evicted, caller, point)
  {
    assert (map[0 := caller, 1 := reaper])[1 := point] == map[0 := caller, 1 := point];
  }

  lemma Leads(c: Config, run: seq<State>, t: Thread, w: Choice, s': State)
    requires Behaviour(c, run) && Next(c, run[|run| - 1], t, w) == Some(s')
    ensures Behaviour(c, run + [s'])
  {
    LeadsOn(c, run, s');
  }

  lemma LeadsOn(c: Config, run: seq<State>, s': State)
    requires Behaviour(c, run) && Moves(c, run[|run| - 1], s')
    ensures Behaviour(c, run + [s'])
  {
    var longer := run + [s'];
    forall i | 0 < i < |longer|
      ensures MovesAt(c, longer, i)
    {
      assert i < |run| ==> MovesAt(c, run, i);
    }
  }

  /**
   Such a call does come about: one from the web interface that looked the session up before the reaper
   came, and works on it afterwards.
   */
  lemma WebCallRunsOnEvicted() returns (c: Config, run: seq<State>, t: Thread, h: Handle)
    ensures Behaviour(c, run)
    ensures var s := run[|run| - 1];
            h in s.evicted && t in s.threads && s.threads[t] == SessionHeld(h, WebUse, None)
  {
    c, t, h := Config(Some(0), None, false), 0, 0;
    var w := Choice(Insert, 0, 0, 0, true);
    run := [Two(false, false, 0, false, Resting, Resting)];
    run := SessionIsCreated(c, run);
    run := WebCallLooksUp(c, run);
    LeadsOn(c, run, Two(true, true, NANOS, false, SessionTry(0, WebUse, None), Resting));
    run := run + [Two(true, true, NANOS, false, SessionTry(0, WebUse, None), Resting)];
    run := ReaperEvicts(c, run);
    var last := Two(false, true, NANOS, true, SessionHeld(0, WebUse, None), Sweep({}));
    TwoFree(run[|run| - 1], SessionTry(0, WebUse, None), Sweep({}), SessionLock(0));
    CallerMoves(false, true, NANOS, true, SessionTry(0, WebUse, None), Sweep({}), SessionHeld(0, WebUse, None));
    Leads(c, run, 0, w, last);
    run := run + [last];
  }

  lemma SessionIsCreated(c: Config, run0: seq<State>) returns (run: seq<State>)
    requires c == Config(Some(0), None, false) && Behaviour(c, run0)
    requires run0[|run0| - 1] == Two(false, false, 0, false, Resting, Resting)
    ensures Behaviour(c, run) && run[|run| - 1] == Two(true, true, 0, false, Resting, Resting)
  {
    var w := Choice(Insert, 0, 0, 0, true);
    var states := [
      Two(false, false, 0, false, MapWait(Insert, None), Resting),
      Two(false, false, 0, false, MapHeld(Insert, None), Resting),
      Two(true, true, 0, false, SessionWait(0, Read, None), Resting),
      Two(true, true, 0, false, SessionHeld(0, Read, None), Resting),
      Two(true, true, 0, false, Resting, Resting)];
    CallerMoves(false, false, 0, false, Resting, Resting, MapWait(Insert, None));
    TwoFree(states[0], MapWait(Insert, None), Resting, MapLock);
    CallerMoves(false, false, 0, false, MapWait(Insert, None), Resting, MapHeld(Insert, None));
    assert StepsTo(c, states, 1, 0, w);
    assert WithSession(states[1], 0, 0) == Two(true, true, 0, false, MapHeld(Insert, None), Resting);
    CallerMoves(true, true, 0, false, MapHeld(Insert, None), Resting, SessionWait(0, Read, None));
    assert StepsTo(c, states, 2, 0, w);
    TwoFree(states[2], SessionWait(0, Read, None), Resting, SessionLock(0));
    CallerMoves(true, true, 0, false, SessionWait(0, Read, None), Resting, SessionHeld(0, Read, None));
    assert StepsTo(c, states, 3, 0, w);
    CallerMoves(true, true, 0, false, SessionHeld(0, Read, None), Resting, Resting);
    assert StepsTo(c, states, 4, 0, w);
    run := Follow(c, run0, states, 0, w);
  }

  lemma WebCallLooksUp(c: Config, run0: seq<State>) returns (run: seq<State>)
    requires c == Config(Some(0), None, false) && Behaviour(c, run0)
    requires run0[|run0| - 1] == Two(true, true, 0, false, Resting, Resting)
    ensures Behaviour(c, run) && run[|run| - 1] == Two(true, true, 0, false, SessionTry(0, WebUse, None), Resting)
  {
    var w := Choice(Resolve(0, ForWebUse), 0, 0, 0, true);
    var states := [
      Two(true, true, 0, false, MapWait(Resolve(0, ForWebUse), None), Resting),
      Two(true, true, 0, false, MapHeld(Resolve(0, ForWebUse), None), Resting),
      Two(true, true, 0, false, SessionTry(0, WebUse, None), Resting)];
    CallerMoves(true, true, 0, false, Resting, Resting, MapWait(w.job, None));
    TwoFree(states[0], MapWait(w.job, None), Resting, MapLock);
    CallerMoves(true, true, 0, false, MapWait(w.job, None), Resting, MapHeld(w.job, None));
    assert StepsTo(c, states, 1, 0, w);
    CallerMoves(true, true, 0, false, MapHeld(w.job, None), Resting, SessionTry(0, WebUse, None));
    assert StepsTo(c, states, 2, 0, w);
    run := Follow(c, run0, states, 0, w);
  }

  lemma ReaperEvicts(c: Config, run0: seq<State>) returns (run: seq<State>)
    requires c == Config(Some(0), None, false) && Behaviour(c, run0)
    requires run0[|run0| - 1] == Two(true, true, NANOS, false, SessionTry(0, WebUse, None), Resting)
    ensures Behaviour(c, run) && run[|run| - 1] == Two(false, true, NANOS, true, SessionTry(0, WebUse, None), Sweep({}))
  {
    var w := Choice(StartSweep, 0, 0, 0, true);
    var call := SessionTry(0, WebUse, None);
    var states := [
      Two(true, true, NANOS, false, call, MapWait(StartSweep, None)),
      Two(true, true, NANOS, false, call, MapHeld(StartSweep, None)),
      Two(true, true, NANOS, false, call, Sweep({0})),
      Two(true, true, NANOS, false, call, SweepHeld(0, 0, {})),
      Two(false, true, NANOS, true, call, Sweep({}))];
    ReaperMoves(true, true, NANOS, false, call, Resting, MapWait(StartSweep, None));
    TwoFree(states[0], call, MapWait(StartSweep, None), MapLock);
    ReaperMoves(true, true, NANOS, false, call, MapWait(StartSweep, None), MapHeld(StartSweep, None));
    assert StepsTo(c, states, 1, 1, w);
    assert states[1].sessions.Keys == {0};
    ReaperMoves(true, true, NANOS, false, call, MapHeld(StartSweep, None), Sweep({0}));
    assert StepsTo(c, states, 2, 1, w);
    TwoFree(states[2], call, Sweep({0}), SessionLock(0));
    assert states[2].threads[1].ids - {0} == {};
    ReaperMoves(true, true, NANOS, false, call, Sweep({0}), SweepHeld(0, 0, {}));
    assert StepsTo(c, states, 3, 1, w);
    assert IsIdle(c, states[3], 0);
    assert states[3].(sessions := states[3].sessions - {0}, evicted := states[3].evicted + {0})
        == Two(false, true, NANOS, true, call, SweepHeld(0, 0, {})) by {
      assert states[3].sessions - {0} == map[];
      assert states[3].evicted + {0} == {0};
    }
    ReaperMoves(false, true, NANOS, true, call, SweepHeld(0, 0, {}), Sweep({}));
    assert StepsTo(c, states, 4, 1, w);
    run := Follow(c, run0, states, 1, w);
  }

  /** Extends a run by states that thread `t` reaches one after the other. */
  lemma {:induction false} Follow(c: Config, run0: seq<State>, states: seq<State>, t: Thread, w: Choice)
    returns (run: seq<State>)
    requires Behaviour(c, run0) && states != []
    requires Next(c, run0[|run0| - 1], t, w) == Some(states[0])
    requires forall i | 0 < i < |states| :: StepsTo(c, states, i, t, w)
    ensures Behaviour(c, run) && run[|run| - 1] == states[|states| - 1]
    decreases |states|
  {
    Leads(c, run0, t, w, states[0]);
    run := run0 + [states[0]];
    if |states| > 1 {
      assert StepsTo(c, states, 1, t, w);
      forall i | 0 < i < |states[1..]|
        ensures StepsTo(c, states[1..], i, t, w)
      {
        assert StepsTo(c, states, i + 1, t, w);
      }
      run := Follow(c, run, states[1..], t, w);
    }
  }

  ghost predicate StepsTo(c: Config, states: seq<State>, i: nat, t: Thread, w: Choice) {
    0 < i < |states| && Next(c, states[i - 1], t, w) == Some(states[i])
  }
}
