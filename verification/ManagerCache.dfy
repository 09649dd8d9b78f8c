/**
 The keyed cache of manager_factory.go under concurrency.

 ManagerFor looks its key up under the read lock, releases it, and only then takes the write
 lock to build and store a manager, without a second look. Every statement between two lock
 operations is one step here, and any number of threads take their steps in any order.
 */
module ManagerCache {
  import opened Nullable

  datatype Request = Request(account: string, region: string, roleARN: string)

  /** fmt.Sprintf("%s/%s/%s", id, region, roleARN) */
  function Key(r: Request): string {
    r.account + "/" + r.region + "/" + r.roleARN
  }

  /** A manager: its identity, and the account and region it was built with. */
  datatype Manager = Manager(id: nat, account: string, region: string)

  /** Where a thread is in ManagerFor. */
  datatype Thread =
    | Idle
    | Called(req: Request)
    | Reading(req: Request)
    | Looked(req: Request, found: Option<Manager>)
    | Missed(req: Request)
    | Writing(req: Request)
    | Built(req: Request, rm: Manager)
    | Failed(req: Request)
    | Stored(req: Request, rm: Manager)
    | Returned(req: Request, result: Option<Manager>)

  datatype State = State(
    cache: map<string, Manager>,
    readers: set<nat>,
    writer: Option<nat>,
    threads: map<nat, Thread>,
    nextId: nat)

  datatype Action = Call(req: Request) | RLock | Lookup | RUnlock | Lock | Build | BuildFails | Store | Unlock

  datatype Event = Event(thread: nat, action: Action)

  predicate Enabled(s: State, e: Event) {
    && e.thread in s.threads
    && var at := s.threads[e.thread];
       match e.action
       case Call(_) => at.Idle? || at.Returned?
       case RLock => at.Called? && s.writer == None
       case Lookup => at.Reading?
       case RUnlock => at.Looked?
       case Lock => at.Missed? && s.writer == None && s.readers == {}
       case Build => at.Writing?
       case BuildFails => at.Writing?
       case Store => at.Built?
       case Unlock => at.Stored? || at.Failed?
  }

  function Find(cache: map<string, Manager>, key: string): Option<Manager> {
    if key in cache then Some(cache[key]) else None
  }

  function Apply(s: State, e: Event): State
    requires Enabled(s, e)
  {
    var t, at := e.thread, s.threads[e.thread];
    match e.action
    case Call(req) => s.(threads := s.threads[t := Called(req)])
    case RLock => s.(threads := s.threads[t := Reading(at.req)], readers := s.readers + {t})
    case Lookup => s.(threads := s.threads[t := Looked(at.req, Find(s.cache, Key(at.req)))])
    case RUnlock =>
      s.(threads := s.threads[t := if at.found.Some? then Returned(at.req, at.found) else Missed(at.req)],
         readers := s.readers - {t})
    case Lock => s.(threads := s.threads[t := Writing(at.req)], writer := Some(t))
    case Build =>
      s.(threads := s.threads[t := Built(at.req, Manager(s.nextId, at.req.account, at.req.region))],
         nextId := s.nextId + 1)
    case BuildFails => s.(threads := s.threads[t := Failed(at.req)])
    case Store => s.(threads := s.threads[t := Stored(at.req, at.rm)], cache := s.cache[Key(at.req) := at.rm])
    case Unlock =>
      s.(threads := s.threads[t := Returned(at.req, if at.Stored? then Some(at.rm) else None)], writer := None)
  }

  predicate Possible(s: State, events: seq<Event>)
    decreases events
  {
    events == [] || (Enabled(s, events[0]) && Possible(Apply(s, events[0]), events[1..]))
  }

  function After(s: State, events: seq<Event>): State
    requires Possible(s, events)
    decreases events
  {
    if events == [] then s else After(Apply(s, events[0]), events[1..])
  }

  ghost predicate Initial(s: State) {
    s.cache == map[] && s.readers == {} && s.writer == None && forall t <- s.threads :: s.threads[t] == Idle
  }

  // ---- Keys ----

  predicate SlashFree(r: Request) {
    '/' !in r.account && '/' !in r.region
  }

  lemma FirstSlash(a: string, b: string, x: string, y: string)
    requires '/' !in a && '/' !in b
    requires a + "/" + x == b + "/" + y
    ensures a == b && x == y
  {
    var s := a + "/" + x;
    assert s[|a|] == '/' && s[|b|] == '/';
    assert s == b + "/" + y;
    assert |a| == |b|;
    assert a == s[..|a|] && b == s[..|b|];
    assert x == s[|a| + 1..] && y == s[|b| + 1..];
  }

  /** Accounts and regions hold no slash, so keys name requests, whatever the role ARN looks like. */
  lemma KeysIdentifyRequests(r: Request, q: Request)
    requires SlashFree(r) && SlashFree(q)
    ensures Key(r) == Key(q) <==> r == q
  {
    if Key(r) == Key(q) {
      assert Key(r) == r.account + "/" + (r.region + "/" + r.roleARN);
      assert Key(q) == q.account + "/" + (q.region + "/" + q.roleARN);
      FirstSlash(r.account, q.account, r.region + "/" + r.roleARN, q.region + "/" + q.roleARN);
      FirstSlash(r.region, q.region, r.roleARN, q.roleARN);
    }
  }

  /** With a slash in a region, two different requests share a key. */
  lemma SlashCollides()
    ensures var r, q := Request("a", "b/c", "d"), Request("a", "b", "c/d"); r != q && Key(r) == Key(q)
  {
  }

  // ---- Locks: what every step keeps ----

  predicate HoldsReadLock(t: Thread) {
    t.Reading? || t.Looked?
  }

  predicate HoldsWriteLock(t: Thread) {
    t.Writing? || t.Built? || t.Failed? || t.Stored?
  }

  ghost predicate Locked(s: State) {
    && (forall t :: t in s.readers <==> t in s.threads && HoldsReadLock(s.threads[t]))
    && (forall t :: s.writer == Some(t) <==> t in s.threads && HoldsWriteLock(s.threads[t]))
    && (s.writer != None ==> s.readers == {})
  }

  lemma StepKeepsLocked(s: State, e: Event)
    requires Locked(s) && Enabled(s, e)
    ensures Locked(Apply(s, e))
  {
  }

  lemma {:induction false} RunKeepsLocked(s: State, events: seq<Event>)
    requires Locked(s) && Possible(s, events)
    ensures Locked(After(s, events))
    decreases events
  {
    if events != [] {
      StepKeepsLocked(s, events[0]);
      RunKeepsLocked(Apply(s, events[0]), events[1..]);
    }
  }

  /** The cache is never read or written by one thread while another is about to write it. */
  lemma MapAccessIsExclusive(s: State, events: seq<Event>, writer: nat, other: nat, action: Action)
    requires Initial(s) && Possible(s, events)
    requires Enabled(After(s, events), Event(writer, Store))
    requires action.Lookup? || action.Store?
    ensures Enabled(After(s, events), Event(other, action)) ==> other == writer
  {
    RunKeepsLocked(s, events);
    assert After(s, events).writer == Some(writer);
  }

  /** A thread that still has something to do in ManagerFor. */
  predicate Unfinished(t: Thread) {
    !t.Idle? && !t.Returned?
  }

  function NextAction(t: Thread): Action
    requires Unfinished(t)
  {
    match t
    case Called(_) => RLock
    case Reading(_) => Lookup
    case Looked(_, _) => RUnlock
    case Missed(_) => Lock
    case Writing(_) => Build
    case Built(_, _) => Store
    case Failed(_) => Unlock
    case Stored(_, _) => Unlock
  }

  /**
   No interleaving deadlocks: while any call is unfinished, some unfinished call can go on.
   If a thread waits for the write lock the one that can go on is not about to take the read
   lock, so this holds of a lock that lets waiting writers hold off new readers, too.
   */
  lemma NeverDeadlocks(s: State, events: seq<Event>, waiting: nat) returns (mover: nat)
    requires Initial(s) && Possible(s, events)
    requires waiting in After(s, events).threads && Unfinished(After(s, events).threads[waiting])
    ensures var now := After(s, events);
      && mover in now.threads && Unfinished(now.threads[mover])
      && Enabled(now, Event(mover, NextAction(now.threads[mover])))
      && ((exists t :: t in now.threads && now.threads[t].Missed?) ==> !now.threads[mover].Called?)
  {
    RunKeepsLocked(s, events);
    var now := After(s, events);
    if now.writer.Some? {
      mover := now.writer.value;
    } else if now.readers != {} {
      mover :| mover in now.readers;
    } else if exists t :: t in now.threads && now.threads[t].Missed? {
      mover :| mover in now.threads && now.threads[mover].Missed?;
    } else {
      mover := waiting;
      assert !HoldsWriteLock(now.threads[waiting]) by {
        assert now.writer != Some(waiting);
      }
    }
  }

  // ---- Which manager a call comes back with ----

  predicate Serves(rm: Manager, r: Request) {
    rm.account == r.account && rm.region == r.region
  }

  /** The manager a thread holds for its request, if any. */
  function Held(t: Thread): Option<Manager> {
    match t
    case Looked(_, found) => found
    case Built(_, rm) => Some(rm)
    case Stored(_, rm) => Some(rm)
    case Returned(_, result) => result
    case _ => None
  }

  ghost predicate CallsWithin(events: seq<Event>, reqs: iset<Request>) {
    forall e <- events :: e.action.Call? ==> e.action.req in reqs
  }

  /** Requests that share a key want the same account and region. */
  ghost predicate CollisionFree(reqs: iset<Request>) {
    forall r, q | r in reqs && q in reqs && Key(r) == Key(q) :: r.account == q.account && r.region == q.region
  }

  /** A returned manager has the account and region its caller asked for. */
  ghost predicate AllServed(s: State) {
    forall t | t in s.threads && s.threads[t].Returned? && s.threads[t].result.Some? ::
      Serves(s.threads[t].result.value, s.threads[t].req)
  }

  /** No interleaving of calls with these requests, from any number of threads, hands out a wrong manager. */
  ghost predicate AlwaysServed(reqs: iset<Request>) {
    forall s: State, events: seq<Event> | Initial(s) && Possible(s, events) && CallsWithin(events, reqs) ::
      AllServed(After(s, events))
  }

  /** Under every key is a manager built for a request with that key. */
  ghost predicate Filed(cache: map<string, Manager>, reqs: iset<Request>) {
    forall k <- cache :: exists r :: r in reqs && Key(r) == k && Serves(cache[k], r)
  }

  ghost predicate Served(t: Thread, reqs: iset<Request>) {
    t.Idle? || (t.req in reqs && (Held(t).Some? ==> Serves(Held(t).value, t.req)))
  }

  ghost predicate Inv(s: State, reqs: iset<Request>) {
    Filed(s.cache, reqs) && forall t <- s.threads :: Served(s.threads[t], reqs)
  }

  lemma LookupServes(cache: map<string, Manager>, r: Request, reqs: iset<Request>)
    requires Filed(cache, reqs) && r in reqs && CollisionFree(reqs)
    ensures Find(cache, Key(r)).Some? ==> Serves(Find(cache, Key(r)).value, r)
  {
    if Key(r) in cache {
      var q :| q in reqs && Key(q) == Key(r) && Serves(cache[Key(r)], q);
    }
  }

  lemma StoreKeepsFiled(cache: map<string, Manager>, r: Request, rm: Manager, reqs: iset<Request>)
    requires Filed(cache, reqs) && r in reqs && Serves(rm, r)
    ensures Filed(cache[Key(r) := rm], reqs)
  {
  }

  lemma StepKeepsInv(s: State, e: Event, reqs: iset<Request>)
    requires Inv(s, reqs) && Enabled(s, e) && CollisionFree(reqs)
    requires e.action.Call? ==> e.action.req in reqs
    ensures Inv(Apply(s, e), reqs)
  {
    var at := s.threads[e.thread];
    assert Served(at, reqs);
    if e.action.Lookup? {
      LookupServes(s.cache, at.req, reqs);
    } else if e.action.Store? {
      StoreKeepsFiled(s.cache, at.req, at.rm, reqs);
    }
  }

  lemma {:induction false} RunKeepsInv(s: State, events: seq<Event>, reqs: iset<Request>)
    requires Inv(s, reqs) && Possible(s, events) && CallsWithin(events, reqs) && CollisionFree(reqs)
    ensures Inv(After(s, events), reqs)
    decreases events
  {
    if events != [] {
      StepKeepsInv(s, events[0], reqs);
      RunKeepsInv(Apply(s, events[0]), events[1..], reqs);
    }
  }

  lemma CollisionFreeServes(reqs: iset<Request>)
    requires CollisionFree(reqs)
    ensures AlwaysServed(reqs)
  {
    forall s: State, events: seq<Event> | Initial(s) && Possible(s, events) && CallsWithin(events, reqs)
      ensures AllServed(After(s, events))
    {
      RunKeepsInv(s, events, reqs);
      assert forall t <- After(s, events).threads :: Served(After(s, events).threads[t], reqs);
    }
  }

  /**
   The exact condition: over every interleaving each caller gets a manager for its account
   and region if and only if requests with one key want one account and region.
   */
  lemma AlwaysServedIff(reqs: iset<Request>)
    ensures AlwaysServed(reqs) <==> CollisionFree(reqs)
  {
    if CollisionFree(reqs) {
      CollisionFreeServes(reqs);
    } else {
      var r, q :| r in reqs && q in reqs && Key(r) == Key(q) && !(r.account == q.account && r.region == q.region);
      var s, events := CollisionServesWrong(r, q);
      assert !AllServed(After(s, events));
    }
  }

  /** Requests without a slash in account or region are such a set, whatever their role ARNs. */
  lemma ReturnedManagerServes(s: State, events: seq<Event>)
    requires Initial(s) && Possible(s, events)
    requires forall e <- events :: e.action.Call? ==> SlashFree(e.action.req)
    ensures AllServed(After(s, events))
  {
    var reqs := iset r: Request | SlashFree(r);
    forall r, q | r in reqs && q in reqs && Key(r) == Key(q) ensures r == q {
      KeysIdentifyRequests(r, q);
    }
    AlwaysServedIff(reqs);
  }

  // ---- Keys and managers over a run ----

  lemma {:induction false} RunsCompose(s: State, first: seq<Event>, second: seq<Event>)
    requires Possible(s, first + second)
    ensures Possible(s, first) && Possible(After(s, first), second)
    ensures After(s, first + second) == After(After(s, first), second)
    decreases first
  {
    if first == [] {
      assert first + second == second;
    } else {
      assert (first + second)[1..] == first[1..] + second;
      RunsCompose(Apply(s, first[0]), first[1..], second);
    }
  }

  /** A key once stored is never lost. */
  lemma {:induction false} KeysAreKept(s: State, events: seq<Event>)
    requires Possible(s, events)
    ensures s.cache.Keys <= After(s, events).cache.Keys
    decreases events
  {
    if events != [] {
      KeysAreKept(Apply(s, events[0]), events[1..]);
    }
  }

  /** A thread that has missed on a key and has not stored yet. */
  predicate Missing(t: Thread, key: string) {
    && !t.Idle? && Key(t.req) == key
    && ((t.Looked? && t.found.None?) || t.Missed? || t.Writing? || t.Built?)
  }

  ghost function InFlight(s: State, key: string): set<nat> {
    set t | t in s.threads && Missing(s.threads[t], key)
  }

  /** After its first store no thread misses on a key any more: the misses in flight only drain. */
  lemma {:induction false} MissesOnlyDrain(s: State, events: seq<Event>, key: string)
    requires Possible(s, events) && key in s.cache
    ensures InFlight(After(s, events), key) <= InFlight(s, key)
    decreases events
  {
    if events != [] {
      MissesOnlyDrain(Apply(s, events[0]), events[1..], key);
    }
  }

  ghost predicate Settled(s: State, key: string, rm: Manager) {
    key in s.cache && s.cache[key] == rm && InFlight(s, key) == {}
  }

  /** A thread that cannot come back from this key with anything but this manager. */
  predicate Bound(t: Thread, key: string, rm: Manager) {
    t.Idle? || Key(t.req) != key || t.Called? || t.Reading? ||
    ((t.Looked? || t.Returned?) && Held(t) == Some(rm))
  }

  lemma StepKeepsSettled(s: State, e: Event, key: string, rm: Manager)
    requires Enabled(s, e) && Settled(s, key, rm)
    ensures Settled(Apply(s, e), key, rm)
    ensures forall t <- s.threads :: Bound(s.threads[t], key, rm) ==> Bound(Apply(s, e).threads[t], key, rm)
    ensures e.action.Call? ==> Bound(Apply(s, e).threads[e.thread], key, rm)
  {
    assert e.thread !in InFlight(s, key);
    assert InFlight(Apply(s, e), key) == {};
  }

  lemma {:induction false} RunKeepsSettled(s: State, events: seq<Event>, key: string, rm: Manager)
    requires Possible(s, events) && Settled(s, key, rm)
    ensures Settled(After(s, events), key, rm)
    ensures s.threads.Keys == After(s, events).threads.Keys
    ensures forall t <- s.threads :: Bound(s.threads[t], key, rm) ==> Bound(After(s, events).threads[t], key, rm)
    decreases events
  {
    if events != [] {
      StepKeepsSettled(s, events[0], key, rm);
      RunKeepsSettled(Apply(s, events[0]), events[1..], key, rm);
    }
  }

  /**
   Once a key is stored and its misses have drained, its manager never changes, and a call
   for it that starts later returns that very manager, whatever else runs in between.
   */
  lemma DrainedKeyIsStable(s: State, before: seq<Event>, call: Event, after: seq<Event>, key: string)
    requires key in s.cache && InFlight(s, key) == {}
    requires call.action.Call? && Possible(s, before + [call] + after)
    ensures var end := After(s, before + [call] + after);
      && key in end.cache && end.cache[key] == s.cache[key]
      && call.thread in end.threads
      && var t := end.threads[call.thread];
         t.Returned? && Key(t.req) == key ==> t.result == Some(s.cache[key])
  {
    var rm := s.cache[key];
    RunsCompose(s, before + [call], after);
    RunsCompose(s, before, [call]);
    var mid := After(s, before);
    RunKeepsSettled(s, before, key, rm);
    StepKeepsSettled(mid, call, key, rm);
    assert [call][1..] == [];
    RunKeepsSettled(Apply(mid, call), after, key, rm);
  }

  lemma {:induction false} RunsChain(s: State, first: seq<Event>, second: seq<Event>)
    requires Possible(s, first) && Possible(After(s, first), second)
    ensures Possible(s, first + second)
    ensures After(s, first + second) == After(After(s, first), second)
    decreases first
  {
    if first == [] {
      assert first + second == second;
    } else {
      assert (first + second)[1..] == first[1..] + second;
      RunsChain(Apply(s, first[0]), first[1..], second);
    }
  }

  lemma FourSteps(s: State, e0: Event, e1: Event, e2: Event, e3: Event)
    requires Enabled(s, e0)
    requires Enabled(Apply(s, e0), e1)
    requires Enabled(Apply(Apply(s, e0), e1), e2)
    requires Enabled(Apply(Apply(Apply(s, e0), e1), e2), e3)
    ensures Possible(s, [e0, e1, e2, e3])
    ensures After(s, [e0, e1, e2, e3]) == Apply(Apply(Apply(Apply(s, e0), e1), e2), e3)
  {
    var s1, s2, s3 := Apply(s, e0), Apply(Apply(s, e0), e1), Apply(Apply(Apply(s, e0), e1), e2);
    assert [e0, e1, e2, e3][1..] == [e1, e2, e3] && [e1, e2, e3][1..] == [e2, e3];
    assert [e2, e3][1..] == [e3] && [e3][1..] == [];
    assert Possible(s3, [e3]) && After(s3, [e3]) == Apply(s3, e3);
    assert Possible(s2, [e2, e3]) && After(s2, [e2, e3]) == Apply(s3, e3);
    assert Possible(s1, [e1, e2, e3]) && After(s1, [e1, e2, e3]) == Apply(s3, e3);
  }

  // ---- Draining is exactly what stability takes ----

  /** A manager that has been built and not stored is under no key. */
  ghost predicate FreshIds(s: State) {
    && (forall k <- s.cache :: s.cache[k].id < s.nextId)
    && (forall t <- s.threads | s.threads[t].Built? ::
          s.threads[t].rm.id < s.nextId && forall k <- s.cache :: s.cache[k].id != s.threads[t].rm.id)
  }

  lemma StepKeepsIds(s: State, e: Event)
    requires Locked(s) && FreshIds(s) && Enabled(s, e)
    ensures FreshIds(Apply(s, e))
  {
    if e.action.Store? {
      assert s.writer == Some(e.thread);
    }
  }

  lemma {:induction false} RunKeepsIds(s: State, events: seq<Event>)
    requires Locked(s) && FreshIds(s) && Possible(s, events)
    ensures FreshIds(After(s, events))
    decreases events
  {
    if events != [] {
      StepKeepsIds(s, events[0]);
      StepKeepsLocked(s, events[0]);
      RunKeepsIds(Apply(s, events[0]), events[1..]);
    }
  }

  lemma OneStep(s: State, e: Event)
    requires Enabled(s, e)
    ensures Possible(s, [e]) && After(s, [e]) == Apply(s, e)
  {
    assert [e][1..] == [];
  }

  lemma TwoSteps(s: State, e: Event, f: Event)
    requires Enabled(s, e) && Enabled(Apply(s, e), f)
    ensures Possible(s, [e, f]) && After(s, [e, f]) == Apply(Apply(s, e), f)
  {
    assert [e, f][1..] == [f];
    OneStep(Apply(s, e), f);
  }

  /** The thread that holds the write lock can give it up; unless it is to store under the key, the entry stays. */
  lemma WriterFinishes(s: State, w: nat, key: string) returns (events: seq<Event>)
    requires Locked(s) && s.writer == Some(w) && key in s.cache && w !in InFlight(s, key)
    ensures Possible(s, events)
    ensures var end := After(s, events);
      && end.writer == None && end.readers == {}
      && key in end.cache && end.cache[key] == s.cache[key]
      && end.threads.Keys == s.threads.Keys
      && forall t <- s.threads :: t != w ==> end.threads[t] == s.threads[t]
  {
    var unlock := Event(w, Unlock);
    if s.threads[w].Writing? {
      TwoSteps(s, Event(w, BuildFails), unlock);
      events := [Event(w, BuildFails), unlock];
    } else if s.threads[w].Built? {
      TwoSteps(s, Event(w, Store), unlock);
      events := [Event(w, Store), unlock];
    } else {
      OneStep(s, unlock);
      events := [unlock];
    }
  }

  /** A reader can give up its lock. */
  lemma ReaderFinishes(s: State, r: nat) returns (events: seq<Event>)
    requires Locked(s) && r in s.readers
    ensures Possible(s, events)
    ensures var end := After(s, events);
      && end.writer == None && end.readers == s.readers - {r} && end.cache == s.cache
      && end.threads.Keys == s.threads.Keys
      && (forall t <- s.threads :: t != r ==> end.threads[t] == s.threads[t])
      && (s.threads[r].Looked? && s.threads[r].found.None? ==> end.threads[r] == Missed(s.threads[r].req))
  {
    if s.threads[r].Looked? {
      events := [Event(r, RUnlock)];
      OneStep(s, events[0]);
    } else {
      events := [Event(r, Lookup), Event(r, RUnlock)];
      TwoSteps(s, events[0], events[1]);
      assert Apply(s, events[0]).writer == None;
    }
  }

  /** All readers can give up their locks; a miss among them is then ready to take the write lock. */
  lemma {:induction false} ReadersFinish(s: State, key: string) returns (events: seq<Event>)
    requires Locked(s) && s.writer == None
    ensures Possible(s, events)
    ensures var end := After(s, events);
      && end.writer == None && end.readers == {} && end.cache == s.cache
      && end.threads.Keys == s.threads.Keys
      && forall t <- InFlight(s, key) :: end.threads[t] == Missed(s.threads[t].req)
    decreases |s.readers|
  {
    if s.readers == {} {
      events := [];
    } else {
      var r :| r in s.readers;
      var first := ReaderFinishes(s, r);
      var mid := After(s, first);
      RunKeepsLocked(s, first);
      var second := ReadersFinish(mid, key);
      RunsChain(s, first, second);
      events := first + second;
      forall t <- InFlight(s, key) ensures After(s, events).threads[t] == Missed(s.threads[t].req) {
        assert t in InFlight(mid, key) && mid.threads[t].req == s.threads[t].req;
      }
    }
  }

  /** The holder of the write lock overwrites the entry it has missed. */
  lemma WriterOverwrites(s: State, w: nat, key: string) returns (events: seq<Event>)
    requires Locked(s) && FreshIds(s) && key in s.cache && w in InFlight(s, key) && s.writer == Some(w)
    ensures Possible(s, events)
    ensures key in After(s, events).cache && After(s, events).cache[key] != s.cache[key]
  {
    if s.threads[w].Built? {
      events := [Event(w, Store)];
      OneStep(s, events[0]);
    } else {
      events := [Event(w, Build), Event(w, Store)];
      TwoSteps(s, events[0], events[1]);
    }
  }

  /** A miss that finds the lock free takes it and overwrites the entry. */
  lemma MissOverwrites(s: State, t: nat, key: string) returns (events: seq<Event>)
    requires Locked(s) && FreshIds(s) && key in s.cache && s.writer == None && s.readers == {}
    requires t in s.threads && s.threads[t].Missed? && Key(s.threads[t].req) == key
    ensures Possible(s, events)
    ensures key in After(s, events).cache && After(s, events).cache[key] != s.cache[key]
  {
    var lock := Event(t, Lock);
    OneStep(s, lock);
    StepKeepsLocked(s, lock);
    StepKeepsIds(s, lock);
    var locked := Apply(s, lock);
    assert t in InFlight(locked, key);
    var rest := WriterOverwrites(locked, t, key);
    RunsChain(s, [lock], rest);
    events := [lock] + rest;
  }

  /** While a miss is in flight, some continuation lets it through to the cache. */
  lemma InFlightOverwrites(s: State, key: string) returns (events: seq<Event>)
    requires Locked(s) && FreshIds(s) && key in s.cache && InFlight(s, key) != {}
    ensures Possible(s, events)
    ensures key in After(s, events).cache && After(s, events).cache[key] != s.cache[key]
  {
    if s.writer.Some? && s.writer.value in InFlight(s, key) {
      events := WriterOverwrites(s, s.writer.value, key);
    } else {
      var t :| t in InFlight(s, key);
      var first := [];
      if s.writer.Some? {
        first := WriterFinishes(s, s.writer.value, key);
      }
      var free := After(s, first);
      RunKeepsLocked(s, first);
      assert t in InFlight(free, key) && free.threads[t] == s.threads[t];
      var second := ReadersFinish(free, key);
      var ready := After(free, second);
      RunsChain(s, first, second);
      RunKeepsLocked(s, first + second);
      RunKeepsIds(s, first + second);
      var third := MissOverwrites(ready, t, key);
      RunsChain(s, first + second, third);
      events := first + second + third;
    }
  }

  /** Whatever happens next, the key keeps its manager. */
  ghost predicate Stable(s: State, key: string)
    requires key in s.cache
  {
    forall events | Possible(s, events) ::
      key in After(s, events).cache && After(s, events).cache[key] == s.cache[key]
  }

  /** In every reachable state, a stored key keeps its manager for good if and only if no miss on it is in flight. */
  lemma StableIffDrained(start: State, before: seq<Event>, key: string)
    requires Initial(start) && Possible(start, before)
    requires key in After(start, before).cache
    ensures Stable(After(start, before), key) <==> InFlight(After(start, before), key) == {}
  {
    var s := After(start, before);
    RunKeepsLocked(start, before);
    RunKeepsIds(start, before);
    if InFlight(s, key) == {} {
      forall events | Possible(s, events)
        ensures key in After(s, events).cache && After(s, events).cache[key] == s.cache[key]
      {
        RunKeepsSettled(s, events, key, s.cache[key]);
      }
    } else {
      var events := InFlightOverwrites(s, key);
      assert Possible(s, events);
    }
  }

  // ---- Calls that run alone, and calls that race ----

  function LookupRun(t: nat, r: Request): seq<Event> {
    [Event(t, Call(r)), Event(t, RLock), Event(t, Lookup), Event(t, RUnlock)]
  }

  function InsertRun(t: nat): seq<Event> {
    [Event(t, Lock), Event(t, Build), Event(t, Store), Event(t, Unlock)]
  }

  lemma LookupAlone(s: State, t: nat, r: Request)
    requires t in s.threads && s.threads[t].Idle? && s.writer == None && s.readers == {}
    ensures Possible(s, LookupRun(t, r))
    ensures var found := Find(s.cache, Key(r));
      After(s, LookupRun(t, r)) ==
        s.(threads := s.threads[t := if found.Some? then Returned(r, found) else Missed(r)])
  {
    var s1 := Apply(s, Event(t, Call(r)));
    var s2 := Apply(s1, Event(t, RLock));
    var s3 := Apply(s2, Event(t, Lookup));
    assert Enabled(s3, Event(t, RUnlock));
    FourSteps(s, Event(t, Call(r)), Event(t, RLock), Event(t, Lookup), Event(t, RUnlock));
    assert Apply(s3, Event(t, RUnlock)).readers == {};
  }

  lemma InsertAlone(s: State, t: nat)
    requires t in s.threads && s.threads[t].Missed? && s.writer == None && s.readers == {}
    ensures Possible(s, InsertRun(t))
    ensures var r := s.threads[t].req; var rm := Manager(s.nextId, r.account, r.region);
      After(s, InsertRun(t)) ==
        State(s.cache[Key(r) := rm], {}, None, s.threads[t := Returned(r, Some(rm))], s.nextId + 1)
  {
    var s1 := Apply(s, Event(t, Lock));
    var s2 := Apply(s1, Event(t, Build));
    var s3 := Apply(s2, Event(t, Store));
    assert Enabled(s3, Event(t, Unlock));
    FourSteps(s, Event(t, Lock), Event(t, Build), Event(t, Store), Event(t, Unlock));
  }

  /**
   Callers do not always share a manager: two threads that both miss come back with
   different ones, for every request.
   */
  lemma RacingMissesDiffer(r: Request) returns (s: State, events: seq<Event>)
    ensures Initial(s) && Possible(s, events)
    ensures var end := After(s, events);
      && end.threads.Keys == {0, 1}
      && end.threads[0].Returned? && end.threads[1].Returned?
      && end.threads[0].req == end.threads[1].req == r
      && end.threads[0].result.Some? && end.threads[1].result.Some?
      && end.threads[0].result != end.threads[1].result
  {
    s := State(map[], {}, None, map[0 := Idle, 1 := Idle], 0);
    LookupAlone(s, 0, r);
    var s1 := After(s, LookupRun(0, r));
    LookupAlone(s1, 1, r);
    var s2 := After(s1, LookupRun(1, r));
    RunsChain(s, LookupRun(0, r), LookupRun(1, r));
    InsertAlone(s2, 0);
    var s3 := After(s2, InsertRun(0));
    InsertAlone(s3, 1);
    RunsChain(s2, InsertRun(0), InsertRun(1));
    events := (LookupRun(0, r) + LookupRun(1, r)) + (InsertRun(0) + InsertRun(1));
    RunsChain(s, LookupRun(0, r) + LookupRun(1, r), InsertRun(0) + InsertRun(1));
  }

  /** Two requests with one key but another account or region: the second caller gets the first one's manager. */
  lemma CollisionServesWrong(r: Request, q: Request) returns (s: State, events: seq<Event>)
    requires Key(r) == Key(q) && !(r.account == q.account && r.region == q.region)
    ensures Initial(s) && Possible(s, events)
    ensures forall e <- events :: e.action.Call? ==> e.action.req == r || e.action.req == q
    ensures var end := After(s, events);
      && 1 in end.threads && end.threads[1].Returned? && end.threads[1].result.Some?
      && !Serves(end.threads[1].result.value, end.threads[1].req)
  {
    s := State(map[], {}, None, map[0 := Idle, 1 := Idle], 0);
    LookupAlone(s, 0, r);
    var s1 := After(s, LookupRun(0, r));
    InsertAlone(s1, 0);
    var s2 := After(s1, InsertRun(0));
    RunsChain(s, LookupRun(0, r), InsertRun(0));
    LookupAlone(s2, 1, q);
    events := (LookupRun(0, r) + InsertRun(0)) + LookupRun(1, q);
    RunsChain(s, LookupRun(0, r) + InsertRun(0), LookupRun(1, q));
  }

  /** A set of requests from which a call can be handed another region's manager. */
  lemma SlashServesWrongRegion()
    ensures !AlwaysServed(iset{Request("a", "b/c", "d"), Request("a", "b", "c/d")})
  {
    var r, q := Request("a", "b/c", "d"), Request("a", "b", "c/d");
    SlashCollides();
    var reqs := iset{r, q};
    assert r in reqs && q in reqs && r.region != q.region;
    AlwaysServedIff(reqs);
  }

  // ---- The factory as the single-threaded caller sees it ----

  class ResourceManager {
    const account: string
    const region: string

    constructor (account: string, region: string)
      ensures this.account == account && this.region == region
    {
      this.account := account;
      this.region := region;
    }
  }

  class ResourceManagerFactory {
    var rmCache: map<string, ResourceManager>

    constructor ()
      ensures rmCache == map[]
    {
      rmCache := map[];
    }

    method ManagerFor(r: Request, buildFails: bool) returns (rm: ResourceManager?)
      modifies this
      ensures Key(r) in old(rmCache) ==> rm == old(rmCache)[Key(r)] && rmCache == old(rmCache)
      ensures Key(r) !in old(rmCache) && buildFails ==> rm == null && rmCache == old(rmCache)
      ensures Key(r) !in old(rmCache) && !buildFails ==>
        && fresh(rm) && rm.account == r.account && rm.region == r.region
        && rmCache == old(rmCache)[Key(r) := rm]
    {
      var rmId := Key(r);
      if rmId in rmCache {
        return rmCache[rmId];
      }
      if buildFails {
        return null;
      }
      rm := new ResourceManager(r.account, r.region);
      rmCache := rmCache[rmId := rm];
    }
  }
}
