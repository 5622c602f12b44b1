// Every interleaving of open calls, lookups, counts, shutdowns and process
// deaths over one tunnel registry.
module TunnelRuns {
  import opened Tunnels

  // Where one open call stands between its locked steps.
  datatype Opening =
    | Wanting(island: string, agent: string)
    | Missed(island: string, agent: string)
    | PortKnown(island: string, agent: string, port: int)
    | Starting(fwd: Forward)  // the process runs, the gateway is awaited
    | Started(fwd: Forward)   // not yet registered
    | Returned(fwd: Forward)
    | Refused                 // failed before a process existed
    | Abandoned(fwd: Forward) // failed after, and closed
  {
    predicate InFlight() {
      Starting? || Started?
    }
  }

  datatype World = World(reg: Registry, spawned: nat, put: set<Forward>, calls: map<nat, Opening>)

  const EMPTY := World(Registry(map[], map[], {}), 0, {}, map[])

  datatype Step =
    | Begin(call: nat, island: string, agent: string)
    | LookUp(call: nat, ready: bool)
    | AskPort(call: nat)
    | Refuse(call: nat)
    | Spawn(call: nat, port: int, url: string)
    | Abandon(call: nat)
    | Serve(call: nat)
    | Register(call: nat)
    | OtherGet(key: string, ready: bool)
    | CountLive
    | CloseEverything
    | Die(pid: nat)

  predicate Enabled(w: World, s: Step) {
    match s
    case Begin(c, _, _) => c !in w.calls
    case LookUp(c, _) => c in w.calls && w.calls[c].Wanting?
    case AskPort(c) => c in w.calls && w.calls[c].Missed?
    case Refuse(c) => c in w.calls && w.calls[c].PortKnown?
    case Spawn(c, _, _) => c in w.calls && w.calls[c].PortKnown?
    case Abandon(c) => c in w.calls && w.calls[c].Starting?
    case Serve(c) => c in w.calls && w.calls[c].Starting?
    case Register(c) => c in w.calls && w.calls[c].Started?
    case _ => true
  }

  function Next(w: World, s: Step): World
    requires Enabled(w, s)
  {
    match s
    case Begin(c, i, a) => w.(calls := w.calls[c := Wanting(i, a)])
    case LookUp(c, ready) =>
      var o := w.calls[c];
      var g := Got(w.reg, TunnelKey(o.island, o.agent), ready);
      w.(reg := g.0, calls := w.calls[c := if g.1.Some? then Returned(g.1.value) else Missed(o.island, o.agent)])
    case AskPort(c) =>
      var o := w.calls[c];
      w.(calls := w.calls[c := PortKnown(o.island, o.agent, PortFor(w.reg, TunnelKey(o.island, o.agent)))])
    case Refuse(c) => w.(calls := w.calls[c := Refused])
    case Spawn(c, port, url) =>
      var f := Forward(w.calls[c].island, w.calls[c].agent, port, w.spawned, url);
      w.(reg := w.reg.(live := w.reg.live + {f.pid}), spawned := w.spawned + 1, calls := w.calls[c := Starting(f)])
    case Abandon(c) =>
      var f := w.calls[c].fwd;
      w.(reg := w.reg.(live := w.reg.live - {f.pid}), calls := w.calls[c := Abandoned(f)])
    case Serve(c) => w.(calls := w.calls[c := Started(w.calls[c].fwd)])
    case Register(c) =>
      var f := w.calls[c].fwd;
      w.(reg := PutIn(w.reg, f), put := w.put + {f}, calls := w.calls[c := Returned(f)])
    case OtherGet(key, ready) => w.(reg := Got(w.reg, key, ready).0)
    case CountLive => w.(reg := Reaped(w.reg))
    case CloseEverything => w.(reg := ClosedAll(w.reg))
    case Die(pid) => w.(reg := w.reg.(live := w.reg.live - {pid}))
  }

  // ------------------------------------------------------------- the invariant

  // Entries sit under their own key, with that forward's port as the last one.
  ghost predicate Filed(w: World) {
    forall k :: k in w.reg.tunnels ==>
      var f := w.reg.tunnels[k];
      f in w.put && f.Key() == k && k in w.reg.lastPort && w.reg.lastPort[k] == f.port
  }

  // A forward once registered and still running is the one its agent's key names.
  ghost predicate OneEach(w: World) {
    forall f :: f in w.put && f.pid in w.reg.live ==> f.Key() in w.reg.tunnels && w.reg.tunnels[f.Key()] == f
  }

  // Process numbers tell forwards apart, in the registry and in flight.
  ghost predicate Numbered(w: World) {
    && (forall p :: p in w.reg.live ==> p < w.spawned)
    && (forall f :: f in w.put ==> f.pid < w.spawned)
    && (forall f, g :: f in w.put && g in w.put && f.pid == g.pid ==> f == g)
    && (forall c :: c in w.calls && w.calls[c].InFlight() ==>
          w.calls[c].fwd.pid < w.spawned && w.calls[c].fwd !in w.put)
    && (forall c, f :: c in w.calls && w.calls[c].InFlight() && f in w.put ==> w.calls[c].fwd.pid != f.pid)
    && (forall c, d :: c in w.calls && d in w.calls && c != d && w.calls[c].InFlight() && w.calls[d].InFlight()
          ==> w.calls[c].fwd.pid != w.calls[d].fwd.pid)
  }

  // No process is forgotten: each one running is registered or belongs to a
  // call still in flight.
  ghost predicate Owned(w: World) {
    forall p :: p in w.reg.live ==> p in w.reg.Registered() || p in InFlightPids(w)
  }

  ghost function InFlightPids(w: World): set<nat> {
    set c | c in w.calls && w.calls[c].InFlight() :: w.calls[c].fwd.pid
  }

  // A call that failed has left nothing running; one that returned returned a
  // registered forward.
  ghost predicate Settled(w: World) {
    forall c :: c in w.calls ==>
      && (w.calls[c].Abandoned? ==> w.calls[c].fwd.pid < w.spawned && w.calls[c].fwd.pid !in w.reg.live)
      && (w.calls[c].Returned? ==> w.calls[c].fwd in w.put)
  }

  ghost predicate Inv(w: World) {
    Filed(w) && OneEach(w) && Numbered(w) && Owned(w) && Settled(w)
  }

  lemma GetKeeps(w: World, key: string, ready: bool)
    requires Inv(w)
    ensures Inv(w.(reg := Got(w.reg, key, ready).0))
    ensures Got(w.reg, key, ready).1.Some? ==> Got(w.reg, key, ready).1.value in w.put
  {
    LessKeeps(w, Got(w.reg, key, ready).0);
  }

  // Who answers for process p.
  ghost predicate OwnedBy(w: World, p: nat) {
    (exists k :: k in w.reg.tunnels && w.reg.tunnels[k].pid == p) || FlownBy(w, p)
  }

  ghost predicate FlownBy(w: World, p: nat) {
    exists c :: c in w.calls && w.calls[c].InFlight() && w.calls[c].fwd.pid == p
  }

  lemma OwnedMeans(w: World)
    ensures Owned(w) <==> forall p :: p in w.reg.live ==> OwnedBy(w, p)
  {
    forall p | p in w.reg.live ensures OwnedBy(w, p) <==> p in w.reg.Registered() || p in InFlightPids(w) {
    }
  }

  lemma PutKeeps(w: World, c: nat)
    requires Inv(w) && Enabled(w, Register(c))
    ensures Inv(Next(w, Register(c)))
  {
    PutOwned(w, c);
    PutNumbered(w, c);
    PutFiled(w, c);
  }

  lemma PutFiled(w: World, c: nat)
    requires Inv(w) && Enabled(w, Register(c))
    ensures var v := Next(w, Register(c)); Filed(v) && OneEach(v) && Settled(v)
  {
    var v := Next(w, Register(c));
    var f := w.calls[c].fwd;
    forall g | g in v.put && g.pid in v.reg.live ensures g.Key() in v.reg.tunnels && v.reg.tunnels[g.Key()] == g {
    }
  }

  lemma PutNumbered(w: World, c: nat)
    requires Inv(w) && Enabled(w, Register(c))
    ensures Numbered(Next(w, Register(c)))
  {
    hide Filed, OneEach, Owned, Settled;
    var v, f := Next(w, Register(c)), w.calls[c].fwd;
    assert v.put == w.put + {f} && v.calls == w.calls[c := Returned(f)] && v.reg.live <= w.reg.live;
    forall d | d in v.calls && v.calls[d].InFlight() ensures d != c && d in w.calls && w.calls[d] == v.calls[d] {
    }
  }

  lemma PutOwned(w: World, c: nat)
    requires Inv(w) && Enabled(w, Register(c))
    ensures Owned(Next(w, Register(c)))
  {
    var v, f := Next(w, Register(c)), w.calls[c].fwd;
    var k := f.Key();
    OwnedMeans(w);
    OwnedMeans(v);
    assert k in v.reg.tunnels && v.reg.tunnels[k] == f;
    forall p | p in v.reg.live ensures OwnedBy(v, p) {
      if j :| j in w.reg.tunnels && w.reg.tunnels[j].pid == p {
        assert j != k ==> j in v.reg.tunnels && v.reg.tunnels[j].pid == p;
      } else {
        FlownMoves(w, v, c, p);
      }
    }
  }

  // Calls other than c keep the processes they hold.
  lemma FlownMoves(w: World, v: World, c: nat, p: nat)
    requires FlownBy(w, p) && forall d :: d in w.calls && d != c ==> d in v.calls && v.calls[d] == w.calls[d]
    ensures FlownBy(v, p) || (c in w.calls && w.calls[c].InFlight() && w.calls[c].fwd.pid == p)
  {
    var d :| d in w.calls && w.calls[d].InFlight() && w.calls[d].fwd.pid == p;
    assert d != c ==> d in v.calls && v.calls[d].InFlight() && v.calls[d].fwd.pid == p;
  }

  // A call may move on, so long as it takes or drops no process.
  ghost predicate MayMove(w: World, c: nat, o: Opening) {
    && (c in w.calls && w.calls[c].InFlight() ==> o.InFlight() && o.fwd == w.calls[c].fwd)
    && (o.InFlight() ==> c in w.calls && w.calls[c].InFlight())
    && !o.Abandoned? && (o.Returned? ==> o.fwd in w.put)
  }

  lemma CallMoves(w: World, c: nat, o: Opening)
    requires Inv(w) && MayMove(w, c, o)
    ensures Inv(w.(calls := w.calls[c := o]))
  {
    CallNumbered(w, c, o);
    CallOwned(w, c, o);
  }

  lemma CallNumbered(w: World, c: nat, o: Opening)
    requires Inv(w) && MayMove(w, c, o)
    ensures Numbered(w.(calls := w.calls[c := o]))
  {
    var v := w.(calls := w.calls[c := o]);
    forall d | d in v.calls && v.calls[d].InFlight()
      ensures d in w.calls && w.calls[d].InFlight() && w.calls[d].fwd == v.calls[d].fwd
    {
    }
  }

  lemma CallOwned(w: World, c: nat, o: Opening)
    requires Inv(w) && MayMove(w, c, o)
    ensures Owned(w.(calls := w.calls[c := o]))
  {
    var v := w.(calls := w.calls[c := o]);
    OwnedMeans(w);
    OwnedMeans(v);
    forall p | p in v.reg.live ensures OwnedBy(v, p) {
      if FlownBy(w, p) {
        FlownMoves(w, v, c, p);
        assert c in v.calls && v.calls[c] == o;
      }
    }
  }

  lemma SpawnKeeps(w: World, c: nat, port: int, url: string)
    requires Inv(w) && Enabled(w, Spawn(c, port, url))
    ensures Inv(Next(w, Spawn(c, port, url)))
  {
    hide Next, Filed, OneEach, Owned, Numbered, Settled;
    SpawnOwned(w, c, port, url);
    SpawnNumbered(w, c, port, url);
    SpawnFiled(w, c, port, url);
  }

  lemma SpawnFiled(w: World, c: nat, port: int, url: string)
    requires Inv(w) && Enabled(w, Spawn(c, port, url))
    ensures var v := Next(w, Spawn(c, port, url)); Filed(v) && OneEach(v) && Settled(v)
  {
    hide Owned;
    var v := Next(w, Spawn(c, port, url));
    assert v.reg.live == w.reg.live + {w.spawned} && v.reg.tunnels == w.reg.tunnels && v.put == w.put;
  }

  lemma SpawnNumbered(w: World, c: nat, port: int, url: string)
    requires Inv(w) && Enabled(w, Spawn(c, port, url))
    ensures Numbered(Next(w, Spawn(c, port, url)))
  {
    var v := Next(w, Spawn(c, port, url));
    forall d | d in v.calls && v.calls[d].InFlight() && d != c ensures d in w.calls && w.calls[d] == v.calls[d] {
    }
    assert v.put == w.put && v.spawned == w.spawned + 1 && v.reg.live == w.reg.live + {w.spawned};
  }

  lemma SpawnOwned(w: World, c: nat, port: int, url: string)
    requires Inv(w) && Enabled(w, Spawn(c, port, url))
    ensures Owned(Next(w, Spawn(c, port, url)))
  {
    var v := Next(w, Spawn(c, port, url));
    OwnedMeans(w);
    OwnedMeans(v);
    assert c in v.calls && v.calls[c].InFlight() && v.calls[c].fwd.pid == w.spawned;
    forall p | p in v.reg.live ensures OwnedBy(v, p) {
      if p != w.spawned && FlownBy(w, p) {
        FlownMoves(w, v, c, p);
      }
    }
  }

  lemma AbandonKeeps(w: World, c: nat)
    requires Inv(w) && Enabled(w, Abandon(c))
    ensures Inv(Next(w, Abandon(c)))
  {
    var v := Next(w, Abandon(c));
    OwnedMeans(w);
    OwnedMeans(v);
    forall p | p in v.reg.live ensures OwnedBy(v, p) {
      if FlownBy(w, p) {
        FlownMoves(w, v, c, p);
      }
    }
  }

  // Steps that take entries or processes away.
  lemma LessKeeps(w: World, r: Registry)
    requires Inv(w) && r.live <= w.reg.live && r.lastPort == w.reg.lastPort
    requires forall k :: k in r.tunnels ==> k in w.reg.tunnels && r.tunnels[k] == w.reg.tunnels[k]
    requires forall k :: k in w.reg.tunnels && w.reg.tunnels[k].pid in r.live ==> k in r.tunnels
    ensures Inv(w.(reg := r))
  {
    forall p | p in r.live ensures p in r.Registered() || p in InFlightPids(w) {
      if p in w.reg.Registered() {
        var k :| k in w.reg.tunnels && w.reg.tunnels[k].pid == p;
        assert k in r.tunnels && r.tunnels[k].pid == p;
      }
    }
  }

  lemma LookUpKeeps(w: World, c: nat, ready: bool)
    requires Inv(w) && Enabled(w, LookUp(c, ready))
    ensures Inv(Next(w, LookUp(c, ready)))
  {
    var o := w.calls[c];
    var g := Got(w.reg, TunnelKey(o.island, o.agent), ready);
    GetKeeps(w, TunnelKey(o.island, o.agent), ready);
    CallMoves(w.(reg := g.0), c, if g.1.Some? then Returned(g.1.value) else Missed(o.island, o.agent));
  }

  // Steps of one call.
  lemma CallStepKeeps(w: World, s: Step)
    requires Inv(w) && Enabled(w, s) && (s.Begin? || s.AskPort? || s.Refuse? || s.Serve?)
    ensures Inv(Next(w, s))
  {
    match s
    case Begin(c, i, a) => CallMoves(w, c, Wanting(i, a));
    case AskPort(c) =>
      var o := w.calls[c];
      CallMoves(w, c, PortKnown(o.island, o.agent, PortFor(w.reg, TunnelKey(o.island, o.agent))));
    case Refuse(c) => CallMoves(w, c, Refused);
    case Serve(c) => CallMoves(w, c, Started(w.calls[c].fwd));
  }

  // Steps of the surroundings.
  lemma OtherStepKeeps(w: World, s: Step)
    requires Inv(w) && (s.CountLive? || s.CloseEverything? || s.Die?)
    ensures Inv(Next(w, s))
  {
    var r := Next(w, s).reg;
    forall k | k in w.reg.tunnels ensures w.reg.tunnels[k].pid in w.reg.Registered() {
    }
    LessKeeps(w, r);
  }

  lemma StepKeeps(w: World, s: Step)
    requires Inv(w) && Enabled(w, s)
    ensures Inv(Next(w, s))
  {
    match s
    case LookUp(c, ready) => LookUpKeeps(w, c, ready);
    case Spawn(c, port, url) => SpawnKeeps(w, c, port, url);
    case Abandon(c) => AbandonKeeps(w, c);
    case Register(c) => PutKeeps(w, c);
    case OtherGet(key, ready) => GetKeeps(w, key, ready);
    case CountLive => OtherStepKeeps(w, s);
    case CloseEverything => OtherStepKeeps(w, s);
    case Die(pid) => OtherStepKeeps(w, s);
    case _ => CallStepKeeps(w, s);
  }

  // ------------------------------------------------------------------ all runs

  ghost predicate IsRun(steps: seq<Step>, worlds: seq<World>) {
    && |worlds| == |steps| + 1 && worlds[0] == EMPTY
    && forall i :: 0 <= i < |steps| ==> Enabled(worlds[i], steps[i]) && worlds[i + 1] == Next(worlds[i], steps[i])
  }

  lemma {:induction false} RunKeeps(steps: seq<Step>, worlds: seq<World>, n: nat)
    requires IsRun(steps, worlds) && n <= |steps|
    ensures Inv(worlds[n])
    decreases n
  {
    if n > 0 {
      RunKeeps(steps, worlds, n - 1);
      StepKeeps(worlds[n - 1], steps[n - 1]);
    }
  }

  // At any moment of any run: one agent never has two registered forwards
  // running, every entry is under its own key with its port remembered, a
  // failed start has left no process, and no process runs unowned.
  lemma RegistrySafe(steps: seq<Step>, worlds: seq<World>, n: nat)
    requires IsRun(steps, worlds) && n <= |steps|
    ensures var w := worlds[n];
      && (forall f, g :: f in w.put && g in w.put && f.Key() == g.Key() && f != g ==>
            !(f.pid in w.reg.live && g.pid in w.reg.live))
      && (forall k :: k in w.reg.tunnels ==> w.reg.tunnels[k].Key() == k && PortFor(w.reg, k) == w.reg.tunnels[k].port)
      && (forall c :: c in w.calls && w.calls[c].Abandoned? ==> w.calls[c].fwd.pid !in w.reg.live)
      && w.reg.live <= w.reg.Registered() + InFlightPids(w)
  {
    RunKeeps(steps, worlds, n);
  }

  // What a call returned is the agent's registered forward for as long as its
  // process runs: if it is not, it has been closed or has died.
  lemma ReturnedRegisteredOrDead(steps: seq<Step>, worlds: seq<World>, n: nat, c: nat)
    requires IsRun(steps, worlds) && n <= |steps| && c in worlds[n].calls && worlds[n].calls[c].Returned?
    ensures var w, f := worlds[n], worlds[n].calls[c].fwd;
            f.pid in w.reg.live ==> f.Key() in w.reg.tunnels && w.reg.tunnels[f.Key()] == f
  {
    RunKeeps(steps, worlds, n);
  }

  // Shutting down ends every process but those of opens still in flight, and
  // so everything exactly when none of those runs.
  lemma ShutdownLeaves(steps: seq<Step>, worlds: seq<World>, n: nat)
    requires IsRun(steps, worlds) && n < |steps| && steps[n] == CloseEverything
    ensures worlds[n + 1].reg.live == worlds[n].reg.live * InFlightPids(worlds[n])
    ensures worlds[n + 1].reg.tunnels == map[]
  {
    RunKeeps(steps, worlds, n);
    var w := worlds[n];
    forall p | p in w.reg.Registered() ensures p !in InFlightPids(w) {
      var k :| k in w.reg.tunnels && w.reg.tunnels[k].pid == p;
      assert w.reg.tunnels[k] in w.put;
    }
  }

  // Registering ends at most one process, the one its agent's key named.
  lemma RegisterReplaces(w: World, c: nat)
    requires Inv(w) && Enabled(w, Register(c))
    ensures var f, v := w.calls[c].fwd, Next(w, Register(c));
      && f.Key() in v.reg.tunnels && v.reg.tunnels[f.Key()] == f && (f.pid in v.reg.live <==> f.pid in w.reg.live)
      && forall p :: p in w.reg.live && p !in v.reg.live ==> f.Key() in w.reg.tunnels && p == w.reg.tunnels[f.Key()].pid
  {
    var f := w.calls[c].fwd;
    if f.Key() in w.reg.tunnels {
      assert w.reg.tunnels[f.Key()] in w.put;
    }
  }

  // ------------------------------------------- how long a forward stays running

  // The steps that end a registered, running forward: its process dies, all are
  // closed, a lookup of its key finds its gateway not answering, or another
  // forward is registered under its key.
  predicate Ends(w: World, s: Step, f: Forward)
    requires Enabled(w, s)
  {
    match s
    case Die(pid) => pid == f.pid
    case CloseEverything => true
    case LookUp(c, ready) => !ready && TunnelKey(w.calls[c].island, w.calls[c].agent) == f.Key()
    case OtherGet(key, ready) => !ready && key == f.Key()
    case Register(c) => w.calls[c].fwd.Key() == f.Key()
    case _ => false
  }

  // One step: it keeps running exactly when the step is none of these.
  lemma StepEndsIff(w: World, s: Step, f: Forward)
    requires Inv(w) && Enabled(w, s) && f in w.put && f.pid in w.reg.live
    ensures f.pid in Next(w, s).reg.live <==> !Ends(w, s, f)
  {
    hide Settled;
    assert f.Key() in w.reg.tunnels && w.reg.tunnels[f.Key()] == f;
    match s {
      case LookUp(c, ready) => GetEndsIff(w, f, TunnelKey(w.calls[c].island, w.calls[c].agent), ready);
      case OtherGet(key, ready) => GetEndsIff(w, f, key, ready);
      case Register(c) => PutEndsIff(w, f, c);
      case CloseEverything => assert f.pid in w.reg.Registered();
      case _ =>
    }
  }

  lemma GetEndsIff(w: World, f: Forward, key: string, ready: bool)
    requires Filed(w) && OneEach(w) && Numbered(w) && f in w.put && f.pid in w.reg.live
    ensures f.pid in Got(w.reg, key, ready).0.live <==> ready || key != f.Key()
  {
  }

  lemma PutEndsIff(w: World, f: Forward, c: nat)
    requires Filed(w) && OneEach(w) && Numbered(w) && f in w.put && f.pid in w.reg.live
    requires c in w.calls && w.calls[c].InFlight()
    ensures f.pid in PutIn(w.reg, w.calls[c].fwd).live <==> w.calls[c].fwd.Key() != f.Key()
  {
    var g := w.calls[c].fwd;
    if g.Key() in w.reg.tunnels {
      assert w.reg.tunnels[g.Key()] in w.put;
    }
  }

  // A process number is not given out twice, so what has ended stays ended.
  lemma StaysEnded(w: World, s: Step, f: Forward)
    requires Inv(w) && Enabled(w, s) && f in w.put
    ensures f in Next(w, s).put && (f.pid !in w.reg.live ==> f.pid !in Next(w, s).reg.live)
  {
    hide Filed, OneEach, Owned, Settled;
  }

  ghost predicate EndedBetween(steps: seq<Step>, worlds: seq<World>, f: Forward, a: nat, b: nat)
    requires IsRun(steps, worlds) && a <= b <= |steps|
  {
    exists i :: a <= i < b && Ends(worlds[i], steps[i], f)
  }

  // Over any run: a forward that was registered and running at one moment runs
  // at a later one if and only if no step in between was one that ends it.
  lemma {:induction false} RunningIff(steps: seq<Step>, worlds: seq<World>, f: Forward, a: nat, b: nat)
    requires IsRun(steps, worlds) && a <= b <= |steps| && f in worlds[a].put && f.pid in worlds[a].reg.live
    ensures f in worlds[b].put
    ensures f.pid in worlds[b].reg.live <==> !EndedBetween(steps, worlds, f, a, b)
    decreases b
  {
    hide Ends, Inv;
    if a < b {
      RunningIff(steps, worlds, f, a, b - 1);
      RunKeeps(steps, worlds, b - 1);
      StaysEnded(worlds[b - 1], steps[b - 1], f);
      if f.pid in worlds[b - 1].reg.live {
        StepEndsIff(worlds[b - 1], steps[b - 1], f);
      }
    }
  }

  // So "a forward just returned is running" is false when opens overlap, though
  // no process dies, nothing is shut down and every gateway answers: a run in
  // which the first of two opens returns its forward, running, and the second
  // ends it by registering its own.
  lemma OverlapHappens() returns (steps: seq<Step>, worlds: seq<World>)
    ensures IsRun(steps, worlds) && |steps| == 12
    ensures forall s :: s in steps ==> !s.Die? && !s.CloseEverything? && !s.OtherGet? && (s.LookUp? ==> s.ready)
    ensures var w, v := worlds[11], worlds[12];
      && 0 in w.calls && w.calls[0].Returned? && w.calls[0].fwd.pid in w.reg.live
      && 0 in v.calls && v.calls[0] == w.calls[0] && v.calls[0].fwd.pid !in v.reg.live
      && 1 in v.calls && v.calls[1].Returned? && v.calls[1].fwd.pid in v.reg.live
  {
    steps, worlds := BothStart();
    var w := Extend(steps, worlds, Register(0));
    steps, worlds := steps + [Register(0)], worlds + [w];
    var v := Extend(steps, worlds, Register(1));
    steps, worlds := steps + [Register(1)], worlds + [v];
  }

  lemma Extend(steps: seq<Step>, worlds: seq<World>, s: Step) returns (w: World)
    requires IsRun(steps, worlds) && Enabled(worlds[|steps|], s)
    ensures w == Next(worlds[|steps|], s) && IsRun(steps + [s], worlds + [w])
  {
    w := Next(worlds[|steps|], s);
  }

  // Two opens of one agent both miss and both start.
  lemma BothStart() returns (steps: seq<Step>, worlds: seq<World>)
    ensures IsRun(steps, worlds) && |steps| == 10 && OverlapStage(worlds[10], 10)
    ensures forall s :: s in steps ==> !s.Die? && !s.CloseEverything? && !s.OtherGet? && (s.LookUp? ==> s.ready)
  {
    steps, worlds := [], [EMPTY];
    var script := [Begin(0, "i", "a"), Begin(1, "i", "a"), LookUp(0, true), LookUp(1, true), AskPort(0), AskPort(1),
                   Spawn(0, 1, ""), Spawn(1, 2, ""), Serve(0), Serve(1)];
    for n := 0 to |script|
      invariant steps == script[..n] && IsRun(steps, worlds) && OverlapStage(worlds[n], n)
    {
      var w := Extend(steps, worlds, script[n]);
      steps, worlds := steps + [script[n]], worlds + [w];
    }
  }

  ghost predicate OverlapStage(w: World, n: int) {
    && w.reg.tunnels == map[]
    && w.spawned == (if n < 7 then 0 else if n < 8 then 1 else 2)
    && w.reg.live == (if n < 7 then {} else if n < 8 then {0} else {0, 1})
    && (n >= 1 ==> 0 in w.calls && Stage(w.calls[0], n, [3, 5, 7, 9], 0))
    && (n >= 2 ==> 1 in w.calls && Stage(w.calls[1], n, [4, 6, 8, 10], 1))
    && (n < 1 ==> 0 !in w.calls) && (n < 2 ==> 1 !in w.calls)
  }

  // How far one of the two opens has come after n steps.
  ghost predicate Stage(o: Opening, n: int, at: seq<int>, pid: nat)
    requires |at| == 4
  {
    if n < at[0] then o == Wanting("i", "a")
    else if n < at[1] then o == Missed("i", "a")
    else if n < at[2] then o.PortKnown? && o.island == "i" && o.agent == "a"
    else o.InFlight() && o.fwd.island == "i" && o.fwd.agent == "a" && o.fwd.pid == pid && (o.Started? <==> n >= at[3])
  }
}
