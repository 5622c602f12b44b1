// The registry of gateway forwards: a map under a lock, whose entries are
// processes that may die at any time, used by open calls that are not atomic.
module Tunnels {
  import opened Options

  // A started forward. Its fields never change after the start; the process
  // behind it is known by its number, which is never given out twice.
  datatype Forward = Forward(island: string, agent: string, port: int, pid: nat, url: string) {
    function Key(): string {
      TunnelKey(island, agent)
    }
  }

  function TunnelKey(island: string, agent: string): string {
    island + "/" + agent
  }

  // Two agents share a key only if an island name holds a slash.
  lemma KeysDiffer(i: string, a: string, j: string, b: string)
    requires '/' !in i && '/' !in j && TunnelKey(i, a) == TunnelKey(j, b)
    ensures i == j && a == b
  {
    var k := TunnelKey(i, a);
    assert forall n :: 0 <= n < |i| ==> k[n] == i[n] && i[n] in i;
    assert forall n :: 0 <= n < |j| ==> k[n] == j[n] && j[n] in j;
    assert k[|i|] == '/' && k[|j|] == '/';
    assert k[..|i|] == i && k[|i| + 1..] == a;
    assert k[..|j|] == j && k[|j| + 1..] == b;
  }

  // The registry's two maps and the processes now running.
  datatype Registry = Registry(tunnels: map<string, Forward>, lastPort: map<string, int>, live: set<nat>) {
    function Registered(): set<nat> {
      set k | k in tunnels :: tunnels[k].pid
    }
  }

  // ---------------------------------------------------- what each locked step does

  // A dead forward is dropped; a live one whose gateway does not answer is
  // closed and dropped.
  function Got(r: Registry, key: string, ready: bool): (Registry, Option<Forward>) {
    if key !in r.tunnels then (r, None)
    else
      var f := r.tunnels[key];
      if f.pid !in r.live then (r.(tunnels := r.tunnels - {key}), None)
      else if !ready then (r.(tunnels := r.tunnels - {key}, live := r.live - {f.pid}), None)
      else (r, Some(f))
  }

  function PutIn(r: Registry, f: Forward): Registry {
    var k := f.Key();
    Registry(r.tunnels[k := f], r.lastPort[k := f.port],
             if k in r.tunnels && r.tunnels[k] != f then r.live - {r.tunnels[k].pid} else r.live)
  }

  function Reaped(r: Registry): Registry {
    r.(tunnels := map k | k in r.tunnels && r.tunnels[k].pid in r.live :: r.tunnels[k])
  }

  function ClosedAll(r: Registry): Registry {
    Registry(map[], r.lastPort, r.live - r.Registered())
  }

  function PortFor(r: Registry, key: string): int {
    if key in r.lastPort then r.lastPort[key] else 0
  }

  // The processes of the machine.
  class Host {
    var live: set<nat>
    var spawned: nat

    constructor ()
      ensures live == {} && spawned == 0
    {
      live, spawned := {}, 0;
    }

    method Spawn() returns (pid: nat)
      modifies this
      ensures pid == old(spawned) && spawned == pid + 1 && live == old(live) + {pid}
    {
      pid := spawned;
      spawned := spawned + 1;
      live := live + {pid};
    }

    method Alive(f: Forward) returns (alive: bool)
      ensures alive <==> f.pid in live
    {
      alive := f.pid in live;
    }

    // Idempotent: a forward that has exited is left alone.
    method Close(f: Forward)
      modifies this`live
      ensures live == old(live) - {f.pid}
    {
      var alive := Alive(f);
      if !alive {
        return;
      }
      live := live - {f.pid};
    }
  }

  // How one attempt to bring a forward up goes.
  datatype StartEnv = StartEnv(
    endpoint: bool, enabled: bool, portFree: int -> bool, freePort: Option<int>,
    knownHosts: bool, starts: bool, bound: bool, serving: bool, url: string)
  {
    // The preferred port is a preference, never a requirement.
    function PortUsed(preferred: int): int
      requires (preferred != 0 && portFree(preferred)) || freePort.Some?
    {
      if preferred != 0 && portFree(preferred) then preferred else freePort.value
    }

    // All that a forward needs.
    predicate Serves(preferred: int) {
      && endpoint && enabled && ((preferred != 0 && portFree(preferred)) || freePort.Some?)
      && knownHosts && starts && bound && serving
    }
  }

  class TunnelManager {
    var tunnels: map<string, Forward>
    var lastPort: map<string, int>
    const host: Host

    constructor (host: Host)
      ensures this.host == host && tunnels == map[] && lastPort == map[]
    {
      this.host := host;
      tunnels, lastPort := map[], map[];
    }

    ghost function View(): Registry
      reads this, host
    {
      Registry(tunnels, lastPort, host.live)
    }

    method Get(island: string, agent: string, ready: bool) returns (r: Option<Forward>)
      modifies this`tunnels, host`live
      ensures (View(), r) == Got(old(View()), TunnelKey(island, agent), ready)
      ensures var k := TunnelKey(island, agent);
        && (r.Some? <==> k in old(tunnels) && old(tunnels)[k].pid in old(host.live) && ready)
        && if r.Some? then r.value == old(tunnels)[k] && tunnels == old(tunnels) && host.live == old(host.live)
           else && tunnels == old(tunnels) - {k}
                && host.live == old(host.live) - if k in old(tunnels) then {old(tunnels)[k].pid} else {}
    {
      var k := TunnelKey(island, agent);
      if k !in tunnels {
        return None;
      }
      var fwd := tunnels[k];
      var alive := host.Alive(fwd);
      if !alive {
        tunnels := tunnels - {k};
        return None;
      }
      if !ready {
        host.Close(fwd);
        tunnels := tunnels - {k};
        return None;
      }
      return Some(fwd);
    }

    method Put(fwd: Option<Forward>)
      modifies this, host`live
      ensures View() == match fwd case None => old(View()) case Some(f) => PutIn(old(View()), f)
      ensures fwd.Some? ==>
        var f := fwd.value;
        var k := TunnelKey(f.island, f.agent);
        && tunnels == old(tunnels)[k := f] && lastPort == old(lastPort)[k := f.port]
        && host.live == old(host.live) - if k in old(tunnels) && old(tunnels)[k] != f then {old(tunnels)[k].pid} else {}
    {
      match fwd {
        case None =>
        case Some(f) =>
          var k := f.Key();
          if k in tunnels && tunnels[k] != f {
            host.Close(tunnels[k]);
          }
          tunnels := tunnels[k := f];
          lastPort := lastPort[k := f.port];
      }
    }

    method PortOf(island: string, agent: string) returns (port: int)
      ensures port == PortFor(View(), TunnelKey(island, agent))
      ensures var k := TunnelKey(island, agent); port == if k in lastPort then lastPort[k] else 0
    {
      var k := TunnelKey(island, agent);
      port := if k in lastPort then lastPort[k] else 0;
    }

    method Count() returns (n: nat)
      modifies this`tunnels
      ensures View() == Reaped(old(View())) && n == |tunnels|
      ensures forall k :: k in tunnels <==> k in old(tunnels) && old(tunnels)[k].pid in host.live
      ensures forall k :: k in tunnels ==> tunnels[k] == old(tunnels)[k]
    {
      var keys := tunnels.Keys;
      while keys != {}
        invariant keys <= tunnels.Keys <= old(tunnels.Keys)
        invariant forall k :: k in tunnels ==> tunnels[k] == old(tunnels)[k]
        invariant forall k :: k in old(tunnels) && k !in keys ==> (k in tunnels <==> old(tunnels)[k].pid in host.live)
        decreases keys
      {
        var k :| k in keys;
        var alive := host.Alive(tunnels[k]);
        if !alive {
          tunnels := tunnels - {k};
        }
        keys := keys - {k};
      }
      n := |tunnels|;
    }

    method CloseAll()
      modifies this`tunnels, host`live
      ensures View() == ClosedAll(old(View())) && tunnels == map[]
      ensures forall p :: p in host.live <==>
        p in old(host.live) && forall k :: k in old(tunnels) ==> old(tunnels)[k].pid != p
    {
      ghost var was := tunnels;
      while tunnels != map[]
        invariant tunnels.Keys <= was.Keys && forall k :: k in tunnels ==> tunnels[k] == was[k]
        invariant host.live == old(host.live) - set k | k in was && k !in tunnels :: was[k].pid
        decreases tunnels.Keys
      {
        var k :| k in tunnels;
        host.Close(tunnels[k]);
        assert (set x | x in was && x !in tunnels - {k} :: was[x].pid)
            == (set x | x in was && x !in tunnels :: was[x].pid) + {was[k].pid};
        tunnels := tunnels - {k};
      }
      assert (set k | k in was :: was[k].pid) == old(View()).Registered();
    }

    // startGatewayForward: it gives a forward exactly when nothing is missing,
    // a taken preferred port being no obstacle, and whichever exit it takes
    // without one, it leaves no process of its own running.
    method Start(island: string, agent: string, preferred: int, env: StartEnv) returns (r: Option<Forward>)
      requires forall p :: p in host.live ==> p < host.spawned
      modifies host
      ensures r.Some? <==>
        && env.endpoint && env.enabled && ((preferred != 0 && env.portFree(preferred)) || env.freePort.Some?)
        && env.knownHosts && env.starts && env.bound && env.serving
      ensures r.Some? ==>
        && r.value.port == (if preferred != 0 && env.portFree(preferred) then preferred else env.freePort.value)
        && r.value == Forward(island, agent, r.value.port, old(host.spawned), env.url)
        && host.live == old(host.live) + {r.value.pid} && host.spawned == r.value.pid + 1
      ensures r == None ==> host.live == old(host.live)
      ensures host.spawned >= old(host.spawned) && forall p :: p in host.live ==> p < host.spawned
    {
      if !env.endpoint || !env.enabled {
        return None;
      }
      var port := preferred;
      if port != 0 && !env.portFree(port) {
        port := 0;
      }
      if port == 0 {
        match env.freePort {
          case None => return None;
          case Some(p) => port := p;
        }
      }
      if !env.knownHosts || !env.starts {
        return None;
      }
      var pid := host.Spawn();
      var fwd := Forward(island, agent, port, pid, env.url);
      if !env.bound {
        host.Close(fwd);
        return None;
      }
      if !env.serving {
        host.Close(fwd);
        return None;
      }
      return Some(fwd);
    }

    // openGatewayForAgent with no other call in between: a running forward that
    // answers is reused; otherwise one is returned exactly when a start
    // succeeds, on the agent's last port when that is free, and is registered,
    // running, and the only one of its agent.
    method OpenGateway(island: string, agent: string, ready: bool, env: StartEnv) returns (r: Option<Forward>)
      requires forall p :: p in host.live ==> p < host.spawned
      requires forall k :: k in tunnels ==> tunnels[k].Key() == k && tunnels[k].pid < host.spawned
      modifies this, host
      ensures var got := Got(old(View()), TunnelKey(island, agent), ready);
        var last := PortFor(old(View()), TunnelKey(island, agent));
        if got.1.Some? then r == got.1 && View() == old(View())
        else
          && (r.Some? <==> env.Serves(last))
          && if r == None then View() == got.0
             else && r.value == Forward(island, agent, env.PortUsed(last), old(host.spawned), env.url)
                  && View() == PutIn(got.0.(live := got.0.live + {r.value.pid}), r.value)
      ensures r.Some? ==> r.value.Key() in tunnels && tunnels[r.value.Key()] == r.value && r.value.pid in host.live
    {
      var found := Get(island, agent, ready);
      if found.Some? {
        return found;
      }
      var port := PortOf(island, agent);
      r := Start(island, agent, port, env);
      if r == None {
        return None;
      }
      Put(r);
    }
  }
}
