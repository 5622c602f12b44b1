// Which query parameters a handler reads, through any chain of helpers it
// hands the request or the parsed query to.
module ParityQuery {
  import opened Reachability

  datatype Call = Call(callee: string, args: seq<string>)

  // What was found in one function body: direct reads, reads that count only
  // once the query map is in hand, and calls.
  datatype Body = Body(direct: set<string>, viaMap: set<string>, calls: seq<Call>)

  type Bodies = map<string, Body>

  // A function, and whether it was reached holding the query map.
  datatype Visit = Visit(fn: string, queryMode: bool)

  const REQUEST := "r"
  const QUERY := "r.URL.Query()"

  predicate PassesQuery(c: Call) {
    QUERY in c.args
  }

  predicate PassesRequest(c: Call) {
    QUERY !in c.args && REQUEST in c.args
  }

  ghost predicate Hands(bodies: Bodies, a: Visit, b: Visit) {
    && a.fn in bodies && b.fn in bodies
    && exists c :: c in bodies[a.fn].calls && c.callee == b.fn
         && if b.queryMode then PassesQuery(c) else PassesRequest(c)
  }

  ghost function HandStep(bodies: Bodies): (Visit, Visit) -> bool {
    (a, b) => Hands(bodies, a, b)
  }

  ghost predicate ReadsAt(bodies: Bodies, v: Visit, param: string) {
    v.fn in bodies && (param in bodies[v.fn].direct || (v.queryMode && param in bodies[v.fn].viaMap))
  }

  ghost function AllVisits(bodies: Bodies): set<Visit> {
    set fn, m | fn in bodies.Keys && m in {false, true} :: Visit(fn, m)
  }

  // The worklist is a stack and may hold repeats; it drains because each turn
  // that adds to it also uses up a (function, mode) pair.
  method QueryParamsRead(bodies: Bodies, entry: string) returns (found: set<string>)
    ensures forall p :: p in found <==>
      exists v :: Reach(HandStep(bodies), Visit(entry, false), v) && ReadsAt(bodies, v, p)
  {
    var start := Visit(entry, false);
    var seen: set<Visit> := {};
    var queue := [start];
    found := {};
    ReachSelf(HandStep(bodies), start);
    while queue != []
      invariant seen <= AllVisits(bodies)
      invariant entry in bodies ==> start in seen || start in queue
      invariant forall v :: (v in seen || (v in queue && v.fn in bodies)) ==> Reach(HandStep(bodies), start, v)
      invariant forall a, b :: a in seen && Hands(bodies, a, b) ==> b in seen || b in queue
      invariant forall p :: p in found <==> exists v :: v in seen && ReadsAt(bodies, v, p)
      decreases AllVisits(bodies) - seen, |queue|
    {
      var top := queue[|queue| - 1];
      ghost var before := queue;
      queue := queue[..|queue| - 1];
      assert before == queue + [top];
      if top in seen || top.fn !in bodies {
        continue;
      }
      assert top in AllVisits(bodies);
      ghost var wasSeen := seen;
      seen := seen + {top};
      var body := bodies[top.fn];
      ghost var wasFound := found;
      found := found + body.direct;
      if top.queryMode {
        found := found + body.viaMap;
      }
      FoundGrows(bodies, wasSeen, top, wasFound, found);
      var rest := queue;
      queue := Enqueue(bodies, top, queue);
      forall v | v in queue && v.fn in bodies ensures Reach(HandStep(bodies), start, v) {
        if v !in rest {
          ReachBack(HandStep(bodies), start, top, v);
        }
      }
    }
    forall v, p | Reach(HandStep(bodies), start, v) && ReadsAt(bodies, v, p) ensures p in found {
      if entry in bodies {
        ClosedHoldsReach(HandStep(bodies), seen, start, v);
      }
    }
  }

  lemma FoundGrows(bodies: Bodies, seen: set<Visit>, top: Visit, was: set<string>, now: set<string>)
    requires top.fn in bodies
    requires forall p :: p in was <==> exists v :: v in seen && ReadsAt(bodies, v, p)
    requires now == was + bodies[top.fn].direct + if top.queryMode then bodies[top.fn].viaMap else {}
    ensures forall p :: p in now <==> exists v :: v in seen + {top} && ReadsAt(bodies, v, p)
  {
    forall p ensures p in now <==> exists v :: v in seen + {top} && ReadsAt(bodies, v, p) {
      if p in now && p !in was {
        assert ReadsAt(bodies, top, p);
      }
      if p in was {
        var v :| v in seen && ReadsAt(bodies, v, p);
        assert v in seen + {top};
      }
    }
  }

  // The inner loop: push every callee that gets the query map or the request.
  method Enqueue(bodies: Bodies, top: Visit, queue: seq<Visit>) returns (q: seq<Visit>)
    requires top.fn in bodies
    ensures queue <= q
    ensures forall v :: Hands(bodies, top, v) ==> v in q
    ensures forall v :: v in q && v !in queue && v.fn in bodies ==> Hands(bodies, top, v)
  {
    q := queue;
    var calls := bodies[top.fn].calls;
    for i := 0 to |calls|
      invariant queue <= q
      invariant forall v :: v in q && v !in queue && v.fn in bodies ==> Hands(bodies, top, v)
      invariant forall k :: 0 <= k < i ==> (PassesQuery(calls[k]) ==> Visit(calls[k].callee, true) in q)
      invariant forall k :: 0 <= k < i ==> (PassesRequest(calls[k]) ==> Visit(calls[k].callee, false) in q)
    {
      var c := calls[i];
      assert c in calls;
      if QUERY in c.args {
        q := q + [Visit(c.callee, true)];
      } else if REQUEST in c.args {
        q := q + [Visit(c.callee, false)];
      }
    }
  }
}
