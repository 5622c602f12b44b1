// The documented side of the field-parity check: an OpenAPI document whose
// nodes sit in an arena, so that a node's index plays the part of its object
// identity, and the two ways the checker reads a node.
module ParitySchema {
  import opened Options
  import opened Reachability

  // A parsed YAML node. `ref`, the three composition lists, `properties`,
  // `items` and `additionalProperties` are the only keys the checker reads;
  // a missing or null list or map is an empty one here.
  datatype SchemaNode =
    | Null
    | Scalar
    | Dict(ref: Option<string>, allOf: seq<int>, anyOf: seq<int>, oneOf: seq<int>,
           properties: map<string, int>, items: Option<int>, additional: Option<int>)
  {
    function Parts(): seq<int>
      requires Dict?
    {
      allOf + anyOf + oneOf
    }

    predicate IsRef() {
      Dict? && ref.Some?
    }
  }

  datatype Spec = Spec(nodes: seq<SchemaNode>, schemas: map<string, int>) {
    // Nested nodes come earlier in the arena, as they do when a document
    // without self-containing anchors is read bottom-up; cycles exist only
    // through named schemas. A named schema is a mapping or null.
    ghost predicate WellFormed() {
      && (forall n :: Has(n) && nodes[n].Dict? ==> NestsBelow(n))
      && (forall name :: name in schemas ==> Has(schemas[name]) && !nodes[schemas[name]].Scalar?)
    }

    ghost predicate NestsBelow(n: int)
      requires Has(n) && nodes[n].Dict?
    {
      var d := nodes[n];
      && (forall s :: s in d.Parts() ==> 0 <= s < n)
      && (forall p :: p in d.properties ==> 0 <= d.properties[p] < n)
      && (d.items.Some? ==> 0 <= d.items.value < n)
      && (d.additional.Some? ==> 0 <= d.additional.value < n)
    }

    predicate Has(n: int) {
      0 <= n < |nodes|
    }

    // A missing name and a name bound to null are both "does not exist".
    function Target(name: string): Option<int> {
      if name in schemas && Has(schemas[name]) && !nodes[schemas[name]].Null? then Some(schemas[name]) else None
    }
  }

  // The text after the last '/' of a reference.
  function RefName(ref: string): string {
    if '/' !in ref then ref
    else if ref[0] == '/' && '/' !in ref[1..] then ref[1..]
    else RefName(ref[1..])
  }

  // It is a suffix without '/', and all of it after the last one.
  lemma {:induction false} RefNameSuffix(ref: string)
    ensures var r := RefName(ref);
            && |r| <= |ref| && ref[|ref| - |r|..] == r && '/' !in r
            && (|r| < |ref| ==> ref[|ref| - |r| - 1] == '/')
  {
    if '/' in ref && !(ref[0] == '/' && '/' !in ref[1..]) {
      RefNameSuffix(ref[1..]);
      var r := RefName(ref[1..]);
      assert ref[|ref| - |r|..] == ref[1..][|ref| - 1 - |r|..];
      assert ref == [ref[0]] + ref[1..];
    } else if '/' in ref {
      assert ref == [ref[0]] + ref[1..];
    }
  }

  function NodeRef(spec: Spec, n: int): string
    requires spec.Has(n) && spec.nodes[n].IsRef()
  {
    RefName(spec.nodes[n].ref.value)
  }

  // ------------------------------------------------------------ schema_object

  type Props = map<string, int>

  // What schema_object returns when the names in `seen` are already open.
  function Object(spec: Spec, n: int, seen: set<string>): (r: (Props, bool))
    requires spec.WellFormed() && spec.Has(n)
    ensures forall p :: p in r.0 ==> spec.Has(r.0[p])
    decreases spec.schemas.Keys - seen, n
  {
    var node := spec.nodes[n];
    if !node.Dict? then (map[], true)
    else if node.IsRef() then
      var name := NodeRef(spec, n);
      if name in seen then (map[], true)
      else match spec.Target(name)
        case None => (map[], false)
        case Some(t) => Object(spec, t, seen + {name})
    else
      var parts := PartsObject(spec, n, seen, |node.Parts()|);
      (parts.0 + node.properties, parts.1)
  }

  // The first k composed parts of node n, later ones overriding earlier ones.
  function PartsObject(spec: Spec, n: int, seen: set<string>, k: nat): (r: (Props, bool))
    requires spec.WellFormed() && spec.Has(n) && spec.nodes[n].Dict? && k <= |spec.nodes[n].Parts()|
    ensures forall p :: p in r.0 ==> spec.Has(r.0[p])
    decreases spec.schemas.Keys - seen, n, k
  {
    if k == 0 then (map[], true)
    else
      var before := PartsObject(spec, n, seen, k - 1);
      var part := spec.nodes[n].Parts()[k - 1];
      assert part in spec.nodes[n].Parts() && spec.NestsBelow(n);
      var sub := Object(spec, part, seen);
      (before.0 + sub.0, before.1 && sub.1)
  }

  method SchemaObject(spec: Spec, n: int, seen: set<string>) returns (props: Props, ok: bool)
    requires spec.WellFormed() && spec.Has(n)
    ensures (props, ok) == Object(spec, n, seen)
    decreases spec.schemas.Keys - seen, n
  {
    props, ok := map[], true;
    var node := spec.nodes[n];
    if !node.Dict? {
      return;
    }
    if node.IsRef() {
      var name := NodeRef(spec, n);
      if name in seen {
        return;
      }
      match spec.Target(name) {
        case None => return map[], false;
        case Some(t) =>
          props, ok := SchemaObject(spec, t, seen + {name});
          return;
      }
    }
    var parts := node.Parts();
    for i := 0 to |parts|
      invariant (props, ok) == PartsObject(spec, n, seen, i)
    {
      assert parts[i] in parts && spec.NestsBelow(n);
      var subProps, subOk := SchemaObject(spec, parts[i], seen);
      props := props + subProps;
      ok := ok && subOk;
    }
    props := props + node.properties;
  }

  // ------------------------------------- what "following $ref/allOf" reaches

  // One hop: a reference leads to its target and nowhere else; any other
  // mapping leads to each of its composed parts.
  ghost predicate Composes(spec: Spec, a: int, b: int) {
    && spec.Has(a) && spec.Has(b) && spec.nodes[a].Dict?
    && if spec.nodes[a].IsRef() then spec.Target(NodeRef(spec, a)) == Some(b)
       else b in spec.nodes[a].Parts()
  }

  ghost function ComposeStep(spec: Spec): (int, int) -> bool {
    (a, b) => Composes(spec, a, b)
  }

  ghost predicate Dangles(spec: Spec, n: int) {
    spec.Has(n) && spec.nodes[n].IsRef() && spec.Target(NodeRef(spec, n)) == None
  }

  // Node n itself declares property p.
  ghost predicate Declares(spec: Spec, n: int, p: string) {
    spec.Has(n) && spec.nodes[n].Dict? && !spec.nodes[n].IsRef() && p in spec.nodes[n].properties
  }

  // Some node that n reaches declares p with sub-schema v.
  ghost predicate Offers(spec: Spec, n: int, p: string, v: int) {
    exists m :: Reach(ComposeStep(spec), n, m) && Declares(spec, m, p) && spec.nodes[m].properties[p] == v
  }

  ghost predicate Documents(spec: Spec, n: int, p: string) {
    exists v :: Offers(spec, n, p, v)
  }

  ghost predicate ReachesDangling(spec: Spec, n: int) {
    exists m :: Reach(ComposeStep(spec), n, m) && Dangles(spec, m)
  }

  lemma OffersFront(spec: Spec, n: int, t: int, p: string, v: int)
    requires Composes(spec, n, t) && Offers(spec, t, p, v)
    ensures Offers(spec, n, p, v)
  {
    var m :| Reach(ComposeStep(spec), t, m) && Declares(spec, m, p) && spec.nodes[m].properties[p] == v;
    ReachFront(ComposeStep(spec), n, t, m);
  }

  lemma DanglingFront(spec: Spec, n: int, t: int)
    requires Composes(spec, n, t) && ReachesDangling(spec, t)
    ensures ReachesDangling(spec, n)
  {
    var m :| Reach(ComposeStep(spec), t, m) && Dangles(spec, m);
    ReachFront(ComposeStep(spec), n, t, m);
  }

  // Nothing is invented: each property returned is declared, with that very
  // sub-schema, by a node that n reaches, and a failure has a dangling
  // reference behind it.
  lemma {:induction false} ObjectSound(spec: Spec, n: int, seen: set<string>)
    requires spec.WellFormed() && spec.Has(n)
    ensures forall p :: p in Object(spec, n, seen).0 ==> Offers(spec, n, p, Object(spec, n, seen).0[p])
    ensures !Object(spec, n, seen).1 ==> ReachesDangling(spec, n)
    decreases spec.schemas.Keys - seen, n
  {
    var node := spec.nodes[n];
    var r := Object(spec, n, seen);
    ReachSelf(ComposeStep(spec), n);
    if !node.Dict? {
    } else if node.IsRef() {
      var name := NodeRef(spec, n);
      if name in seen {
      } else if spec.Target(name) == None {
        assert Dangles(spec, n);
      } else {
        var t := spec.Target(name).value;
        ObjectSound(spec, t, seen + {name});
        forall p | p in r.0 ensures Offers(spec, n, p, r.0[p]) {
          OffersFront(spec, n, t, p, r.0[p]);
        }
        if !r.1 {
          DanglingFront(spec, n, t);
        }
      }
    } else {
      PartsSound(spec, n, seen, |node.Parts()|);
      forall p | p in r.0 ensures Offers(spec, n, p, r.0[p]) {
        assert p in node.properties ==> Declares(spec, n, p);
      }
    }
  }

  lemma {:induction false} PartsSound(spec: Spec, n: int, seen: set<string>, k: nat)
    requires spec.WellFormed() && spec.Has(n) && spec.nodes[n].Dict? && !spec.nodes[n].IsRef()
    requires k <= |spec.nodes[n].Parts()|
    ensures forall p :: p in PartsObject(spec, n, seen, k).0 ==> Offers(spec, n, p, PartsObject(spec, n, seen, k).0[p])
    ensures !PartsObject(spec, n, seen, k).1 ==> ReachesDangling(spec, n)
    decreases spec.schemas.Keys - seen, n, k
  {
    hide Offers, ReachesDangling, Composes;
    if k > 0 {
      PartsSound(spec, n, seen, k - 1);
      LastPart(spec, n, seen, k);
      PartComposes(spec, n, k - 1);
      var part := spec.nodes[n].Parts()[k - 1];
      ObjectSound(spec, part, seen);
      PartSound(spec, n, part, Object(spec, part, seen));
    }
  }

  lemma PartComposes(spec: Spec, n: int, i: nat)
    requires spec.WellFormed() && spec.Has(n) && spec.nodes[n].Dict? && !spec.nodes[n].IsRef()
    requires i < |spec.nodes[n].Parts()|
    ensures var part := spec.nodes[n].Parts()[i]; 0 <= part < n && Composes(spec, n, part)
  {
    assert spec.nodes[n].Parts()[i] in spec.nodes[n].Parts() && spec.NestsBelow(n);
  }

  // What a part offers and what it misses, the node does.
  lemma PartSound(spec: Spec, n: int, part: int, sub: (Props, bool))
    requires Composes(spec, n, part)
    requires forall p :: p in sub.0 ==> Offers(spec, part, p, sub.0[p])
    requires !sub.1 ==> ReachesDangling(spec, part)
    ensures forall p :: p in sub.0 ==> Offers(spec, n, p, sub.0[p])
    ensures !sub.1 ==> ReachesDangling(spec, n)
  {
    hide Offers, ReachesDangling;
    forall p | p in sub.0 ensures Offers(spec, n, p, sub.0[p]) {
      OffersFront(spec, n, part, p, sub.0[p]);
    }
    if !sub.1 {
      DanglingFront(spec, n, part);
    }
  }

  // A node carrying a reference whose name is still open.
  ghost predicate Blocked(spec: Spec, n: int, seen: set<string>) {
    spec.Has(n) && spec.nodes[n].IsRef() && NodeRef(spec, n) in seen
  }

  // After entering the reference `name`, a walk that ends at a contributing
  // node can be restarted where it last followed that name.
  lemma {:induction false} LeaveName(spec: Spec, name: string, t: int, via: seq<int>, m: int) returns (out: seq<int>)
    requires spec.WellFormed() && spec.Target(name) == Some(t)
    requires Walk(ComposeStep(spec), t, via, m)
    requires Dangles(spec, m) || exists p :: Declares(spec, m, p)
    ensures Walk(ComposeStep(spec), t, out, m) && |out| <= |via|
    ensures forall x :: x in out ==> x in via
    ensures forall x :: x in [t] + out ==> !Blocked(spec, x, {name})
    decreases |via|
  {
    var all := [t] + via;
    if i :| 0 <= i < |all| && Blocked(spec, all[i], {name}) {
      WalkEnd(ComposeStep(spec), t, via, m);
      if i > 0 {
        WalkSuffix(ComposeStep(spec), t, via, m, i - 1);
        assert all[i] == via[i - 1];
      }
      var rest := via[i..];
      assert Walk(ComposeStep(spec), all[i], rest, m);
      assert rest[0] == t;
      out := LeaveName(spec, name, t, rest[1..], m);
    } else {
      out := via;
      forall x | x in [t] + out ensures !Blocked(spec, x, {name}) {
        var i :| 0 <= i < |all| && all[i] == x;
      }
    }
  }

  lemma {:induction false} WalkEnd(step: (int, int) -> bool, a: int, via: seq<int>, b: int)
    requires Walk(step, a, via, b)
    ensures ([a] + via)[|via|] == b
    decreases |via|
  {
    if via != [] {
      WalkEnd(step, via[0], via[1..], b);
      assert ([a] + via)[|via|] == ([via[0]] + via[1..])[|via| - 1];
    }
  }

  // Nothing is lost: whatever a walk clear of the open names leads to is found.
  lemma {:induction false} ObjectComplete(spec: Spec, n: int, seen: set<string>, via: seq<int>, m: int)
    requires spec.WellFormed() && spec.Has(n)
    requires Walk(ComposeStep(spec), n, via, m)
    requires forall x :: x in [n] + via ==> !Blocked(spec, x, seen)
    ensures forall p :: Declares(spec, m, p) ==> p in Object(spec, n, seen).0
    ensures Dangles(spec, m) ==> !Object(spec, n, seen).1
    decreases |via|
  {
    if !(Dangles(spec, m) || exists p :: Declares(spec, m, p)) {
      return;
    }
    assert n in [n] + via;
    if via == [] {
    } else if spec.nodes[n].IsRef() {
      var name := NodeRef(spec, n);
      var t := via[0];
      assert spec.Target(name) == Some(t);
      var rest := LeaveName(spec, name, t, via[1..], m);
      forall x | x in [t] + rest ensures !Blocked(spec, x, seen + {name}) {
        assert x in [n] + via;
        assert !Blocked(spec, x, seen) && !Blocked(spec, x, {name});
      }
      ObjectComplete(spec, t, seen + {name}, rest, m);
    } else {
      var part := via[0];
      forall x | x in [part] + via[1..] ensures !Blocked(spec, x, seen) {
        assert x in [n] + via;
      }
      ObjectComplete(spec, part, seen, via[1..], m);
      assert spec.nodes[n].Parts()[..|spec.nodes[n].Parts()|] == spec.nodes[n].Parts();
      PartKept(spec, n, seen, part, |spec.nodes[n].Parts()|);
    }
  }

  lemma {:induction false} PartKept(spec: Spec, n: int, seen: set<string>, part: int, upto: nat)
    requires spec.WellFormed() && spec.Has(n) && spec.nodes[n].Dict? && spec.Has(part)
    requires upto <= |spec.nodes[n].Parts()| && part in spec.nodes[n].Parts()[..upto]
    ensures forall p :: p in Object(spec, part, seen).0 ==> p in PartsObject(spec, n, seen, upto).0
    ensures PartsObject(spec, n, seen, upto).1 ==> Object(spec, part, seen).1
    decreases upto
  {
    hide Object;
    var parts := spec.nodes[n].Parts();
    var last := parts[upto - 1];
    assert parts[..upto] == parts[..upto - 1] + [last];
    var before := PartsObject(spec, n, seen, upto - 1);
    LastPart(spec, n, seen, upto);
    if part != last {
      PartKept(spec, n, seen, part, upto - 1);
    }
  }

  lemma LastPart(spec: Spec, n: int, seen: set<string>, upto: nat)
    requires spec.WellFormed() && spec.Has(n) && spec.nodes[n].Dict?
    requires 0 < upto <= |spec.nodes[n].Parts()|
    ensures spec.Has(spec.nodes[n].Parts()[upto - 1])
    ensures var sub := Object(spec, spec.nodes[n].Parts()[upto - 1], seen);
            var before := PartsObject(spec, n, seen, upto - 1);
            PartsObject(spec, n, seen, upto) == (before.0 + sub.0, before.1 && sub.1)
  {
    assert spec.nodes[n].Parts()[upto - 1] in spec.nodes[n].Parts() && spec.NestsBelow(n);
  }

  // The path cut loses nothing: reading a node yields exactly the properties
  // declared by the nodes it reaches, and it is resolvable exactly when none
  // of those is a dangling reference.
  lemma SchemaObjectExact(spec: Spec, n: int)
    requires spec.WellFormed() && spec.Has(n)
    ensures forall p :: p in Object(spec, n, {}).0 <==> Documents(spec, n, p)
    ensures forall p :: p in Object(spec, n, {}).0 ==> Offers(spec, n, p, Object(spec, n, {}).0[p])
    ensures Object(spec, n, {}).1 <==> !ReachesDangling(spec, n)
  {
    ObjectSound(spec, n, {});
    forall p, v | Offers(spec, n, p, v) ensures p in Object(spec, n, {}).0 {
      var m :| Reach(ComposeStep(spec), n, m) && Declares(spec, m, p) && spec.nodes[m].properties[p] == v;
      var via :| Walk(ComposeStep(spec), n, via, m);
      ObjectComplete(spec, n, {}, via, m);
    }
    if ReachesDangling(spec, n) {
      var m :| Reach(ComposeStep(spec), n, m) && Dangles(spec, m);
      var via :| Walk(ComposeStep(spec), n, via, m);
      ObjectComplete(spec, n, {}, via, m);
    }
  }

  // Which sub-schema a property gets when several are declared: the node's own,
  // and otherwise that of the last of its parts that has the property.
  lemma ValueWins(spec: Spec, n: int, seen: set<string>, p: string)
    requires spec.WellFormed() && spec.Has(n) && p in Object(spec, n, seen).0
    requires spec.nodes[n].Dict? && !spec.nodes[n].IsRef()
    ensures var v := Object(spec, n, seen).0[p];
            if p in spec.nodes[n].properties then v == spec.nodes[n].properties[p]
            else exists i :: LastWith(spec, spec.nodes[n].Parts(), seen, p, i, v)
  {
    hide Object, LastWith;
    ObjectOwns(spec, n, seen);
    if p !in spec.nodes[n].properties {
      var i := PartWins(spec, n, seen, p, |spec.nodes[n].Parts()|);
      assert spec.nodes[n].Parts()[..|spec.nodes[n].Parts()|] == spec.nodes[n].Parts();
    }
  }

  // Part i gives p the value v, and no part after it gives p any.
  ghost predicate LastWith(spec: Spec, parts: seq<int>, seen: set<string>, p: string, i: int, v: int)
    requires spec.WellFormed()
  {
    && 0 <= i < |parts| && PartGives(spec, parts[i], seen, p, v)
    && forall j, w :: i < j < |parts| ==> !PartGives(spec, parts[j], seen, p, w)
  }

  ghost predicate PartGives(spec: Spec, part: int, seen: set<string>, p: string, v: int)
    requires spec.WellFormed()
  {
    spec.Has(part) && p in Object(spec, part, seen).0 && Object(spec, part, seen).0[p] == v
  }

  lemma ObjectOwns(spec: Spec, n: int, seen: set<string>)
    requires spec.WellFormed() && spec.Has(n) && spec.nodes[n].Dict? && !spec.nodes[n].IsRef()
    ensures Object(spec, n, seen).0
         == PartsObject(spec, n, seen, |spec.nodes[n].Parts()|).0 + spec.nodes[n].properties
  {
  }

  lemma NoParts(spec: Spec, n: int, seen: set<string>)
    requires spec.WellFormed() && spec.Has(n) && spec.nodes[n].Dict?
    ensures PartsObject(spec, n, seen, 0).0 == map[]
  {
  }

  lemma {:induction false} PartWins(spec: Spec, n: int, seen: set<string>, p: string, k: nat) returns (i: int)
    requires spec.WellFormed() && spec.Has(n) && spec.nodes[n].Dict? && k <= |spec.nodes[n].Parts()|
    requires p in PartsObject(spec, n, seen, k).0
    ensures LastWith(spec, spec.nodes[n].Parts()[..k], seen, p, i, PartsObject(spec, n, seen, k).0[p])
    decreases k
  {
    hide Object, PartsObject;
    var parts := spec.nodes[n].Parts();
    NoParts(spec, n, seen);
    LastPart(spec, n, seen, k);
    assert parts[..k][..k - 1] == parts[..k - 1] && parts[..k][k - 1] == parts[k - 1];
    if p in Object(spec, parts[k - 1], seen).0 {
      i := k - 1;
      assert PartGives(spec, parts[..k][i], seen, p, PartsObject(spec, n, seen, k).0[p]);
    } else {
      i := PartWins(spec, n, seen, p, k - 1);
    }
  }

  // -------------------------------------------------------------- peel_schema

  datatype Wrapper = Array | Mapping

  // c lies one wrapper below n: n itself, or what its reference names, is a
  // mapping whose items or additionalProperties is the mapping c.
  ghost predicate Hop(spec: Spec, n: int, w: Wrapper, c: int) {
    spec.Has(n) && exists at :: StandsFor(spec, n, at) && HasBelow(spec, at, w, c)
  }

  ghost predicate StandsFor(spec: Spec, n: int, at: int)
    requires spec.Has(n)
  {
    if spec.nodes[n].IsRef() then spec.Target(NodeRef(spec, n)) == Some(at) else at == n
  }

  ghost predicate HasBelow(spec: Spec, at: int, w: Wrapper, c: int) {
    && spec.Has(at) && spec.nodes[at].Dict? && spec.Has(c) && spec.nodes[c].Dict?
    && (w == Array ==> spec.nodes[at].items == Some(c)) && (w == Mapping ==> spec.nodes[at].additional == Some(c))
  }

  lemma HopIff(spec: Spec, n: int, w: Wrapper)
    requires spec.WellFormed() && spec.Has(n)
    ensures forall c :: Hop(spec, n, w, c) <==> PeelOne(spec, n, w) == Some(c)
  {
    forall c ensures Hop(spec, n, w, c) <==> PeelOne(spec, n, w) == Some(c) {
      var at := if spec.nodes[n].IsRef() then spec.Target(NodeRef(spec, n)) else Some(n);
      if at.Some? {
        assert StandsFor(spec, n, at.value);
        assert spec.nodes[at.value].Dict? ==> spec.NestsBelow(at.value);
      }
    }
  }

  // One wrapper deeper, through at most one reference.
  function PeelOne(spec: Spec, n: int, w: Wrapper): (r: Option<int>)
    requires spec.WellFormed() && spec.Has(n)
    ensures r.Some? ==> spec.Has(r.value) && spec.nodes[r.value].Dict?
  {
    var at := if spec.nodes[n].IsRef() then spec.Target(NodeRef(spec, n)) else Some(n);
    if at == None || !spec.nodes[at.value].Dict? then None
    else
      var node := spec.nodes[at.value];
      assert spec.NestsBelow(at.value);
      var child := if w == Array then node.items else node.additional;
      if child.Some? && spec.nodes[child.value].Dict? then child else None
  }

  function Peel(spec: Spec, n: int, ws: seq<Wrapper>): (r: Option<int>)
    requires spec.WellFormed() && spec.Has(n)
    ensures r.Some? ==> spec.Has(r.value) && (ws != [] ==> spec.nodes[r.value].Dict?)
    decreases |ws|
  {
    if ws == [] then Some(n)
    else match PeelOne(spec, n, ws[0])
      case None => None
      case Some(c) => Peel(spec, c, ws[1..])
  }

  method PeelSchema(spec: Spec, n: int, ws: seq<Wrapper>) returns (r: Option<int>)
    requires spec.WellFormed() && spec.Has(n)
    ensures r == Peel(spec, n, ws)
    ensures r.Some? && ws != [] ==> spec.nodes[r.value].Dict?
  {
    var node := n;
    for i := 0 to |ws|
      invariant spec.Has(node) && Peel(spec, n, ws) == Peel(spec, node, ws[i..])
    {
      if !spec.nodes[node].Dict? {
        return None;
      }
      var at := node;
      if spec.nodes[node].IsRef() {
        match spec.Target(NodeRef(spec, node)) {
          case None => return None;
          case Some(t) => at := t;
        }
      }
      assert spec.NestsBelow(at);
      var child := if ws[i] == Array then spec.nodes[at].items else spec.nodes[at].additional;
      if child == None || !spec.nodes[child.value].Dict? {
        return None;
      }
      assert ws[i..][1..] == ws[i + 1..];
      node := child.value;
    }
    r := Some(node);
  }
}
