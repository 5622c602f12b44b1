// The memoised walk over (struct, schema node) pairs that reports every
// difference between Go field tags and documented properties.
module ParityCheck {
  import opened Options
  import opened Reachability
  import opened ParitySchema
  import opened ParityGo

  datatype Pair = Pair(key: GoKey, node: int)

  datatype Finding =
    | Dangling(at: Pair)
    | Undocumented(at: Pair, tag: string)
    | Stale(at: Pair, prop: string)

  // A reported line: where it was found and the path of fields leading there.
  datatype Problem = Problem(path: string, finding: Finding)

  // The two inputs of the check.
  datatype Input = Input(idx: Index, spec: Spec) {
    ghost predicate WellFormed() {
      spec.WellFormed()
    }

    ghost predicate Has(x: Pair) {
      x.key in idx.structs && spec.Has(x.node)
    }

    ghost function AllPairs(): set<Pair> {
      set k, n | k in idx.structs.Keys && 0 <= n < |spec.nodes| :: Pair(k, n)
    }

    function PropsAt(x: Pair): Props
      requires spec.WellFormed() && spec.Has(x.node)
    {
      Object(spec, x.node, {}).0
    }

    function TagsAt(x: Pair): Tags {
      Inlined(idx, x.key, {}).0
    }

    // Everything that ought to be reported about one pair.
    ghost function FindingsAt(x: Pair): set<Finding>
      requires WellFormed() && Has(x)
    {
      if !Object(spec, x.node, {}).1 then {Dangling(x)}
      else UndocumentedAt(x, TagsAt(x).Keys - PropsAt(x).Keys)
           + StaleAt(x, if Inlined(idx, x.key, {}).1 then PropsAt(x).Keys - TagsAt(x).Keys else {})
    }

    ghost function ComparedAt(x: Pair): nat
      requires WellFormed() && Has(x)
    {
      if !Object(spec, x.node, {}).1 then 0 else |TagsAt(x).Keys + PropsAt(x).Keys|
    }

    // The pair a shared field leads to, if it leads to one worth comparing.
    function Descend(x: Pair, tag: string): (r: Option<Pair>)
      requires spec.WellFormed() && spec.Has(x.node) && tag in TagsAt(x) && tag in PropsAt(x)
      ensures r.Some? ==> Has(r.value)
    {
      var o := TagsAt(x)[tag];
      var (sub, ws) := Resolve(idx, o.holder, o.typ);
      if sub == None then None
      else match Peel(spec, PropsAt(x)[tag], ws)
        case None => None
        case Some(n) => if Object(spec, n, {}).0 == map[] then None else Some(Pair(sub.value, n))
    }

    ghost predicate LeadsBy(x: Pair, tag: string, y: Pair) {
      && WellFormed() && Has(x) && Object(spec, x.node, {}).1
      && tag in TagsAt(x) && tag in PropsAt(x) && Descend(x, tag) == Some(y)
    }

    ghost predicate Shares(x: Pair, y: Pair) {
      exists tag :: LeadsBy(x, tag, y)
    }

    // A same-named struct and schema: where the walk starts.
    ghost predicate Root(name: string) {
      name in spec.schemas && GoKey(API, name) in idx.structs
    }

    ghost function RootPair(name: string): Pair
      requires Root(name)
    {
      Pair(GoKey(API, name), spec.schemas[name])
    }

    ghost predicate Reached(x: Pair) {
      exists name :: Root(name) && Reach(ShareStep(this), RootPair(name), x)
    }
  }

  const API := "internal/api"

  ghost function UndocumentedAt(x: Pair, tags: set<string>): set<Finding> {
    set t | t in tags :: Undocumented(x, t)
  }

  ghost function StaleAt(x: Pair, props: set<string>): set<Finding> {
    set p | p in props :: Stale(x, p)
  }

  ghost function ShareStep(input: Input): (Pair, Pair) -> bool {
    (x, y) => input.Shares(x, y)
  }

  // Following the listed shared fields from x leads to y.
  ghost predicate Trail(input: Input, x: Pair, tags: seq<string>, y: Pair)
    decreases |tags|
  {
    if tags == [] then x == y
    else exists z :: input.LeadsBy(x, tags[0], z) && Trail(input, z, tags[1..], y)
  }

  function Dotted(tags: seq<string>): string {
    if tags == [] then "" else "." + tags[0] + Dotted(tags[1..])
  }

  // `path` spells a path of shared fields from the pair x, named `from`,
  // to the pair y.
  ghost predicate Spells(input: Input, x: Pair, from: string, y: Pair, path: string) {
    exists tags :: Trail(input, x, tags, y) && path == from + Dotted(tags)
  }

  lemma DottedFront(tag: string, tags: seq<string>, from: string)
    ensures from + Dotted([tag] + tags) == from + "." + tag + Dotted(tags)
  {
    assert ([tag] + tags)[1..] == tags;
  }

  lemma TrailFront(input: Input, x: Pair, tag: string, z: Pair, tags: seq<string>, y: Pair)
    requires input.LeadsBy(x, tag, z) && Trail(input, z, tags, y)
    ensures Trail(input, x, [tag] + tags, y)
  {
    var all := [tag] + tags;
    assert all[0] == tag && all[1..] == tags;
    assert input.LeadsBy(x, all[0], z) && Trail(input, z, all[1..], y);
  }

  lemma SpellsFront(input: Input, x: Pair, from: string, tag: string, z: Pair, y: Pair, path: string)
    requires input.LeadsBy(x, tag, z) && Spells(input, z, from + "." + tag, y, path)
    ensures Spells(input, x, from, y, path)
  {
    var tags :| Trail(input, z, tags, y) && path == from + "." + tag + Dotted(tags);
    TrailFront(input, x, tag, z, tags, y);
    DottedFront(tag, tags, from);
  }

  ghost function FindingSet(ps: seq<Problem>): set<Finding> {
    set p | p in ps :: p.finding
  }

  lemma FindingSetAppend(ps: seq<Problem>, qs: seq<Problem>)
    ensures FindingSet(ps + qs) == FindingSet(ps) + FindingSet(qs)
  {
  }

  // ----------------------------------------------------------- what agreement is

  // A pair agrees when its schema has no dangling reference, every Go tag is
  // documented and, unless some embed is out of sight, nothing else is.
  ghost predicate Agrees(input: Input, x: Pair) {
    && !ReachesDangling(input.spec, x.node)
    && (forall tag :: Carries(input.idx, x.key, tag) ==> Documents(input.spec, x.node, tag))
    && (!ReachesOpaque(input.idx, x.key) ==>
          forall p :: Documents(input.spec, x.node, p) ==> Carries(input.idx, x.key, p))
  }

  // The same, in terms of the sets the checker computes.
  lemma AgreesBySets(input: Input, x: Pair)
    requires input.WellFormed() && input.Has(x)
    ensures Agrees(input, x) <==>
      && Object(input.spec, x.node, {}).1
      && input.TagsAt(x).Keys <= input.PropsAt(x).Keys
      && (Inlined(input.idx, x.key, {}).1 ==> input.PropsAt(x).Keys <= input.TagsAt(x).Keys)
  {
    SchemaObjectExact(input.spec, x.node);
    GoFieldsExact(input.idx, x.key);
  }

  // What ought to be reported, told from the document and the structs alone.
  ghost predicate Due(input: Input, f: Finding) {
    match f
    case Dangling(x) => ReachesDangling(input.spec, x.node)
    case Undocumented(x, tag) =>
      && !ReachesDangling(input.spec, x.node)
      && Carries(input.idx, x.key, tag) && !Documents(input.spec, x.node, tag)
    case Stale(x, prop) =>
      && !ReachesDangling(input.spec, x.node) && !ReachesOpaque(input.idx, x.key)
      && Documents(input.spec, x.node, prop) && !Carries(input.idx, x.key, prop)
  }

  // The check's own sets find exactly that.
  lemma FindingsExact(input: Input, x: Pair)
    requires input.WellFormed() && input.Has(x)
    ensures forall f :: f in input.FindingsAt(x) <==> f.at == x && Due(input, f)
  {
    hide Object, Inlined, Documents, Carries, ReachesDangling, ReachesOpaque;
    SchemaObjectExact(input.spec, x.node);
    GoFieldsExact(input.idx, x.key);
  }

  // The names counted as compared: those either side has.
  lemma ComparedExact(input: Input, x: Pair) returns (names: set<string>)
    requires input.WellFormed() && input.Has(x)
    ensures input.ComparedAt(x) == |names|
    ensures forall t :: t in names <==>
      !ReachesDangling(input.spec, x.node) && (Carries(input.idx, x.key, t) || Documents(input.spec, x.node, t))
  {
    hide Object, Inlined, Documents, Carries, ReachesDangling;
    SchemaObjectExact(input.spec, x.node);
    GoFieldsExact(input.idx, x.key);
    names := if Object(input.spec, x.node, {}).1 then input.TagsAt(x).Keys + input.PropsAt(x).Keys else {};
  }

  // The check's own sets decide agreement exactly: no blind spot from either
  // path cut, and no accusation drawn from one.
  lemma NoFindingsIffAgrees(input: Input, x: Pair)
    requires input.WellFormed() && input.Has(x)
    ensures input.FindingsAt(x) == {} <==> Agrees(input, x)
  {
    hide Input.FindingsAt;
    FindingsExact(input, x);
    if !Agrees(input, x) {
      var f := Disagreement(input, x);
      assert f in input.FindingsAt(x);
    } else if f :| f in input.FindingsAt(x) {
      assert Due(input, f);
    }
  }

  lemma Disagreement(input: Input, x: Pair) returns (f: Finding)
    requires !Agrees(input, x)
    ensures f.at == x && Due(input, f)
  {
    hide ReachesDangling, ReachesOpaque, Carries, Documents;
    if ReachesDangling(input.spec, x.node) {
      f := Dangling(x);
    } else if tag :| Carries(input.idx, x.key, tag) && !Documents(input.spec, x.node, tag) {
      f := Undocumented(x, tag);
    } else {
      var prop :| Documents(input.spec, x.node, prop) && !Carries(input.idx, x.key, prop);
      f := Stale(x, prop);
    }
  }

  // ------------------------------------------------------ peeling in step

  // Schema node n describes the Go type t over a base described by node b: one
  // level of items per slice and of additionalProperties per map, none for a
  // pointer, and at most one reference at each level.
  ghost predicate Describes(spec: Spec, n: int, t: GoType, b: int)
    decreases t
  {
    match t
    case Base(_) => n == b
    case Star(e) => Describes(spec, n, e, b)
    case Slice(e) => exists c :: Hop(spec, n, Array, c) && Describes(spec, c, e, b)
    case MapOf(_, e) => exists c :: Hop(spec, n, Mapping, c) && Describes(spec, c, e, b)
  }

  lemma {:induction false} DescribesIff(spec: Spec, n: int, t: GoType, b: int)
    requires spec.WellFormed() && spec.Has(n)
    ensures Peel(spec, n, Wrappers(t)) == Some(b) <==> Describes(spec, n, t, b)
    decreases t, 0
  {
    match t {
      case Base(_) =>
      case Star(e) => DescribesIff(spec, n, e, b);
      case Slice(e) => DescribesLevel(spec, n, Array, e, b);
      case MapOf(_, e) => DescribesLevel(spec, n, Mapping, e, b);
    }
  }

  lemma {:induction false} DescribesLevel(spec: Spec, n: int, w: Wrapper, e: GoType, b: int)
    requires spec.WellFormed() && spec.Has(n)
    ensures Peel(spec, n, [w] + Wrappers(e)) == Some(b) <==> exists c :: Hop(spec, n, w, c) && Describes(spec, c, e, b)
    decreases e, 1
  {
    var ws := [w] + Wrappers(e);
    assert ws[0] == w && ws[1..] == Wrappers(e);
    HopIff(spec, n, w);
    var c := PeelOne(spec, n, w);
    if c.Some? {
      DescribesIff(spec, c.value, e, b);
    }
  }

  // Peeling the schema by the wrappers of a Go type, as they are read off its
  // spelling, ends at b exactly when the schema describes that type over b.
  lemma PeelInStep(spec: Spec, n: int, t: GoType, b: int)
    requires spec.WellFormed() && spec.Has(n) && Plain(t) && '\n' !in Spell(t)
    ensures Peel(spec, n, PeelType(Spell(t)).1) == Some(b) <==> Describes(spec, n, t, b)
  {
    PeelUndoesSpell(t);
    DescribesIff(spec, n, t, b);
  }

  // Which pair a shared field leads to, told from the document and the structs:
  // for a tag whose Go type is spelled as t, the struct that the base name of t
  // denotes where the tag is held, and the schema node that the property
  // describes t over, if that node documents anything.
  lemma LeadsByIff(input: Input, x: Pair, tag: string, t: GoType, y: Pair)
    requires input.WellFormed() && input.Has(x) && tag in input.TagsAt(x) && tag in input.PropsAt(x)
    requires input.TagsAt(x)[tag].typ == Spell(t) && Plain(t) && '\n' !in Spell(t)
    ensures input.LeadsBy(x, tag, y) <==>
      && !ReachesDangling(input.spec, x.node)
      && Denotes(input.idx, input.TagsAt(x)[tag].holder, BaseName(t), y.key)
      && Describes(input.spec, input.PropsAt(x)[tag], t, y.node)
      && exists p :: Documents(input.spec, y.node, p)
  {
    hide Object, Inlined, PeelType, Peel, Denotes, Describes, Documents, ReachesDangling;
    var o := input.TagsAt(x)[tag];
    SchemaObjectExact(input.spec, x.node);
    ResolveSpelledIff(input.idx, o.holder, t, y.key);
    PeelUndoesSpell(t);
    PeelInStep(input.spec, input.PropsAt(x)[tag], t, y.node);
    if Peel(input.spec, input.PropsAt(x)[tag], Wrappers(t)) == Some(y.node) {
      SchemaObjectExact(input.spec, y.node);
      var props := Object(input.spec, y.node, {}).0;
      if props != map[] {
        var p :| p in props;
        assert Documents(input.spec, y.node, p);
      }
    }
  }

  // ------------------------------------------------- dangling references missed

  // A struct-typed field both sides share is looked into exactly when its
  // schema can be peeled as deep as its type and then documents a property.
  lemma FieldSeenIff(input: Input, x: Pair, tag: string)
    requires input.WellFormed() && input.Has(x) && Object(input.spec, x.node, {}).1
    requires tag in input.TagsAt(x) && tag in input.PropsAt(x)
    requires Resolve(input.idx, input.TagsAt(x)[tag].holder, input.TagsAt(x)[tag].typ).0.Some?
    ensures var ws := Resolve(input.idx, input.TagsAt(x)[tag].holder, input.TagsAt(x)[tag].typ).1;
            var n := Peel(input.spec, input.PropsAt(x)[tag], ws);
            (exists y :: input.LeadsBy(x, tag, y)) <==> n.Some? && exists p :: Documents(input.spec, n.value, p)
  {
    hide Offers, Object, PeelType, Peel;
    var o := input.TagsAt(x)[tag];
    var n := Peel(input.spec, input.PropsAt(x)[tag], Resolve(input.idx, o.holder, o.typ).1);
    if n.Some? {
      SchemaObjectExact(input.spec, n.value);
      var props := Object(input.spec, n.value, {}).0;
      if props != map[] {
        var p :| p in props;
        assert Documents(input.spec, n.value, p);
        assert input.LeadsBy(x, tag, input.Descend(x, tag).value);
      }
    }
  }

  // A dangling reference stands where a wrapper should be peeled, or is reached
  // from what is left when all are.
  ghost predicate MeetsDangling(spec: Spec, n: int, ws: seq<Wrapper>)
    requires spec.WellFormed() && spec.Has(n)
    decreases |ws|
  {
    if ws == [] then ReachesDangling(spec, n)
    else Dangles(spec, n) || (PeelOne(spec, n, ws[0]).Some? &&
                              MeetsDangling(spec, PeelOne(spec, n, ws[0]).value, ws[1..]))
  }

  // So a field that meets one is silently passed over in just two ways: the
  // reference stops the peeling, or what is left documents nothing.
  lemma DanglingFieldPassedIff(input: Input, x: Pair, tag: string)
    requires input.WellFormed() && input.Has(x) && Object(input.spec, x.node, {}).1
    requires tag in input.TagsAt(x) && tag in input.PropsAt(x)
    requires Resolve(input.idx, input.TagsAt(x)[tag].holder, input.TagsAt(x)[tag].typ).0.Some?
    requires var ws := Resolve(input.idx, input.TagsAt(x)[tag].holder, input.TagsAt(x)[tag].typ).1;
             MeetsDangling(input.spec, input.PropsAt(x)[tag], ws)
    ensures var ws := Resolve(input.idx, input.TagsAt(x)[tag].holder, input.TagsAt(x)[tag].typ).1;
            var n := Peel(input.spec, input.PropsAt(x)[tag], ws);
            && ((forall y :: !input.LeadsBy(x, tag, y)) <==>
                  StopsAtDangling(input.spec, input.PropsAt(x)[tag], ws)
                  || (n.Some? && forall p :: !Documents(input.spec, n.value, p)))
            && (n.Some? ==> ReachesDangling(input.spec, n.value))
  {
    hide Offers, Object, PeelType, Documents, ReachesDangling;
    FieldSeenIff(input, x, tag);
    var ws := Resolve(input.idx, input.TagsAt(x)[tag].holder, input.TagsAt(x)[tag].typ).1;
    PeelMeets(input.spec, input.PropsAt(x)[tag], ws);
  }

  ghost predicate StopsAtDangling(spec: Spec, n: int, ws: seq<Wrapper>)
    requires spec.WellFormed() && spec.Has(n)
  {
    exists k, c :: PeelsUpTo(spec, n, ws, k, c) && Dangles(spec, c)
  }

  // After fewer wrappers than there are, the peeling stands at c.
  ghost predicate PeelsUpTo(spec: Spec, n: int, ws: seq<Wrapper>, k: int, c: int)
    requires spec.WellFormed() && spec.Has(n)
  {
    0 <= k < |ws| && Peel(spec, n, ws[..k]) == Some(c)
  }

  lemma {:induction false} PeelMeets(spec: Spec, n: int, ws: seq<Wrapper>)
    requires spec.WellFormed() && spec.Has(n) && MeetsDangling(spec, n, ws)
    ensures match Peel(spec, n, ws) case Some(m) => ReachesDangling(spec, m) case None => StopsAtDangling(spec, n, ws)
    ensures StopsAtDangling(spec, n, ws) ==> Peel(spec, n, ws) == None
    decreases |ws|
  {
    if ws == [] {
    } else if Dangles(spec, n) {
      assert PeelsUpTo(spec, n, ws, 0, n);
    } else {
      var c := PeelOne(spec, n, ws[0]).value;
      PeelMeets(spec, c, ws[1..]);
      forall k, d | PeelsUpTo(spec, c, ws[1..], k, d) ensures PeelsUpTo(spec, n, ws, k + 1, d) {
        assert ws[..k + 1][1..] == ws[1..][..k];
      }
      forall k, d | PeelsUpTo(spec, n, ws, k, d) && Dangles(spec, d) ensures PeelsUpTo(spec, c, ws[1..], k - 1, d) {
        assert ws[..k] != [] && ws[..k][1..] == ws[1..][..k - 1];
      }
      StopsShift(spec, n, c, ws);
    }
  }

  lemma StopsShift(spec: Spec, n: int, c: int, ws: seq<Wrapper>)
    requires spec.WellFormed() && spec.Has(n) && spec.Has(c) && ws != []
    requires forall k, d :: PeelsUpTo(spec, c, ws[1..], k, d) ==> PeelsUpTo(spec, n, ws, k + 1, d)
    requires forall k, d :: PeelsUpTo(spec, n, ws, k, d) && Dangles(spec, d) ==> PeelsUpTo(spec, c, ws[1..], k - 1, d)
    ensures StopsAtDangling(spec, n, ws) <==> StopsAtDangling(spec, c, ws[1..])
  {
  }

  // A pair whose schema documents nothing is reached only as a root, any other
  // also through the fields that lead to it.
  lemma ReachedIfLed(input: Input, x: Pair, tag: string, y: Pair)
    requires input.Reached(x) && input.LeadsBy(x, tag, y)
    ensures input.Reached(y)
  {
    var name :| input.Root(name) && Reach(ShareStep(input), input.RootPair(name), x);
    assert input.Shares(x, y);
    ReachBack(ShareStep(input), input.RootPair(name), x, y);
  }

  lemma EmptyIsReachedAsRoot(input: Input, y: Pair)
    requires input.Reached(y) && input.spec.WellFormed() && input.spec.Has(y.node)
        && Object(input.spec, y.node, {}).0 == map[]
    ensures exists name :: input.Root(name) && input.RootPair(name) == y
  {
    var name :| input.Root(name) && Reach(ShareStep(input), input.RootPair(name), y);
    if input.RootPair(name) != y {
      var z := LastStep(ShareStep(input), input.RootPair(name), y);
    }
  }

  // A document whose only schema gives "b" and "l" a reference to nothing, for
  // a struct and for a list of it.
  function GoneSpec(): Spec {
    Spec([Dict(Some("#/components/schemas/Gone"), [], [], [], map[], None, None),
          Dict(None, [], [], [], map["b" := 0, "l" := 0], None, None)],
         map["A" := 1])
  }

  function GoneIndex(): Index {
    Index(map[GoKey(API, "A") := [Tagged("b", "B"), Tagged("l", "[]B")],
              GoKey(API, "B") := [Tagged("c", "string")]], map[])
  }

  function GonePair(): Pair {
    Pair(GoKey(API, "A"), 1)
  }

  // So "every dangling reference met is reported" is false: here both fields
  // are of struct type and their schema dangles, the first is passed over
  // because nothing is documented there, the second because it cannot be
  // peeled, and the pair has no finding.
  lemma DanglingFieldsUnseen()
    ensures var input, x := Input(GoneIndex(), GoneSpec()), GonePair();
            && input.WellFormed() && input.Has(x)
            && input.TagsAt(x).Keys == input.PropsAt(x).Keys == {"b", "l"}
            && input.PropsAt(x)["b"] == input.PropsAt(x)["l"] == 0 && Dangles(input.spec, 0)
            && Resolve(input.idx, x.key, "B") == (Some(GoKey(API, "B")), [])
            && Resolve(input.idx, x.key, "[]B") == (Some(GoKey(API, "B")), [Array])
            && MeetsDangling(input.spec, 0, []) && MeetsDangling(input.spec, 0, [Array])
            && input.FindingsAt(x) == {} && forall y :: !input.Shares(x, y)
  {
    hide PeelType, Find, InlinedFields, PartsObject, Object, Inlined, Input.FindingsAt, Input.Descend, PeelOne,
         ReachesDangling, Resolve, Dangles;
    var input, x := Input(GoneIndex(), GoneSpec()), GonePair();
    GoneSide();
    GoneFields();
    GoneDangles();
    GoneFindings();
    GonePassed();
    assert x.key in input.idx.structs;
  }

  lemma GoneDangles()
    ensures Dangles(GoneSpec(), 0) && ReachesDangling(GoneSpec(), 0)
  {
    GoneName();
    ReachSelf(ComposeStep(GoneSpec()), 0);
  }

  lemma GoneFindings()
    ensures var input := Input(GoneIndex(), GoneSpec());
            input.WellFormed() && input.Has(GonePair()) && input.FindingsAt(GonePair()) == {}
  {
    hide Object, Inlined;
    GoneSide();
    GoneFields();
    var input, x := Input(GoneIndex(), GoneSpec()), GonePair();
    assert input.TagsAt(x).Keys == input.PropsAt(x).Keys == {"b", "l"};
    assert UndocumentedAt(x, {}) == {} && StaleAt(x, {}) == {};
  }

  // Field "b" peels to a node that documents nothing, field "l" not at all.
  lemma GonePassed()
    ensures forall y :: !Input(GoneIndex(), GoneSpec()).Shares(GonePair(), y)
  {
    hide Object, Inlined, Resolve, Peel, PeelOne, GoneSpec, GoneIndex, Spec.WellFormed;
    GoneSide();
    GoneFields();
    GonePeels();
    var input, x := Input(GoneIndex(), GoneSpec()), GonePair();
    assert input.TagsAt(x).Keys == {"b", "l"};
    assert input.Descend(x, "b") == None && input.Descend(x, "l") == None;
  }

  lemma GonePeels()
    ensures GoneSpec().WellFormed() && GoneSpec().Has(0) && GoneSpec().Has(1)
    ensures Peel(GoneSpec(), 0, [Array]) == None && Peel(GoneSpec(), 0, []) == Some(0)
  {
    GoneWellFormed();
    GoneName();
    assert PeelOne(GoneSpec(), 0, Array) == None;
  }

  // And no other pair is reached, so the whole run is clean.
  lemma DanglingRunIsClean()
    ensures var input := Input(GoneIndex(), GoneSpec());
            (forall y :: input.Reached(y) <==> y == GonePair()) && Agrees(input, GonePair())
  {
    hide Object, Inlined, Agrees, Input.FindingsAt, Input.Descend, MeetsDangling, Dangles, Resolve;
    var input, x := Input(GoneIndex(), GoneSpec()), GonePair();
    DanglingFieldsUnseen();
    NoFindingsIffAgrees(input, x);
    assert input.Root("A") && input.RootPair("A") == x;
    ReachSelf(ShareStep(input), x);
    forall y | input.Reached(y) ensures y == x {
      var name :| input.Root(name) && Reach(ShareStep(input), input.RootPair(name), y);
      assert name == "A";
      ClosedHoldsReach(ShareStep(input), {x}, x, y);
    }
  }

  lemma GoneSide()
    ensures GoneSpec().WellFormed()
    ensures Object(GoneSpec(), 1, {}) == (map["b" := 0, "l" := 0], true)
    ensures Object(GoneSpec(), 0, {}) == (map[], false)
  {
    GoneWellFormed();
    GoneName();
    GoneOwner();
  }

  lemma GoneWellFormed()
    ensures GoneSpec().WellFormed()
  {
  }

  lemma GoneOwner()
    ensures GoneSpec().WellFormed() && Object(GoneSpec(), 1, {}) == (map["b" := 0, "l" := 0], true)
  {
    GoneWellFormed();
    var node := GoneSpec().nodes[1];
    assert node.Dict? && !node.IsRef() && node.Parts() == [];
    var parts := PartsObject(GoneSpec(), 1, {}, 0);
    assert parts.0 + node.properties == map["b" := 0, "l" := 0];
  }

  lemma GoneFields()
    ensures Inlined(GoneIndex(), GoKey(API, "A"), {})
         == (map["b" := Origin("B", GoKey(API, "A")), "l" := Origin("[]B", GoKey(API, "A"))], true)
    ensures Resolve(GoneIndex(), GoKey(API, "A"), "B") == (Some(GoKey(API, "B")), [])
    ensures Resolve(GoneIndex(), GoKey(API, "A"), "[]B") == (Some(GoKey(API, "B")), [Array])
  {
    hide PeelType, Find;
    var idx, key := GoneIndex(), GoKey(API, "A");
    assert idx.Fields(key) == [Tagged("b", "B"), Tagged("l", "[]B")];
    assert InlinedFields(idx, key, {}, 0) == (map[], true);
    assert InlinedFields(idx, key, {}, 1) == (map["b" := Origin("B", key)], true);
    GoneTypes();
  }

  lemma GoneTypes()
    ensures PeelType("B") == ("B", []) && PeelType("[]B") == ("B", [Array]) && Find("B", '.') == 1
  {
    var list := Slice(Base("B"));
    assert Spell(list) == "[]" + "B" == "[]B";
    PeelUndoesSpell(Base("B"));
    PeelUndoesSpell(list);
    assert Wrappers(list) == [Array] + [] == [Array] && BaseName(list) == BaseName(list.elem) == "B";
  }

  lemma GoneName()
    ensures NodeRef(GoneSpec(), 0) != "A"
  {
    RefNameSuffix("#/components/schemas/Gone");
    var r := RefName("#/components/schemas/Gone");
    assert "#/components/schemas/Gone"[24] == 'e';
  }

  // --------------------------------------------------------------- bookkeeping

  ghost function TotalCompared(input: Input, visits: seq<Pair>): nat
    requires input.WellFormed() && forall x :: x in visits ==> input.Has(x)
  {
    if visits == [] then 0
    else TotalCompared(input, visits[..|visits| - 1]) + input.ComparedAt(visits[|visits| - 1])
  }

  ghost predicate Distinct(s: seq<Pair>) {
    forall i, j :: 0 <= i < j < |s| ==> s[i] != s[j]
  }

  // Each pair is compared once; the problems are exactly what ought to be
  // reported about the compared pairs, each once; the field count is theirs.
  ghost predicate Ledger(input: Input, visits: seq<Pair>, bound: set<Pair>, problems: seq<Problem>, compared: int)
    requires input.WellFormed()
  {
    && (forall x :: x in visits <==> x in bound)
    && (forall x :: x in bound ==> input.Has(x))
    && Distinct(visits)
    && (forall f :: f in FindingSet(problems) <==> f.at in bound && f in input.FindingsAt(f.at))
    && |problems| == |FindingSet(problems)|
    && compared == TotalCompared(input, visits)
  }

  lemma FindingsName(input: Input, x: Pair)
    requires input.WellFormed() && input.Has(x)
    ensures forall f :: f in input.FindingsAt(x) ==> f.at == x
  {
  }

  lemma LedgerAppend(input: Input, visits: seq<Pair>, bound: set<Pair>, problems: seq<Problem>, compared: int,
                     x: Pair, ps: seq<Problem>, more: nat)
    requires input.WellFormed() && Ledger(input, visits, bound, problems, compared)
    requires input.Has(x) && x !in bound
    requires FindingSet(ps) == input.FindingsAt(x) && |ps| == |input.FindingsAt(x)| && more == input.ComparedAt(x)
    ensures Ledger(input, visits + [x], bound + {x}, problems + ps, compared + more)
  {
    LedgerFindings(input, bound, problems, x, ps);
    var next := visits + [x];
    assert next[..|visits|] == visits;
  }

  lemma LedgerFindings(input: Input, bound: set<Pair>, problems: seq<Problem>, x: Pair, ps: seq<Problem>)
    requires input.WellFormed() && input.Has(x) && forall y :: y in bound ==> input.Has(y)
    requires forall f :: f in FindingSet(problems) <==> f.at in bound && f in input.FindingsAt(f.at)
    requires FindingSet(ps) == input.FindingsAt(x)
    ensures forall f :: f in FindingSet(problems + ps) <==> f.at in bound + {x} && f in input.FindingsAt(f.at)
    ensures x !in bound ==> |FindingSet(problems + ps)| == |FindingSet(problems)| + |FindingSet(ps)|
  {
    hide Input.FindingsAt;
    FindingsName(input, x);
    FindingSetAppend(problems, ps);
    if x !in bound {
      assert FindingSet(problems) !! FindingSet(ps);
    }
  }

  // The problem lines about undocumented tags, in any order of names.
  method ReportUndocumented(path: string, x: Pair, tags: set<string>) returns (ps: seq<Problem>)
    ensures FindingSet(ps) == UndocumentedAt(x, tags) && |ps| == |UndocumentedAt(x, tags)|
    ensures forall p :: p in ps ==> p.path == path
  {
    ps := [];
    var rest := tags;
    while rest != {}
      invariant rest <= tags
      invariant FindingSet(ps) == UndocumentedAt(x, tags - rest) && |ps| == |UndocumentedAt(x, tags - rest)|
      invariant forall p :: p in ps ==> p.path == path
      decreases rest
    {
      var tag :| tag in rest;
      var p := Problem(path, Undocumented(x, tag));
      FindingSetAppend(ps, [p]);
      assert FindingSet([p]) == {p.finding};
      assert UndocumentedAt(x, tags - (rest - {tag})) == UndocumentedAt(x, tags - rest) + {p.finding};
      ps := ps + [p];
      rest := rest - {tag};
    }
  }

  // The problem lines about stale properties, in any order of names.
  method ReportStale(path: string, x: Pair, props: set<string>) returns (ps: seq<Problem>)
    ensures FindingSet(ps) == StaleAt(x, props) && |ps| == |StaleAt(x, props)|
    ensures forall p :: p in ps ==> p.path == path
  {
    ps := [];
    var rest := props;
    while rest != {}
      invariant rest <= props
      invariant FindingSet(ps) == StaleAt(x, props - rest) && |ps| == |StaleAt(x, props - rest)|
      invariant forall p :: p in ps ==> p.path == path
      decreases rest
    {
      var prop :| prop in rest;
      var p := Problem(path, Stale(x, prop));
      FindingSetAppend(ps, [p]);
      assert FindingSet([p]) == {p.finding};
      assert StaleAt(x, props - (rest - {prop})) == StaleAt(x, props - rest) + {p.finding};
      ps := ps + [p];
      rest := rest - {prop};
    }
  }

  lemma DisjointFindings(x: Pair, tags: set<string>, props: set<string>)
    ensures |UndocumentedAt(x, tags) + StaleAt(x, props)| == |UndocumentedAt(x, tags)| + |StaleAt(x, props)|
  {
    assert UndocumentedAt(x, tags) !! StaleAt(x, props);
  }

  predicate IsUpper(name: string) {
    name != [] && 'A' <= name[0] <= 'Z'
  }

  // The one problem line about a pair whose schema dangles.
  method ReportDangling(ghost input: Input, path: string, x: Pair) returns (ps: seq<Problem>)
    requires input.WellFormed() && input.Has(x) && !Object(input.spec, x.node, {}).1
    ensures FindingSet(ps) == input.FindingsAt(x) && |ps| == |input.FindingsAt(x)|
    ensures forall p :: p in ps ==> p.path == path && p.finding.at == x
  {
    ps := [Problem(path, Dangling(x))];
    assert FindingSet(ps) == {ps[0].finding};
  }

  // A resolvable pair's own problem lines.
  method ReportDrift(ghost input: Input, path: string, x: Pair, tags: Tags, props: Props, complete: bool)
      returns (ps: seq<Problem>)
    requires input.WellFormed() && input.Has(x)
    requires Object(input.spec, x.node, {}) == (props, true) && Inlined(input.idx, x.key, {}) == (tags, complete)
    ensures FindingSet(ps) == input.FindingsAt(x) && |ps| == |input.FindingsAt(x)|
    ensures forall p :: p in ps ==> p.path == path && p.finding.at == x
  {
    var undocumented := ReportUndocumented(path, x, tags.Keys - props.Keys);
    var late := if complete then props.Keys - tags.Keys else {};
    var stale := ReportStale(path, x, late);
    ps := undocumented + stale;
    FindingSetAppend(undocumented, stale);
    DisjointFindings(x, tags.Keys - props.Keys, late);
    FindingsName(input, x);
    forall p: Problem | p in ps ensures p.finding.at == x {
      assert p.finding in FindingSet(ps);
    }
  }

  class SchemaCheck {
    const input: Input
    var problems: seq<Problem>
    var bound: set<Pair>
    var fieldsCompared: nat
    var unbound: seq<string>
    ghost var visits: seq<Pair> // the bound pairs in the order they were compared

    constructor (input: Input)
      requires input.WellFormed()
      ensures Valid() && this.input == input
      ensures problems == [] && bound == {} && fieldsCompared == 0 && unbound == [] && visits == []
    {
      this.input := input;
      problems, bound, fieldsCompared, unbound, visits := [], {}, 0, [], [];
    }

    ghost predicate Valid()
      reads this
    {
      input.WellFormed() && Ledger(input, visits, bound, problems, fieldsCompared)
    }

    // Record one pair's own outcome.
    method Record(x: Pair, path: string, ps: seq<Problem>, compared: nat)
      requires Valid() && input.Has(x) && x !in bound
      requires forall p :: p in ps ==> p.path == path && p.finding.at == x
      requires FindingSet(ps) == input.FindingsAt(x) && |ps| == |input.FindingsAt(x)|
      requires compared == input.ComparedAt(x)
      modifies this
      ensures Valid() && bound == old(bound) + {x} && visits == old(visits) + [x]
      ensures problems == old(problems) + ps && Extends(old(problems), old(bound), x, path)
      ensures fieldsCompared == old(fieldsCompared) + compared && unbound == old(unbound)
    {
      hide Ledger, Reach, Trail, Extends, Input.FindingsAt, FindingSet;
      LedgerAppend(input, visits, bound, problems, fieldsCompared, x, ps, compared);
      bound := bound + {x};
      visits := visits + [x];
      problems := problems + ps;
      fieldsCompared := fieldsCompared + compared;
      OwnExtends(old(problems), old(bound), x, path, ps);
    }

    // A pair's own outcome is found at the pair itself, under its own path.
    lemma OwnExtends(was: seq<Problem>, wasBound: set<Pair>, x: Pair, path: string, ps: seq<Problem>)
      requires problems == was + ps && bound == wasBound + {x}
      requires forall p :: p in ps ==> p.path == path && p.finding.at == x
      ensures Extends(was, wasBound, x, path)
    {
      ReachSelf(ShareStep(input), x);
      assert Trail(input, x, [], x) && path == path + Dotted([]);
      assert problems[|was|..] == ps;
    }

    ghost predicate Extends(was: seq<Problem>, wasBound: set<Pair>, x: Pair, path: string)
      reads this
    {
      && wasBound <= bound
      && was <= problems
      && (forall y :: y in bound && y !in wasBound ==> Reach(ShareStep(input), x, y))
      && (forall p :: p in problems[|was|..] ==> Spells(input, x, path, p.finding.at, p.path))
    }

    // y's shared fields lead only to pairs already bound.
    ghost predicate Explored(y: Pair)
      reads this
    {
      forall z :: input.Shares(y, z) ==> z in bound
    }

    method Compare(x: Pair, path: string)
      requires Valid() && input.Has(x)
      modifies this
      ensures Valid() && unbound == old(unbound)
      ensures Extends(old(problems), old(bound), x, path)
      ensures x in bound
      ensures forall y :: y in bound && y !in old(bound) ==> Explored(y)
      decreases input.AllPairs() - bound, 0
    {
      hide Input.FindingsAt, Ledger, Reach, Spells;
      if x in bound {
        return;
      }
      assert x in input.AllPairs();
      var props, resolvable := SchemaObject(input.spec, x.node, {});
      if !resolvable {
        var dangling := ReportDangling(input, path, x);
        Record(x, path, dangling, 0);
        return;
      }
      var tags, complete := GoFields(input.idx, x.key, {});
      var ps := ReportDrift(input, path, x, tags, props, complete);
      Record(x, path, ps, |tags.Keys + props.Keys|);
      FollowShared(x, path, tags, props, old(problems), old(bound));
    }

    // The last loop of Compare: descend into every field both sides share.
    method FollowShared(x: Pair, path: string, tags: Tags, props: Props,
        ghost was: seq<Problem>, ghost wasBound: set<Pair>)
      requires Valid() && input.Has(x) && x in bound
      requires Object(input.spec, x.node, {}) == (props, true) && tags == input.TagsAt(x)
      requires Extends(was, wasBound, x, path)
      requires forall y :: y in bound && y !in wasBound && y != x ==> Explored(y)
      modifies this
      ensures Valid() && unbound == old(unbound) && old(bound) <= bound
      ensures Extends(was, wasBound, x, path)
      ensures forall y :: y in bound && y !in wasBound && y != x ==> Explored(y)
      ensures Explored(x)
      decreases input.AllPairs() - bound, 1
    {
      hide Ledger, Reach, Spells, Object;
      var rest := tags.Keys * props.Keys;
      while rest != {}
        invariant rest <= tags.Keys * props.Keys
        invariant Valid() && unbound == old(unbound) && old(bound) <= bound
        invariant Extends(was, wasBound, x, path)
        invariant forall y :: y in bound && y !in wasBound && y != x ==> Explored(y)
        invariant forall tag, z :: input.LeadsBy(x, tag, z) && tag !in rest ==> z in bound
        decreases rest
      {
        var tag :| tag in rest;
        var o := tags[tag];
        var sub, ws := ResolveGoType(input.idx, o.holder, o.typ);
        if sub.Some? {
          var subNode := PeelSchema(input.spec, props[tag], ws);
          if subNode.Some? {
            var subProps, _ := SchemaObject(input.spec, subNode.value, {});
            if subProps != map[] {
              var y := Pair(sub.value, subNode.value);
              assert input.LeadsBy(x, tag, y);
              ghost var mid, midBound := problems, bound;
              assert input.AllPairs() - bound <= old(input.AllPairs() - bound);
              Compare(y, path + "." + tag);
              ExtendFrom(mid, midBound, x, y, path, tag, was, wasBound);
            }
          }
        }
        rest := rest - {tag};
      }
    }

    // What a nested comparison added is also reached and labelled from x.
    lemma ExtendFrom(mid: seq<Problem>, midBound: set<Pair>, x: Pair, y: Pair, path: string, tag: string,
                     was: seq<Problem>, wasBound: set<Pair>)
      requires input.LeadsBy(x, tag, y)
      requires was <= mid && wasBound <= midBound
      requires forall z :: z in midBound && z !in wasBound ==> Reach(ShareStep(input), x, z)
      requires forall p :: p in mid[|was|..] ==> Spells(input, x, path, p.finding.at, p.path)
      requires Extends(mid, midBound, y, path + "." + tag)
      ensures Extends(was, wasBound, x, path)
    {
      assert input.Shares(x, y);
      forall z | z in bound && z !in wasBound ensures Reach(ShareStep(input), x, z) {
        if z !in midBound {
          ReachFront(ShareStep(input), x, y, z);
        }
      }
      forall p | p in problems[|was|..] ensures Spells(input, x, path, p.finding.at, p.path) {
        var i :| |was| <= i < |problems| && problems[i] == p;
        if i < |mid| {
          assert mid[i] == p && p in mid[|was|..];
        } else {
          assert p in problems[|mid|..];
          SpellsFront(input, x, path, tag, y, p.finding.at, p.path);
        }
      }
    }

    ghost predicate Uncovered(name: string)
      reads this
    {
      && GoKey(API, name) in input.idx.structs && input.idx.structs[GoKey(API, name)] != []
      && IsUpper(name) && forall x :: x in bound ==> x.key != GoKey(API, name)
    }

    method Run()
      requires Valid() && bound == {} && problems == [] && unbound == []
      modifies this
      ensures Valid()
      ensures forall x :: x in bound <==> input.Reached(x)
      ensures forall f :: f in FindingSet(problems) <==> input.Reached(f.at) && Due(input, f)
      ensures |problems| == |FindingSet(problems)|
      ensures problems == [] <==> forall x :: input.Reached(x) ==> Agrees(input, x)
      ensures forall p :: p in problems ==> Labelled(p)
      ensures forall name :: name in unbound <==> Uncovered(name)
      ensures forall i, j :: 0 <= i < j < |unbound| ==> unbound[i] != unbound[j]
    {
      hide Ledger, Agrees, Labelled, Due, Input.Reached;
      CompareRoots();
      CleanIffAgree();
      ReportsWhatIsDue();
      FindUncovered();
    }

    // The line's path spells a path of shared fields from a root to where it
    // was found.
    ghost predicate Labelled(p: Problem) {
      exists name :: input.Root(name) && Spells(input, input.RootPair(name), name, p.finding.at, p.path)
    }

    // The first loop of Run.
    method CompareRoots()
      requires Valid() && bound == {} && problems == [] && unbound == []
      modifies this
      ensures Valid() && unbound == []
      ensures forall x :: x in bound <==> input.Reached(x)
      ensures forall p :: p in problems ==> Labelled(p)
    {
      hide Ledger, Reach, Spells;
      var names := input.spec.schemas.Keys;
      while names != {}
        invariant names <= input.spec.schemas.Keys
        invariant Valid() && unbound == []
        invariant forall x :: x in bound ==> input.Reached(x) && Explored(x)
        invariant forall name :: input.Root(name) && name !in names ==> input.RootPair(name) in bound
        invariant forall p :: p in problems ==> Labelled(p)
        decreases names
      {
        var name :| name in names;
        if GoKey(API, name) in input.idx.structs {
          assert input.Root(name);
          label Before:
          Compare(Pair(GoKey(API, name), input.spec.schemas[name]), name);
          forall p | p in problems ensures Labelled(p) {
            assert p in old@Before(problems) || p in problems[|old@Before(problems)|..];
          }
        }
        names := names - {name};
      }
      forall x | input.Reached(x) ensures x in bound {
        var name :| input.Root(name) && Reach(ShareStep(input), input.RootPair(name), x);
        ClosedHoldsReach(ShareStep(input), bound, input.RootPair(name), x);
      }
    }

    // The second loop of Run: exported structs of the API that no pair covers.
    method FindUncovered()
      requires Valid() && unbound == []
      modifies this`unbound
      ensures Valid() && forall name :: name in unbound <==> Uncovered(name)
      ensures forall i, j :: 0 <= i < j < |unbound| ==> unbound[i] != unbound[j]
    {
      hide Ledger;
      var keys := input.idx.structs.Keys;
      while keys != {}
        invariant keys <= input.idx.structs.Keys && Valid()
        invariant forall name :: name in unbound <==> Uncovered(name) && GoKey(API, name) !in keys
        invariant forall i, j :: 0 <= i < j < |unbound| ==> unbound[i] != unbound[j]
        decreases keys
      {
        var key :| key in keys;
        if key.dir == API && input.idx.structs[key] != [] && IsUpper(key.name) {
          if forall x :: x in bound ==> x.key != key {
            unbound := unbound + [key.name];
          }
        }
        keys := keys - {key};
      }
    }

    // What the run says about dangling references: the one at d is behind a
    // report exactly when the schema of some reached pair leads to it.
    lemma DanglingReportedIff(d: int)
      requires Valid() && (forall x :: x in bound <==> input.Reached(x)) && Dangles(input.spec, d)
      ensures (exists p :: p in problems && p.finding.Dangling? && Reach(ComposeStep(input.spec), p.finding.at.node, d))
         <==> exists x :: input.Reached(x) && Reach(ComposeStep(input.spec), x.node, d)
    {
      hide Reach, Object, Inlined;
      if x :| input.Reached(x) && Reach(ComposeStep(input.spec), x.node, d) {
        DanglingFound(x);
        assert Dangling(x) in FindingSet(problems);
      }
      if p :| p in problems && p.finding.Dangling? && Reach(ComposeStep(input.spec), p.finding.at.node, d) {
        assert p.finding in FindingSet(problems);
      }
    }

    lemma DanglingFound(x: Pair)
      requires input.WellFormed() && input.Has(x)
      ensures Dangling(x) in input.FindingsAt(x) <==> ReachesDangling(input.spec, x.node)
    {
      SchemaObjectExact(input.spec, x.node);
    }

    // In particular, of a shared struct field whose peeled schema dangles: its
    // pair is reported exactly when that schema documents a property, or the
    // pair is a root of its own.
    lemma FieldReportedIff(x: Pair, tag: string, y: Pair)
      requires Valid() && (forall z :: z in bound <==> input.Reached(z))
      requires input.Reached(x) && Object(input.spec, x.node, {}).1 && tag in input.TagsAt(x) && tag in input.PropsAt(x)
      requires var o := input.TagsAt(x)[tag];
               var r := Resolve(input.idx, o.holder, o.typ);
               r.0 == Some(y.key) && Peel(input.spec, input.PropsAt(x)[tag], r.1) == Some(y.node)
      requires ReachesDangling(input.spec, y.node)
      ensures Dangling(y) in FindingSet(problems) <==>
        (exists p :: Documents(input.spec, y.node, p)) || exists name :: input.Root(name) && input.RootPair(name) == y
    {
      hide Object, Inlined, Reach, Offers, ReachesDangling, PeelType, Peel;
      DanglingFound(y);
      SchemaObjectExact(input.spec, y.node);
      if p :| Documents(input.spec, y.node, p) {
        assert input.Descend(x, tag) == Some(y);
        ReachedIfLed(input, x, tag, y);
      } else if input.Reached(y) {
        assert Object(input.spec, y.node, {}).0 == map[];
        EmptyIsReachedAsRoot(input, y);
      }
      if name :| input.Root(name) && input.RootPair(name) == y {
        ReachSelf(ShareStep(input), y);
      }
    }

    lemma ReportsWhatIsDue()
      requires Valid() && forall x :: x in bound <==> input.Reached(x)
      ensures forall f :: f in FindingSet(problems) <==> input.Reached(f.at) && Due(input, f)
      ensures |problems| == |FindingSet(problems)|
    {
      hide Due, Input.FindingsAt;
      forall x | x in bound ensures forall f :: f in input.FindingsAt(x) <==> f.at == x && Due(input, f) {
        FindingsExact(input, x);
      }
    }

    lemma CleanIffAgree()
      requires Valid() && forall x :: x in bound <==> input.Reached(x)
      ensures problems == [] <==> forall x :: input.Reached(x) ==> Agrees(input, x)
    {
      forall x | x in bound ensures input.FindingsAt(x) == {} <==> Agrees(input, x) {
        NoFindingsIffAgrees(input, x);
      }
      if problems == [] {
        forall x | x in bound ensures input.FindingsAt(x) == {} {
          FindingsName(input, x);
          assert forall f :: f in input.FindingsAt(x) ==> f in FindingSet(problems);
        }
      } else {
        assert problems[0].finding in FindingSet(problems);
      }
    }
  }
}
