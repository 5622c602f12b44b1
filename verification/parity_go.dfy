// The Go side of the field-parity check: structs already parsed into field
// lists, type expressions resolved to struct keys, and embedded structs
// inlined.
module ParityGo {
  import opened Options
  import opened Reachability
  import opened ParitySchema
  import opened Texts

  datatype GoKey = GoKey(dir: string, name: string)

  // A tagged field, or an embedded one whose fields are inlined.
  datatype GoField =
    | Tagged(tag: string, typ: string)
    | Embedded(typ: string)

  datatype Index = Index(structs: map<GoKey, seq<GoField>>, imports: map<GoKey, map<string, string>>) {
    function Fields(key: GoKey): seq<GoField> {
      if key in structs then structs[key] else []
    }
  }

  // ------------------------------------------------------------------ peel_go

  // str.isspace
  predicate IsSpace(c: char) {
    IsWhite(c) || '\U{001C}' <= c <= '\U{001F}'
  }

  // str.strip
  function Strip(s: string): (r: string)
    ensures |r| <= |s|
    ensures r != [] ==> !IsSpace(r[0]) && !IsSpace(r[|r| - 1])
    ensures s != [] && !IsSpace(s[0]) && !IsSpace(s[|s| - 1]) ==> r == s
  {
    TrimWhere(c => IsSpace(c), s)
  }

  function Find(s: string, c: char): (i: nat)
    ensures i <= |s| && c !in s[..i] && (i < |s| ==> s[i] == c)
  {
    if s == [] || s[0] == c then 0 else
      var i := Find(s[1..], c);
      assert s[..i + 1] == [s[0]] + s[1..][..i];
      i + 1
  }

  lemma {:induction false} FindFirst(s: string, c: char, k: nat)
    requires k < |s| && s[k] == c && c !in s[..k]
    ensures Find(s, c) == k
  {
    if k > 0 {
      assert s[0] == s[..k][0];
      assert s[1..][..k - 1] == s[..k][1..];
      FindFirst(s[1..], c, k - 1);
    }
  }

  // The value type of `map[K]V`, when the text has that form.
  function MapValue(t: string): (r: Option<string>)
    ensures r.Some? ==> |r.value| < |t|
  {
    if "map[" <= t then
      var k := Find(t[4..], ']');
      if 0 < k < |t[4..]| && '\n' !in t[4..][k + 1..] then Some(t[4..][k + 1..]) else None
    else None
  }

  function PeelType(t: string): (string, seq<Wrapper>)
    decreases |t|
  {
    var s := Strip(t);
    if "*" <= s then PeelType(s[1..])
    else if "[]" <= s then
      var inner := PeelType(s[2..]);
      (inner.0, [Array] + inner.1)
    else match MapValue(s)
      case Some(v) =>
        var inner := PeelType(v);
        (inner.0, [Mapping] + inner.1)
      case None => (s, [])
  }

  // White space around a type expression does not matter.
  lemma PeelIgnoresSpace(t: string)
    ensures PeelType(t) == PeelType(Strip(t))
  {
  }

  method PeelGo(t: string) returns (base: string, wrappers: seq<Wrapper>)
    ensures (base, wrappers) == PeelType(t)
  {
    base, wrappers := t, [];
    assert wrappers + PeelType(t).1 == PeelType(t).1;
    while true
      invariant PeelType(t) == (PeelType(base).0, wrappers + PeelType(base).1)
      decreases |base|
    {
      ghost var before := base;
      base := Strip(base);
      assert wrappers + [] == wrappers;
      if "*" <= base {
        base := base[1..];
        continue;
      }
      if "[]" <= base {
        assert wrappers + PeelType(before).1 == wrappers + [Array] + PeelType(base[2..]).1;
        wrappers := wrappers + [Array];
        base := base[2..];
        continue;
      }
      match MapValue(base) {
        case Some(v) =>
          assert wrappers + PeelType(before).1 == wrappers + [Mapping] + PeelType(v).1;
          wrappers := wrappers + [Mapping];
          base := v;
        case None =>
          assert PeelType(before) == (base, []);
          return;
      }
    }
  }

  // Go type expressions over a base name, and how Go source spells them.
  datatype GoType =
    | Base(name: string)
    | Star(elem: GoType)
    | Slice(elem: GoType)
    | MapOf(key: string, elem: GoType)

  function Spell(t: GoType): string {
    match t
    case Base(name) => name
    case Star(e) => "*" + Spell(e)
    case Slice(e) => "[]" + Spell(e)
    case MapOf(k, e) => "map[" + k + "]" + Spell(e)
  }

  function Wrappers(t: GoType): seq<Wrapper> {
    match t
    case Base(_) => []
    case Star(e) => Wrappers(e)
    case Slice(e) => [Array] + Wrappers(e)
    case MapOf(_, e) => [Mapping] + Wrappers(e)
  }

  function BaseName(t: GoType): string {
    if t.Base? then t.name else BaseName(t.elem)
  }

  // A base name is a possibly qualified identifier, and no map key's own
  // spelling holds a ']' (an array-keyed map would).
  predicate Plain(t: GoType) {
    match t
    case Base(name) => name != [] && forall c :: c in name ==> !IsSpace(c) && c != '*' && c != '['
    case Star(e) => Plain(e)
    case Slice(e) => Plain(e)
    case MapOf(k, e) => k != [] && ']' !in k && Plain(e)
  }

  lemma {:induction false} SpellEnds(t: GoType)
    requires Plain(t)
    ensures Spell(t) != [] && !IsSpace(Spell(t)[0]) && !IsSpace(Spell(t)[|Spell(t)| - 1])
  {
    match t
    case Base(_) =>
    case Star(e) => SpellEnds(e);
    case Slice(e) => SpellEnds(e);
    case MapOf(_, e) => SpellEnds(e);
  }

  // Peeling undoes spelling: however pointers, slices and maps nest, the base
  // name and the slice and map layers come back, outermost first.
  lemma {:induction false} PeelUndoesSpell(t: GoType)
    requires Plain(t) && '\n' !in Spell(t)
    ensures PeelType(Spell(t)) == (BaseName(t), Wrappers(t))
  {
    hide MapValue, IsSpace, Strip;
    SpellEnds(t);
    match t {
      case Base(name) =>
        PeelBase(name);
      case Star(e) =>
        assert Spell(t)[1..] == Spell(e);
        PeelUndoesSpell(e);
      case Slice(e) =>
        assert Spell(t)[2..] == Spell(e);
        PeelUndoesSpell(e);
      case MapOf(k, e) =>
        MapValueUndoes(k, Spell(e));
        PeelUndoesSpell(e);
    }
  }

  lemma PeelBase(name: string)
    requires Plain(Base(name))
    ensures PeelType(name) == (name, [])
  {
    assert forall i :: 0 <= i < |name| ==> name[i] in name;
    assert "map["[3] == '[';
  }

  lemma MapValueUndoes(k: string, v: string)
    requires k != [] && ']' !in k && '\n' !in v
    ensures MapValue("map[" + k + "]" + v) == Some(v)
  {
    var tail := ("map[" + k + "]" + v)[4..];
    assert tail == k + "]" + v;
    assert tail[..|k|] == k && tail[|k|] == ']' && tail[|k| + 1..] == v;
    FindFirst(tail, ']', |k|);
  }

  // ---------------------------------------------------------- resolve_go_type

  const MODULE := "github.com/aoos/dejima/"

  function ResolveBase(idx: Index, holder: GoKey, base: string): (r: Option<GoKey>)
    ensures r.Some? ==> r.value in idx.structs
  {
    var dot := Find(base, '.');
    if dot < |base| then
      var qual, name := base[..dot], base[dot + 1..];
      if holder in idx.imports && qual in idx.imports[holder] && MODULE <= idx.imports[holder][qual] then
        InIndex(idx, GoKey(idx.imports[holder][qual][|MODULE|..], name))
      else None
    else InIndex(idx, GoKey(holder.dir, base))
  }

  // The struct a base name stands for, seen from its holder: one of the
  // holder's own directory, or of the directory its file imports under the
  // name's qualifier, and then inside the module.
  ghost predicate Denotes(idx: Index, holder: GoKey, base: string, key: GoKey) {
    && key in idx.structs
    && if '.' !in base then key == GoKey(holder.dir, base)
       else exists qual :: Qualifies(idx, holder, qual, key) && base == qual + "." + key.name
  }

  ghost predicate Qualifies(idx: Index, holder: GoKey, qual: string, key: GoKey) {
    && '.' !in qual && holder in idx.imports && qual in idx.imports[holder]
    && idx.imports[holder][qual] == MODULE + key.dir
  }

  // Resolution finds it exactly when there is one.
  lemma ResolveBaseIff(idx: Index, holder: GoKey, base: string, key: GoKey)
    ensures ResolveBase(idx, holder, base) == Some(key) <==> Denotes(idx, holder, base, key)
  {
    var dot := Find(base, '.');
    if dot < |base| {
      assert base == base[..dot] + "." + base[dot + 1..];
      if ResolveBase(idx, holder, base) == Some(key) {
        assert Qualifies(idx, holder, base[..dot], key);
      }
      if qual :| Qualifies(idx, holder, qual, key) && base == qual + "." + key.name {
        assert base[..|qual|] == qual && base[|qual|] == '.' && base[|qual| + 1..] == key.name;
        FindFirst(base, '.', |qual|);
        assert idx.imports[holder][qual][|MODULE|..] == key.dir;
      }
    } else {
      assert base[..dot] == base;
    }
  }

  // So a field's type expression, as Go spells it, leads to the struct its base
  // name denotes, with the type's slice and map layers.
  lemma ResolveSpelledIff(idx: Index, holder: GoKey, t: GoType, key: GoKey)
    requires Plain(t) && '\n' !in Spell(t)
    ensures Resolve(idx, holder, Spell(t)) == (Some(key), Wrappers(t)) <==> Denotes(idx, holder, BaseName(t), key)
    ensures Resolve(idx, holder, Spell(t)).1 == Wrappers(t)
  {
    PeelUndoesSpell(t);
    ResolveBaseIff(idx, holder, BaseName(t), key);
  }

  function InIndex(idx: Index, key: GoKey): (r: Option<GoKey>)
    ensures r.Some? ==> r.value in idx.structs
  {
    if key in idx.structs then Some(key) else None
  }

  function Resolve(idx: Index, holder: GoKey, typ: string): (r: (Option<GoKey>, seq<Wrapper>))
    ensures r.0.Some? ==> r.0.value in idx.structs
  {
    var (base, wrappers) := PeelType(typ);
    (ResolveBase(idx, holder, base), wrappers)
  }

  method ResolveGoType(idx: Index, holder: GoKey, typ: string) returns (key: Option<GoKey>, wrappers: seq<Wrapper>)
    ensures (key, wrappers) == Resolve(idx, holder, typ)
    ensures key.Some? ==> Denotes(idx, holder, PeelType(typ).0, key.value)
    ensures key == None ==> forall k :: !Denotes(idx, holder, PeelType(typ).0, k)
  {
    var base, ws := PeelGo(typ);
    key, wrappers := ResolveBase(idx, holder, base), ws;
    forall k ensures key == Some(k) <==> Denotes(idx, holder, base, k) {
      ResolveBaseIff(idx, holder, base, k);
    }
  }

  // ---------------------------------------------------------------- go_fields

  // Where a tag comes from: its type expression and the struct that holds it.
  datatype Origin = Origin(typ: string, holder: GoKey)
  type Tags = map<string, Origin>

  // What go_fields returns when the structs in `seen` are already open.
  function Inlined(idx: Index, key: GoKey, seen: set<GoKey>): (Tags, bool)
    decreases idx.structs.Keys - seen
  {
    if key in seen then (map[], true)
    else InlinedFields(idx, key, seen, |idx.Fields(key)|)
  }

  // After the first k fields of an opened struct.
  function InlinedFields(idx: Index, key: GoKey, seen: set<GoKey>, k: nat): (Tags, bool)
    requires key !in seen && k <= |idx.Fields(key)|
    decreases idx.structs.Keys - seen, 0, k
  {
    if k == 0 then (map[], true)
    else
      var before := InlinedFields(idx, key, seen, k - 1);
      match idx.Fields(key)[k - 1]
      case Tagged(tag, typ) => (before.0[tag := Origin(typ, key)], before.1)
      case Embedded(typ) =>
        match Resolve(idx, key, typ).0
        case None => (before.0, false)
        case Some(sub) =>
          assert key in idx.structs;
          var r := Inlined(idx, sub, seen + {key});
          (before.0 + r.0, before.1 && r.1)
  }

  method GoFields(idx: Index, key: GoKey, seen: set<GoKey>) returns (tags: Tags, complete: bool)
    ensures (tags, complete) == Inlined(idx, key, seen)
    decreases idx.structs.Keys - seen
  {
    tags, complete := map[], true;
    if key in seen {
      return;
    }
    var fields := idx.Fields(key);
    for i := 0 to |fields|
      invariant (tags, complete) == InlinedFields(idx, key, seen, i)
    {
      match fields[i] {
        case Tagged(tag, typ) =>
          tags := tags[tag := Origin(typ, key)];
        case Embedded(typ) =>
          var resolved, _ := ResolveGoType(idx, key, typ);
          match resolved {
            case None =>
              complete := false;
            case Some(sub) =>
              assert key in idx.structs;
              var subTags, subOk := GoFields(idx, sub, seen + {key});
              tags := tags + subTags;
              complete := complete && subOk;
          }
      }
    }
  }

  // -------------------------------------------------- what embedding reaches

  ghost predicate Embeds(idx: Index, a: GoKey, b: GoKey) {
    exists typ :: Embedded(typ) in idx.Fields(a) && Resolve(idx, a, typ).0 == Some(b)
  }

  ghost function EmbedStep(idx: Index): (GoKey, GoKey) -> bool {
    (a, b) => Embeds(idx, a, b)
  }

  ghost predicate Holds(idx: Index, key: GoKey, tag: string, typ: string) {
    Tagged(tag, typ) in idx.Fields(key)
  }

  // Struct `key` embeds something that cannot be resolved.
  ghost predicate Opaque(idx: Index, key: GoKey) {
    exists typ :: Embedded(typ) in idx.Fields(key) && Resolve(idx, key, typ).0 == None
  }

  // The tag's origin is a struct that `key` reaches through embeds.
  ghost predicate Inherits(idx: Index, key: GoKey, tag: string, o: Origin) {
    Reach(EmbedStep(idx), key, o.holder) && Holds(idx, o.holder, tag, o.typ)
  }

  ghost predicate Carries(idx: Index, key: GoKey, tag: string) {
    exists o :: Inherits(idx, key, tag, o)
  }

  ghost predicate ReachesOpaque(idx: Index, key: GoKey) {
    exists m :: Reach(EmbedStep(idx), key, m) && Opaque(idx, m)
  }

  lemma {:induction false} InlinedSound(idx: Index, key: GoKey, seen: set<GoKey>)
    ensures forall tag :: tag in Inlined(idx, key, seen).0 ==> Inherits(idx, key, tag, Inlined(idx, key, seen).0[tag])
    ensures !Inlined(idx, key, seen).1 ==> ReachesOpaque(idx, key)
    decreases idx.structs.Keys - seen
  {
    if key !in seen {
      InlinedFieldsSound(idx, key, seen, |idx.Fields(key)|);
    }
  }

  lemma {:induction false} InlinedFieldsSound(idx: Index, key: GoKey, seen: set<GoKey>, k: nat)
    requires key !in seen && k <= |idx.Fields(key)|
    ensures forall tag :: tag in InlinedFields(idx, key, seen, k).0 ==>
                Inherits(idx, key, tag, InlinedFields(idx, key, seen, k).0[tag])
    ensures !InlinedFields(idx, key, seen, k).1 ==> ReachesOpaque(idx, key)
    decreases idx.structs.Keys - seen, 0, k
  {
    if k == 0 {
      return;
    }
    InlinedFieldsSound(idx, key, seen, k - 1);
    ReachSelf(EmbedStep(idx), key);
    var f := idx.Fields(key)[k - 1];
    assert f in idx.Fields(key);
    match f {
      case Tagged(tag, typ) =>
        assert Inherits(idx, key, tag, Origin(typ, key));
      case Embedded(typ) =>
        match Resolve(idx, key, typ).0 {
          case None =>
            assert Opaque(idx, key);
          case Some(sub) =>
            assert Embeds(idx, key, sub);
            InlinedSound(idx, sub, seen + {key});
            forall m | Reach(EmbedStep(idx), sub, m) ensures Reach(EmbedStep(idx), key, m) {
              ReachFront(EmbedStep(idx), key, sub, m);
            }
        }
    }
  }

  lemma {:induction false} InlinedComplete(idx: Index, key: GoKey, seen: set<GoKey>, via: seq<GoKey>, m: GoKey)
    requires Walk(EmbedStep(idx), key, via, m)
    requires key !in seen && forall x :: x in via ==> x !in seen
    ensures forall tag, typ :: Holds(idx, m, tag, typ) ==> tag in Inlined(idx, key, seen).0
    ensures Opaque(idx, m) ==> !Inlined(idx, key, seen).1
    decreases |via|
  {
    var fields := idx.Fields(key);
    assert fields[..|fields|] == fields;
    var out := LeaveOnce(EmbedStep(idx), key, via, m);
    if out == [] {
      forall tag, typ | Holds(idx, m, tag, typ) ensures tag in Inlined(idx, key, seen).0 {
        FieldKept(idx, key, seen, Tagged(tag, typ), |fields|);
      }
      if Opaque(idx, m) {
        var typ :| Embedded(typ) in fields && Resolve(idx, key, typ).0 == None;
        FieldKept(idx, key, seen, Embedded(typ), |fields|);
      }
    } else {
      var sub := out[0];
      assert Embeds(idx, key, sub);
      var typ :| Embedded(typ) in fields && Resolve(idx, key, typ).0 == Some(sub);
      InlinedComplete(idx, sub, seen + {key}, out[1..], m);
      FieldKept(idx, key, seen, Embedded(typ), |fields|);
    }
  }

  // What one field contributes is still there after the remaining ones.
  lemma {:induction false} FieldKept(idx: Index, key: GoKey, seen: set<GoKey>, f: GoField, upto: nat)
    requires key !in seen && upto <= |idx.Fields(key)| && f in idx.Fields(key)[..upto]
    ensures f.Tagged? ==> f.tag in InlinedFields(idx, key, seen, upto).0
    ensures f.Embedded? && Resolve(idx, key, f.typ).0 == None ==> !InlinedFields(idx, key, seen, upto).1
    ensures f.Embedded? && Resolve(idx, key, f.typ).0.Some? ==>
      var sub := Inlined(idx, Resolve(idx, key, f.typ).0.value, seen + {key});
      && (forall tag :: tag in sub.0 ==> tag in InlinedFields(idx, key, seen, upto).0)
      && (InlinedFields(idx, key, seen, upto).1 ==> sub.1)
    decreases upto
  {
    var fields := idx.Fields(key);
    assert fields[..upto] == fields[..upto - 1] + [fields[upto - 1]];
    if f != fields[upto - 1] {
      FieldKept(idx, key, seen, f, upto - 1);
    }
  }

  // Cutting the recursion at structs already open loses nothing: the tags are
  // exactly those held by the structs reached through resolvable embeds, and
  // the set is complete exactly when none of those has an unresolved embed.
  lemma GoFieldsExact(idx: Index, key: GoKey)
    ensures forall tag :: tag in Inlined(idx, key, {}).0 <==> Carries(idx, key, tag)
    ensures forall tag :: tag in Inlined(idx, key, {}).0 ==> Inherits(idx, key, tag, Inlined(idx, key, {}).0[tag])
    ensures Inlined(idx, key, {}).1 <==> !ReachesOpaque(idx, key)
  {
    InlinedSound(idx, key, {});
    forall tag, o | Inherits(idx, key, tag, o) ensures tag in Inlined(idx, key, {}).0 {
      var via :| Walk(EmbedStep(idx), key, via, o.holder);
      InlinedComplete(idx, key, {}, via, o.holder);
    }
    if ReachesOpaque(idx, key) {
      var m :| Reach(EmbedStep(idx), key, m) && Opaque(idx, m);
      var via :| Walk(EmbedStep(idx), key, via, m);
      InlinedComplete(idx, key, {}, via, m);
    }
  }

  // Field f, met while `key` is open, gives the tag this origin.
  ghost predicate FieldGives(idx: Index, key: GoKey, seen: set<GoKey>, f: GoField, tag: string, o: Origin)
    requires key in idx.structs && key !in seen
  {
    match f
    case Tagged(name, typ) => name == tag && o == Origin(typ, key)
    case Embedded(typ) =>
      && Resolve(idx, key, typ).0.Some?
      && var sub := Inlined(idx, Resolve(idx, key, typ).0.value, seen + {key}).0; tag in sub && sub[tag] == o
  }

  ghost predicate LastGiving(idx: Index, key: GoKey, seen: set<GoKey>, fields: seq<GoField>,
                             tag: string, i: int, o: Origin)
    requires key in idx.structs && key !in seen
  {
    && 0 <= i < |fields| && FieldGives(idx, key, seen, fields[i], tag, o)
    && forall j, q :: i < j < |fields| ==> !FieldGives(idx, key, seen, fields[j], tag, q)
  }

  // Which origin a tag gets when several fields give one: the last of them, be
  // it the struct's own field or an embedded one.
  lemma OriginWins(idx: Index, key: GoKey, seen: set<GoKey>, tag: string)
    requires key in idx.structs && key !in seen && tag in Inlined(idx, key, seen).0
    ensures exists i :: LastGiving(idx, key, seen, idx.Fields(key), tag, i, Inlined(idx, key, seen).0[tag])
  {
    hide LastGiving;
    var i := FieldWins(idx, key, seen, tag, |idx.Fields(key)|);
    assert idx.Fields(key)[..|idx.Fields(key)|] == idx.Fields(key);
  }

  lemma {:induction false} FieldWins(idx: Index, key: GoKey, seen: set<GoKey>, tag: string, k: nat) returns (i: int)
    requires key in idx.structs && key !in seen && k <= |idx.Fields(key)|
    requires tag in InlinedFields(idx, key, seen, k).0
    ensures LastGiving(idx, key, seen, idx.Fields(key)[..k], tag, i, InlinedFields(idx, key, seen, k).0[tag])
    decreases k
  {
    hide Resolve;
    var fields := idx.Fields(key);
    var o := InlinedFields(idx, key, seen, k).0[tag];
    assert fields[..k][..k - 1] == fields[..k - 1] && fields[..k][k - 1] == fields[k - 1];
    if FieldGives(idx, key, seen, fields[k - 1], tag, o) {
      i := k - 1;
    } else {
      i := FieldWins(idx, key, seen, tag, k - 1);
    }
  }
}
