/** Manifest export, app/export.go: schema IDs and the propagation of
    visibility through a struct graph that may be cyclic. */
module Visibility {
  import opened Common

  /** Internal 0, Diagnostic 1, Admin 2, Public 3. */
  type Vis = v: int | 0 <= v < 4

  type TypeID = nat

  datatype GoType =
    | Scalar
    | TimeStruct
    | Pointer(elem: GoType)
    | List(elem: GoType)
    | MapOf(key: GoType, elem: GoType)
    | Struct(id: TypeID)

  datatype Field = Field(exported: bool, typ: GoType)

  /** `hasSchema`: a schema ID can be found or made for the type itself. */
  datatype StructDef = StructDef(name: Str, fields: seq<Field>, hasSchema: bool)

  type Graph = map<TypeID, StructDef>

  datatype Key = Key(ns: Str, name: Str)

  type VisMap = map<Key, Vis>

  /** structVis and structTypes: a key's level, and the type it was given its ID for,
      which is the one the manifest describes. `order` lists the keys as they got an ID. */
  datatype Table = Table(vis: VisMap, types: map<Key, TypeID>, order: seq<Key>)

  const NOTHING := Table(map[], map[], [])

  const USER_START := 128

  // ---- what a type leads to ----

  /** One step into a type: the element of a pointer or list, the key or value of a map. */
  datatype Into = OfPointer | OfList | OfKey | OfValue

  /** The type at the end of a path of such steps, if the type has that path. */
  function Inside(ty: GoType, path: seq<Into>): Option<GoType>
    decreases |path|
  {
    if path == [] then Some(ty)
    else match (ty, path[0])
      case (Pointer(e), OfPointer) => Inside(e, path[1..])
      case (List(e), OfList) => Inside(e, path[1..])
      case (MapOf(k, _), OfKey) => Inside(k, path[1..])
      case (MapOf(_, v), OfValue) => Inside(v, path[1..])
      case _ => None
  }

  /** A struct can be found inside the type. */
  ghost predicate Holds(ty: GoType, t: TypeID) { exists path :: Inside(ty, path) == Some(Struct(t)) }

  /** And without entering a map. */
  ghost predicate HoldsOutsideMaps(ty: GoType, t: TypeID) {
    exists path :: Inside(ty, path) == Some(Struct(t)) && OfKey !in path && OfValue !in path
  }

  /** An exported field of `a`, which has a schema, holds `b`. */
  ghost predicate Leads(g: Graph, a: TypeID, b: TypeID) {
    a in g && g[a].hasSchema && exists f <- g[a].fields :: f.exported && Holds(f.typ, b)
  }

  // ---- how the walk finds it ----

  /** The structs assignFieldStructIDs hands on, in order. */
  function FieldTargets(ty: GoType): seq<TypeID> {
    match ty
    case Scalar => []
    case TimeStruct => []
    case Pointer(e) => FieldTargets(e)
    case List(e) => FieldTargets(e)
    case MapOf(k, e) => FieldTargets(k) + FieldTargets(e)
    case Struct(t) => [t]
  }

  /** The struct a root type stands for: pointers and lists are looked through, maps are not. */
  function RootTarget(ty: GoType): Option<TypeID> {
    match ty
    case Pointer(e) => RootTarget(e)
    case List(e) => RootTarget(e)
    case Struct(t) => Some(t)
    case _ => None
  }

  function FieldListTargets(fields: seq<Field>): seq<TypeID> {
    if fields == [] then []
    else
      var f := fields[|fields| - 1];
      FieldListTargets(fields[..|fields| - 1]) + if f.exported then FieldTargets(f.typ) else []
  }

  /** The structs the exported fields of `t` lead to. */
  function Fields(g: Graph, t: TypeID): seq<TypeID>
    requires t in g
  {
    FieldListTargets(g[t].fields)
  }

  /** A type without a schema of its own leads nowhere: the export stops there. */
  function Succ(g: Graph, t: TypeID): seq<TypeID>
    requires t in g
  {
    if g[t].hasSchema then Fields(g, t) else []
  }

  lemma HoldsStep(ty: GoType, step: Into, inner: GoType, t: TypeID)
    requires Inside(ty, [step]) == Some(inner) && Holds(inner, t)
    ensures Holds(ty, t)
  {
    var path :| Inside(inner, path) == Some(Struct(t));
    assert ([step] + path)[1..] == path && [step][1..] == [];
    assert Inside(ty, [step] + path) == Some(Struct(t));
  }

  /** The walk hands on exactly the structs that the type holds. */
  lemma {:induction false} TargetsAreHeld(ty: GoType, t: TypeID)
    ensures t in FieldTargets(ty) <==> Holds(ty, t)
  {
    if t in FieldTargets(ty) { TargetIsHeld(ty, t); }
    if path :| Inside(ty, path) == Some(Struct(t)) { HeldIsTarget(ty, path, t); }
  }

  lemma {:induction false} TargetIsHeld(ty: GoType, t: TypeID)
    requires t in FieldTargets(ty)
    ensures Holds(ty, t)
  {
    match ty
    case Pointer(e) => TargetIsHeld(e, t); HoldsStep(ty, OfPointer, e, t);
    case List(e) => TargetIsHeld(e, t); HoldsStep(ty, OfList, e, t);
    case MapOf(k, v) =>
      if t in FieldTargets(k) { TargetIsHeld(k, t); HoldsStep(ty, OfKey, k, t); }
      else { TargetIsHeld(v, t); HoldsStep(ty, OfValue, v, t); }
    case Struct(_) => assert Inside(ty, []) == Some(Struct(t));
  }

  lemma {:induction false} HeldIsTarget(ty: GoType, path: seq<Into>, t: TypeID)
    requires Inside(ty, path) == Some(Struct(t))
    ensures t in FieldTargets(ty)
    decreases |path|
  {
    if path != [] {
      match ty
      case Pointer(e) => HeldIsTarget(e, path[1..], t);
      case List(e) => HeldIsTarget(e, path[1..], t);
      case MapOf(k, v) => if path[0] == OfKey { HeldIsTarget(k, path[1..], t); } else { HeldIsTarget(v, path[1..], t); }
    }
  }

  lemma {:induction false} FieldListHeld(fields: seq<Field>, t: TypeID)
    ensures t in FieldListTargets(fields) <==> exists f <- fields :: f.exported && Holds(f.typ, t)
  {
    if fields != [] {
      var n := |fields| - 1;
      FieldListHeld(fields[..n], t);
      TargetsAreHeld(fields[n].typ, t);
      assert fields == fields[..n] + [fields[n]];
    }
  }

  lemma LeadsIsSucc(g: Graph, a: TypeID, b: TypeID)
    requires a in g
    ensures b in Succ(g, a) <==> Leads(g, a, b)
  {
    FieldListHeld(g[a].fields, b);
  }

  /** A root stands for the struct that it holds outside of any map. */
  lemma {:induction false} RootTargetIsHeld(ty: GoType, t: TypeID)
    ensures RootTarget(ty) == Some(t) <==> HoldsOutsideMaps(ty, t)
  {
    match ty
    case Pointer(e) => RootTargetIsHeld(e, t); OutsideStep(ty, OfPointer, e, t);
    case List(e) => RootTargetIsHeld(e, t); OutsideStep(ty, OfList, e, t);
    case Struct(_) =>
      assert Inside(ty, []) == Some(ty);
      forall path | Inside(ty, path) == Some(Struct(t)) ensures path == [] { }
    case MapOf(_, _) =>
      forall path | Inside(ty, path) == Some(Struct(t)) ensures OfKey in path || OfValue in path {
        assert path[0] in path;
      }
    case _ =>
  }

  lemma OutsideStep(ty: GoType, step: Into, inner: GoType, t: TypeID)
    requires (ty == Pointer(inner) && step == OfPointer) || (ty == List(inner) && step == OfList)
    ensures HoldsOutsideMaps(ty, t) <==> HoldsOutsideMaps(inner, t)
  {
    if path :| Inside(inner, path) == Some(Struct(t)) && OfKey !in path && OfValue !in path {
      var p := [step] + path;
      assert p[1..] == path;
      assert Inside(ty, p) == Some(Struct(t)) && OfKey !in p && OfValue !in p;
    }
    if path :| Inside(ty, path) == Some(Struct(t)) && OfKey !in path && OfValue !in path {
      assert path != [];
      assert forall i <- path[1..] :: i in path;
      assert Inside(inner, path[1..]) == Some(Struct(t));
    }
  }

  function KeyOf(g: Graph, ns: Str, t: TypeID): Key
    requires t in g
  {
    Key(ns, g[t].name)
  }

  function Level(v: VisMap, k: Key): int { if k in v then v[k] else -1 }

  /** Levels only rise, and a key keeps the type it stands for. */
  ghost predicate Grows(e: Table, e': Table) {
    && (forall k :: Level(e.vis, k) <= Level(e'.vis, k))
    && (forall k :: k in e.types ==> k in e'.types && e'.types[k] == e.types[k])
  }

  /** Each key that stands for a type got its ID once. */
  ghost predicate OrderOk(e: Table) {
    && (forall k :: k in e.order <==> k in e.types)
    && (forall i, j :: 0 <= i < j < |e.order| ==> e.order[i] != e.order[j])
  }

  /** The (type, level) pairs a walk can still raise: what shrinks. */
  ghost function Open(g: Graph, ns: Str, e: Table): set<(TypeID, int)> {
    set t, l | t in g.Keys && l in {0, 1, 2, 3} && Level(e.vis, KeyOf(g, ns, t)) < l :: (t, l)
  }

  // ---------------------------------------------------------------------
  // The walk
  // ---------------------------------------------------------------------

  /** What a struct's key holds on entry: the higher level, and the first type that got an ID. */
  function Enter(g: Graph, ns: Str, e: Table, t: TypeID, vis: Vis): Table
    requires t in g
  {
    var k := KeyOf(g, ns, t);
    if k in e.types || !g[t].hasSchema then e.(vis := e.vis[k := vis])
    else Table(e.vis[k := vis], e.types[k := t], e.order + [k])
  }

  /** assignStructID on an unwrapped struct. */
  ghost function Assign(g: Graph, ns: Str, e: Table, t: TypeID, vis: Vis): (e': Table)
    requires Closed(g) && t in g
    ensures Grows(e, e') && (OrderOk(e) ==> OrderOk(e'))
    decreases Open(g, ns, e), 0
  {
    var k := KeyOf(g, ns, t);
    if Level(e.vis, k) >= vis then e
    else
      var entered := Enter(g, ns, e, t, vis);
      assert Open(g, ns, entered) < Open(g, ns, e) by { OpenShrinks(g, ns, e, t, vis); }
      if k !in entered.types then entered else AssignAll(g, ns, entered, Fields(g, t), vis)
  }

  ghost function AssignAll(g: Graph, ns: Str, e: Table, ts: seq<TypeID>, vis: Vis): (e': Table)
    requires Closed(g) && (forall t :: t in ts ==> t in g)
    ensures Grows(e, e') && (OrderOk(e) ==> OrderOk(e'))
    decreases Open(g, ns, e), |ts| + 1
  {
    if ts == [] then e
    else
      var e1 := Assign(g, ns, e, ts[0], vis);
      assert Open(g, ns, e1) <= Open(g, ns, e);
      AssignAll(g, ns, e1, ts[1..], vis)
  }

  /** Every field's struct is in the graph. */
  ghost predicate Closed(g: Graph) { forall t, s :: t in g && s in Fields(g, t) ==> s in g }

  lemma OpenShrinks(g: Graph, ns: Str, e: Table, t: TypeID, vis: Vis)
    requires t in g && Level(e.vis, KeyOf(g, ns, t)) < vis
    ensures Open(g, ns, Enter(g, ns, e, t, vis)) < Open(g, ns, e)
  {
    assert (t, vis as int) in Open(g, ns, e);
    assert (t, vis as int) !in Open(g, ns, Enter(g, ns, e, t, vis));
  }

  lemma {:induction false} AssignAllConcat(g: Graph, ns: Str, e: Table, a: seq<TypeID>, b: seq<TypeID>, vis: Vis)
    requires Closed(g) && (forall t :: t in a ==> t in g) && (forall t :: t in b ==> t in g)
    ensures AssignAll(g, ns, e, a + b, vis) == AssignAll(g, ns, AssignAll(g, ns, e, a, vis), b, vis)
    decreases |a|
  {
    if a == [] {
      assert a + b == b;
    } else {
      assert (a + b)[0] == a[0] && (a + b)[1..] == a[1..] + b;
      AssignAllConcat(g, ns, Assign(g, ns, e, a[0], vis), a[1..], b, vis);
    }
  }

  // ---------------------------------------------------------------------
  // Reachability
  // ---------------------------------------------------------------------

  ghost predicate IsPath(g: Graph, p: seq<TypeID>) {
    && p != [] && (forall t :: t in p ==> t in g)
    && (forall i :: 0 <= i < |p| - 1 ==> Leads(g, p[i], p[i + 1]))
  }

  ghost predicate Reaches(g: Graph, a: TypeID, b: TypeID) {
    exists p :: IsPath(g, p) && p[0] == a && p[|p| - 1] == b
  }

  lemma ReachesSelf(g: Graph, a: TypeID)
    requires a in g
    ensures Reaches(g, a, a)
  {
    assert IsPath(g, [a]);
  }

  lemma ReachesStep(g: Graph, a: TypeID, b: TypeID, c: TypeID)
    requires a in g && b in Succ(g, a) && Reaches(g, b, c)
    ensures Reaches(g, a, c)
  {
    var p :| IsPath(g, p) && p[0] == b && p[|p| - 1] == c;
    var q := [a] + p;
    LeadsIsSucc(g, a, b);
    forall i | 0 <= i < |q| - 1 ensures Leads(g, q[i], q[i + 1]) {
      if i > 0 { assert q[i] == p[i - 1] && q[i + 1] == p[i]; }
    }
    assert IsPath(g, q);
  }

  lemma ReachesOn(g: Graph, a: TypeID, b: TypeID, c: TypeID)
    requires Reaches(g, a, b) && b in g && c in g && c in Succ(g, b)
    ensures Reaches(g, a, c)
  {
    var p :| IsPath(g, p) && p[0] == a && p[|p| - 1] == b;
    var q := p + [c];
    LeadsIsSucc(g, b, c);
    forall i | 0 <= i < |q| - 1 ensures Leads(g, q[i], q[i + 1]) {
      assert q[i] == p[i];
      if i < |p| - 1 { assert q[i + 1] == p[i + 1]; }
    }
    assert IsPath(g, q);
  }

  // ---------------------------------------------------------------------
  // Clashes of names
  // ---------------------------------------------------------------------

  datatype Root = Root(ns: Str, typ: Option<GoType>, vis: Vis)

  ghost predicate RootsIn(g: Graph, roots: seq<Root>) {
    forall r :: r in roots && r.typ.Some? && RootTarget(r.typ.value).Some? ==> RootTarget(r.typ.value).value in g
  }

  ghost predicate RootReaches(g: Graph, r: Root, ns: Str, t: TypeID) {
    r.ns == ns && r.typ.Some? && exists a :: HoldsOutsideMaps(r.typ.value, a) && Reaches(g, a, t)
  }

  lemma RootReachesTarget(g: Graph, r: Root, ns: Str, t: TypeID)
    ensures RootReaches(g, r, ns, t) <==>
      r.ns == ns && r.typ.Some? && RootTarget(r.typ.value).Some? && Reaches(g, RootTarget(r.typ.value).value, t)
  {
    if r.typ.Some? {
      forall a: TypeID ensures HoldsOutsideMaps(r.typ.value, a) <==> RootTarget(r.typ.value) == Some(a) {
        RootTargetIsHeld(r.typ.value, a);
      }
    }
  }

  /** The types the roots of one namespace reach. */
  ghost function Reached(g: Graph, roots: seq<Root>, ns: Str): set<TypeID> {
    set t | t in g.Keys && exists r :: r in roots && RootReaches(g, r, ns, t)
  }

  /** A type with a schema shares its name with no other type of the set. */
  ghost predicate Clear(g: Graph, rs: set<TypeID>) {
    forall a, b :: a in rs && b in rs && a in g && b in g && g[a].name == g[b].name && g[a].hasSchema ==> a == b
  }

  ghost predicate NoClash(g: Graph, roots: seq<Root>) { forall ns :: Clear(g, Reached(g, roots, ns)) }

  /** A set of types that the walk does not leave. */
  ghost predicate Within(g: Graph, rs: set<TypeID>) {
    rs <= g.Keys && forall t, s :: t in rs && s in Succ(g, t) ==> s in rs
  }

  lemma {:induction false} ReachedWithin(g: Graph, roots: seq<Root>, ns: Str)
    requires Closed(g)
    ensures Within(g, Reached(g, roots, ns))
  {
    var rs := Reached(g, roots, ns);
    forall t, s | t in rs && s in Succ(g, t) ensures s in rs {
      var r :| r in roots && RootReaches(g, r, ns, t);
      RootReachesTarget(g, r, ns, t);
      ReachesOn(g, RootTarget(r.typ.value).value, t, s);
      RootReachesTarget(g, r, ns, s);
      assert RootReaches(g, r, ns, s);
    }
  }

  // ---------------------------------------------------------------------
  // One walk: what it raises is settled
  // ---------------------------------------------------------------------

  /** No field of `t` is less visible than `t`. */
  ghost predicate Settled(g: Graph, ns: Str, e: Table, t: TypeID)
    requires t in g
  {
    forall s :: s in Succ(g, t) && s in g ==> Level(e.vis, KeyOf(g, ns, s)) >= Level(e.vis, KeyOf(g, ns, t))
  }

  /** The keys of the namespace stand for types of the set, each with a schema, and
      every such type that has a level is listed as itself. */
  ghost predicate Listed(g: Graph, rs: set<TypeID>, ns: Str, e: Table) {
    && (forall t :: t in rs && t in g && g[t].hasSchema && KeyOf(g, ns, t) in e.vis ==>
          KeyOf(g, ns, t) in e.types && e.types[KeyOf(g, ns, t)] == t)
    && (forall k :: k in e.types && k.ns == ns ==>
          var t := e.types[k]; t in rs && t in g && g[t].hasSchema && KeyOf(g, ns, t) == k)
  }

  ghost predicate Changed(g: Graph, ns: Str, e: Table, e': Table, t: TypeID)
    requires t in g
  {
    Level(e'.vis, KeyOf(g, ns, t)) != Level(e.vis, KeyOf(g, ns, t))
  }

  /** What a walk from `from` did to a type it raised: the walk's level, settled, reached. */
  ghost predicate Raised(g: Graph, ns: Str, e': Table, from: seq<TypeID>, vis: Vis, t: TypeID)
    requires t in g
  {
    && Level(e'.vis, KeyOf(g, ns, t)) == vis
    && Settled(g, ns, e', t)
    && exists s :: s in from && Reaches(g, s, t)
  }

  ghost predicate WalkOk(g: Graph, rs: set<TypeID>, ns: Str, e: Table, e': Table, from: seq<TypeID>, vis: Vis) {
    && Grows(e, e')
    && Listed(g, rs, ns, e')
    && (forall s :: s in from && s in g ==> Level(e'.vis, KeyOf(g, ns, s)) >= vis)
    && (forall t :: t in rs && t in g && g[t].hasSchema && Changed(g, ns, e, e', t) ==> Raised(g, ns, e', from, vis, t))
  }

  /** Other namespaces are not touched. */
  ghost predicate Local(ns: Str, e: Table, e': Table) {
    forall k: Key :: k.ns != ns ==>
      && Level(e'.vis, k) == Level(e.vis, k)
      && (k in e'.types <==> k in e.types) && (k in e.types ==> e'.types[k] == e.types[k])
  }

  lemma {:induction false} AssignLocal(g: Graph, ns: Str, e: Table, t: TypeID, vis: Vis)
    requires Closed(g) && t in g
    ensures Local(ns, e, Assign(g, ns, e, t, vis))
    decreases Open(g, ns, e), 0
  {
    if Level(e.vis, KeyOf(g, ns, t)) < vis {
      OpenShrinks(g, ns, e, t, vis);
      AssignAllLocal(g, ns, Enter(g, ns, e, t, vis), Fields(g, t), vis);
    }
  }

  lemma {:induction false} AssignAllLocal(g: Graph, ns: Str, e: Table, ts: seq<TypeID>, vis: Vis)
    requires Closed(g) && (forall t :: t in ts ==> t in g)
    ensures Local(ns, e, AssignAll(g, ns, e, ts, vis))
    decreases Open(g, ns, e), |ts| + 1
  {
    if ts != [] {
      var e1 := Assign(g, ns, e, ts[0], vis);
      AssignLocal(g, ns, e, ts[0], vis);
      assert Open(g, ns, e1) <= Open(g, ns, e);
      AssignAllLocal(g, ns, e1, ts[1..], vis);
    }
  }

  /** On entry a key of a clear set stands for the type itself, or for nothing. */
  lemma EnterListed(g: Graph, rs: set<TypeID>, ns: Str, e: Table, t: TypeID, vis: Vis)
    requires Within(g, rs) && Clear(g, rs) && Listed(g, rs, ns, e) && t in rs
    ensures Listed(g, rs, ns, Enter(g, ns, e, t, vis))
    ensures KeyOf(g, ns, t) in Enter(g, ns, e, t, vis).types <==> g[t].hasSchema
  {
    var k, e' := KeyOf(g, ns, t), Enter(g, ns, e, t, vis);
    if k in e.types { assert e.types[k] == t; }
    forall x | x in rs && x in g && g[x].hasSchema && KeyOf(g, ns, x) in e'.vis
      ensures KeyOf(g, ns, x) in e'.types && e'.types[KeyOf(g, ns, x)] == x
    {
      if KeyOf(g, ns, x) == k { assert x == t; } else { assert KeyOf(g, ns, x) in e.vis; }
    }
  }

  lemma {:induction false} AssignWalk(g: Graph, rs: set<TypeID>, ns: Str, e: Table, t: TypeID, vis: Vis)
    requires Closed(g) && Within(g, rs) && Clear(g, rs) && Listed(g, rs, ns, e) && t in rs
    ensures WalkOk(g, rs, ns, e, Assign(g, ns, e, t, vis), [t], vis)
    decreases Open(g, ns, e), 0
  {
    var k := KeyOf(g, ns, t);
    if Level(e.vis, k) < vis {
      OpenShrinks(g, ns, e, t, vis);
      EnterListed(g, rs, ns, e, t, vis);
      var entered, e' := Enter(g, ns, e, t, vis), Assign(g, ns, e, t, vis);
      assert t in [t];
      if g[t].hasSchema {
        AssignAllWalk(g, rs, ns, entered, Fields(g, t), vis);
        WalkFromFields(g, rs, ns, e, e', t, vis);
      } else {
        forall x | x in rs && x in g && g[x].hasSchema ensures !Changed(g, ns, e, e', x) {
          assert KeyOf(g, ns, x) != k;
        }
      }
    }
  }

  lemma WalkFromFields(g: Graph, rs: set<TypeID>, ns: Str, e: Table, e': Table, t: TypeID, vis: Vis)
    requires Within(g, rs) && Clear(g, rs) && t in rs && g[t].hasSchema && Level(e.vis, KeyOf(g, ns, t)) < vis
    requires Grows(e, e') && WalkOk(g, rs, ns, Enter(g, ns, e, t, vis), e', Fields(g, t), vis)
    ensures WalkOk(g, rs, ns, e, e', [t], vis)
  {
    var entered := Enter(g, ns, e, t, vis);
    assert t in [t];
    ReachesSelf(g, t);
    assert Level(entered.vis, KeyOf(g, ns, t)) == vis;
    assert !Changed(g, ns, entered, e', t);
    assert Settled(g, ns, e', t);
    forall x | x in rs && x in g && g[x].hasSchema && Changed(g, ns, e, e', x) ensures Raised(g, ns, e', [t], vis, x) {
      if Changed(g, ns, entered, e', x) {
        assert Raised(g, ns, e', Fields(g, t), vis, x);
        var s :| s in Fields(g, t) && Reaches(g, s, x);
        ReachesStep(g, t, s, x);
      } else {
        assert KeyOf(g, ns, x) == KeyOf(g, ns, t);
        assert x == t;
      }
    }
  }

  lemma {:induction false} AssignAllWalk(g: Graph, rs: set<TypeID>, ns: Str, e: Table, ts: seq<TypeID>, vis: Vis)
    requires Closed(g) && Within(g, rs) && Clear(g, rs) && Listed(g, rs, ns, e) && (forall t :: t in ts ==> t in rs)
    ensures WalkOk(g, rs, ns, e, AssignAll(g, ns, e, ts, vis), ts, vis)
    decreases Open(g, ns, e), |ts| + 1
  {
    if ts != [] {
      var e1 := Assign(g, ns, e, ts[0], vis);
      AssignWalk(g, rs, ns, e, ts[0], vis);
      assert Open(g, ns, e1) <= Open(g, ns, e);
      AssignAllWalk(g, rs, ns, e1, ts[1..], vis);
      WalkCompose(g, rs, ns, e, e1, AssignAll(g, ns, e, ts, vis), ts, vis);
    }
  }

  lemma WalkCompose(
    g: Graph, rs: set<TypeID>, ns: Str, e: Table, e1: Table, e2: Table, ts: seq<TypeID>, vis: Vis)
    requires ts != []
    requires WalkOk(g, rs, ns, e, e1, [ts[0]], vis) && WalkOk(g, rs, ns, e1, e2, ts[1..], vis)
    ensures WalkOk(g, rs, ns, e, e2, ts, vis)
  {
    forall s | s in ts && s in g ensures Level(e2.vis, KeyOf(g, ns, s)) >= vis {
      if s == ts[0] { assert s in [ts[0]]; } else { assert s in ts[1..]; }
    }
    forall t | t in rs && t in g && g[t].hasSchema && Changed(g, ns, e, e2, t) ensures Raised(g, ns, e2, ts, vis, t) {
      if Changed(g, ns, e1, e2, t) {
        assert Raised(g, ns, e2, ts[1..], vis, t);
        var s :| s in ts[1..] && Reaches(g, s, t);
        assert s in ts;
      } else {
        assert Raised(g, ns, e1, [ts[0]], vis, t);
        var s :| s in [ts[0]] && Reaches(g, s, t);
        assert s in ts;
      }
    }
  }

  // ---------------------------------------------------------------------
  // A whole export: the least fixpoint
  // ---------------------------------------------------------------------

  ghost function ExportRoot(g: Graph, e: Table, r: Root): Table
    requires Closed(g) && RootsIn(g, [r])
  {
    if r.typ.Some? && RootTarget(r.typ.value).Some?
    then assert r in [r]; Assign(g, r.ns, e, RootTarget(r.typ.value).value, r.vis)
    else e
  }

  /** The first pass of buildGosporeManifest over everything the cells expose. */
  ghost function Export(g: Graph, roots: seq<Root>): Table
    requires Closed(g) && RootsIn(g, roots)
  {
    if roots == [] then NOTHING
    else
      var r := roots[|roots| - 1];
      assert r in roots;
      ExportRoot(g, Export(g, roots[..|roots| - 1]), r)
  }

  ghost predicate Fixpoint(g: Graph, all: seq<Root>, e: Table) {
    forall ns, t :: t in Reached(g, all, ns) ==> Settled(g, ns, e, t)
  }

  ghost predicate AllListed(g: Graph, all: seq<Root>, e: Table) {
    forall ns :: Listed(g, Reached(g, all, ns), ns, e)
  }

  /** Some root is the reason for the level of `t`. */
  ghost predicate Caused(g: Graph, roots: seq<Root>, ns: Str, t: TypeID, level: int) {
    exists r :: r in roots && RootReaches(g, r, ns, t) && r.vis == level
  }

  ghost predicate Justified(g: Graph, all: seq<Root>, roots: seq<Root>, e: Table) {
    forall ns, t :: t in Reached(g, all, ns) && g[t].hasSchema && KeyOf(g, ns, t) in e.vis ==>
      Caused(g, roots, ns, t, e.vis[KeyOf(g, ns, t)])
  }

  ghost predicate Served(g: Graph, roots: seq<Root>, e: Table) {
    forall r :: r in roots && r.typ.Some? && RootTarget(r.typ.value).Some? && RootTarget(r.typ.value).value in g ==>
      Level(e.vis, KeyOf(g, r.ns, RootTarget(r.typ.value).value)) >= r.vis
  }

  ghost predicate ExportOk(g: Graph, all: seq<Root>, roots: seq<Root>, e: Table) {
    Fixpoint(g, all, e) && AllListed(g, all, e) && Justified(g, all, roots, e) && Served(g, roots, e)
  }

  lemma {:induction false} ExportInvariant(g: Graph, all: seq<Root>, roots: seq<Root>)
    requires Closed(g) && RootsIn(g, all) && NoClash(g, all) && (forall r :: r in roots ==> r in all)
    requires RootsIn(g, roots)
    ensures ExportOk(g, all, roots, Export(g, roots))
    decreases |roots|
  {
    if roots != [] {
      var before, r := roots[..|roots| - 1], roots[|roots| - 1];
      assert r in roots;
      ExportInvariant(g, all, before);
      if r.typ.Some? && RootTarget(r.typ.value).Some? {
        ExportStep(g, all, before, r, RootTarget(r.typ.value).value);
        assert roots == before + [r];
      } else {
        MoreRoots(g, all, before, r, Export(g, before));
        assert roots == before + [r];
      }
    }
  }

  /** A root that is no struct changes nothing. */
  lemma MoreRoots(g: Graph, all: seq<Root>, before: seq<Root>, r: Root, e: Table)
    requires Justified(g, all, before, e)
    ensures Justified(g, all, before + [r], e)
  {
    forall ns, t | t in Reached(g, all, ns) && g[t].hasSchema && KeyOf(g, ns, t) in e.vis
      ensures Caused(g, before + [r], ns, t, e.vis[KeyOf(g, ns, t)])
    {
      var q :| q in before && RootReaches(g, q, ns, t) && q.vis == e.vis[KeyOf(g, ns, t)];
      assert q in before + [r];
    }
  }

  lemma {:induction false} ExportStep(g: Graph, all: seq<Root>, before: seq<Root>, r: Root, t: TypeID)
    requires Closed(g) && RootsIn(g, before) && NoClash(g, all)
    requires r in all && r.typ.Some? && RootTarget(r.typ.value) == Some(t) && t in g
    requires ExportOk(g, all, before, Export(g, before))
    ensures ExportOk(g, all, before + [r], Assign(g, r.ns, Export(g, before), t, r.vis))
  {
    var e := Export(g, before);
    var e' := Assign(g, r.ns, e, t, r.vis);
    ReachesSelf(g, t);
    RootReachesTarget(g, r, r.ns, t);
    assert RootReaches(g, r, r.ns, t) && t in Reached(g, all, r.ns);
    ReachedWithin(g, all, r.ns);
    AssignWalk(g, Reached(g, all, r.ns), r.ns, e, t, r.vis);
    AssignLocal(g, r.ns, e, t, r.vis);
    StepFixpoint(g, all, e, e', r, t);
    StepListed(g, all, e, e', r, t);
    StepJustified(g, all, before, e, e', r, t);
    assert t in [t];
  }

  lemma StepFixpoint(g: Graph, all: seq<Root>, e: Table, e': Table, r: Root, t: TypeID)
    requires WalkOk(g, Reached(g, all, r.ns), r.ns, e, e', [t], r.vis) && Local(r.ns, e, e') && Fixpoint(g, all, e)
    ensures Fixpoint(g, all, e')
  {
    forall ns, x | x in Reached(g, all, ns) ensures Settled(g, ns, e', x) {
      assert Settled(g, ns, e, x);
      if ns == r.ns && g[x].hasSchema {
        if Changed(g, ns, e, e', x) { assert Raised(g, ns, e', [t], r.vis, x); }
      } else if ns != r.ns {
        assert !Changed(g, ns, e, e', x);
      }
    }
  }

  lemma StepListed(g: Graph, all: seq<Root>, e: Table, e': Table, r: Root, t: TypeID)
    requires WalkOk(g, Reached(g, all, r.ns), r.ns, e, e', [t], r.vis) && Local(r.ns, e, e') && AllListed(g, all, e)
    ensures AllListed(g, all, e')
  {
    forall ns ensures Listed(g, Reached(g, all, ns), ns, e') {
      assert Listed(g, Reached(g, all, ns), ns, e);
      if ns != r.ns {
        forall x | x in Reached(g, all, ns) && g[x].hasSchema && KeyOf(g, ns, x) in e'.vis
          ensures KeyOf(g, ns, x) in e'.types && e'.types[KeyOf(g, ns, x)] == x
        {
          assert !Changed(g, ns, e, e', x);
        }
      }
    }
  }

  lemma StepJustified(g: Graph, all: seq<Root>, before: seq<Root>, e: Table, e': Table, r: Root, t: TypeID)
    requires r.typ.Some? && RootTarget(r.typ.value) == Some(t)
    requires WalkOk(g, Reached(g, all, r.ns), r.ns, e, e', [t], r.vis) && Local(r.ns, e, e')
    requires Justified(g, all, before, e)
    ensures Justified(g, all, before + [r], e')
  {
    forall ns, x | x in Reached(g, all, ns) && g[x].hasSchema && KeyOf(g, ns, x) in e'.vis
      ensures Caused(g, before + [r], ns, x, e'.vis[KeyOf(g, ns, x)])
    {
      var k := KeyOf(g, ns, x);
      if Changed(g, ns, e, e', x) {
        assert ns == r.ns && Raised(g, ns, e', [t], r.vis, x);
        RootReachesTarget(g, r, ns, x);
        assert r in before + [r] && RootReaches(g, r, ns, x);
      } else {
        var q :| q in before && RootReaches(g, q, ns, x) && q.vis == e.vis[k];
        assert q in before + [r];
      }
    }
  }

  lemma {:induction false} SettledAlongPath(g: Graph, rs: set<TypeID>, ns: Str, e: Table, p: seq<TypeID>)
    requires Within(g, rs) && (forall t :: t in rs ==> Settled(g, ns, e, t)) && IsPath(g, p) && p[0] in rs
    ensures p[|p| - 1] in rs && Level(e.vis, KeyOf(g, ns, p[|p| - 1])) >= Level(e.vis, KeyOf(g, ns, p[0]))
    decreases |p|
  {
    if |p| > 1 {
      var last := |p| - 1;
      PathPrefix(g, p);
      SettledAlongPath(g, rs, ns, e, p[..last]);
      assert p[..last][|p[..last]| - 1] == p[last - 1] && p[..last][0] == p[0];
      assert Settled(g, ns, e, p[last - 1]);
    }
  }

  lemma PathPrefix(g: Graph, p: seq<TypeID>)
    requires IsPath(g, p) && |p| > 1
    ensures IsPath(g, p[..|p| - 1]) && p[|p| - 2] in g && p[|p| - 1] in g && p[|p| - 1] in Succ(g, p[|p| - 2])
  {
    var q := p[..|p| - 1];
    forall i | 0 <= i < |q| - 1 ensures Leads(g, q[i], q[i + 1]) { assert Leads(g, p[i], p[i + 1]); }
    assert forall t :: t in q ==> t in p;
    var last := |p| - 2;
    LeadsIsSucc(g, p[last], p[last + 1]);
    assert Leads(g, p[last], p[last + 1]);
  }

  // ---------------------------------------------------------------------
  // When the manifest is right
  // ---------------------------------------------------------------------

  /** What a use of `t` in `ns` is taken for: the struct its key stands for, if any. */
  function Resolve(g: Graph, e: Table, ns: Str, t: TypeID): Option<TypeID>
    requires t in g
  {
    if KeyOf(g, ns, t) in e.types then Some(e.types[KeyOf(g, ns, t)]) else None
  }

  /** Every reached type stands for itself, or for nothing if it has no schema; and the
      manifest lists no other type. */
  ghost predicate ListsReached(g: Graph, roots: seq<Root>, e: Table) {
    && (forall ns, t :: t in Reached(g, roots, ns) ==>
          Resolve(g, e, ns, t) == if g[t].hasSchema then Some(t) else None)
    && (forall k :: k in e.types ==>
          e.types[k] in Reached(g, roots, k.ns) && KeyOf(g, k.ns, e.types[k]) == k)
  }

  /** Every listed type has the maximum visibility of the roots that reach it. */
  ghost predicate MaximumLevels(g: Graph, roots: seq<Root>, e: Table) {
    forall ns, t :: t in Reached(g, roots, ns) && g[t].hasSchema ==>
      && (forall r :: r in roots && RootReaches(g, r, ns, t) ==> r.vis <= Level(e.vis, KeyOf(g, ns, t)))
      && Caused(g, roots, ns, t, Level(e.vis, KeyOf(g, ns, t)))
  }

  /** Whatever the cycles and the order of the roots: every reached type resolves to itself,
      or to nothing without a schema, nothing else is listed, and the listed types have
      their maximum visibility, if and only if no type with a schema shares its name with
      another type reached in its namespace. */
  lemma ExportIsMaximum(g: Graph, roots: seq<Root>)
    requires Closed(g) && RootsIn(g, roots)
    ensures NoClash(g, roots) <==>
      ListsReached(g, roots, Export(g, roots)) && MaximumLevels(g, roots, Export(g, roots))
  {
    var e := Export(g, roots);
    if NoClash(g, roots) {
      ExportInvariant(g, roots, roots);
      ClearLists(g, roots, e);
      ClearLevels(g, roots, e);
    }
    if ListsReached(g, roots, e) { ListsClear(g, roots, e); }
  }

  lemma {:induction false} RootLevel(g: Graph, roots: seq<Root>, e: Table, r: Root, ns: Str, t: TypeID)
    requires Closed(g) && RootsIn(g, roots) && ExportOk(g, roots, roots, e)
    requires r in roots && RootReaches(g, r, ns, t) && t in g
    ensures r.vis <= Level(e.vis, KeyOf(g, ns, t))
  {
    RootReachesTarget(g, r, ns, t);
    var a := RootTarget(r.typ.value).value;
    ReachesSelf(g, a);
    RootReachesTarget(g, r, ns, a);
    assert RootReaches(g, r, ns, a) && a in Reached(g, roots, ns);
    ReachedWithin(g, roots, ns);
    var p :| IsPath(g, p) && p[0] == a && p[|p| - 1] == t;
    SettledAlongPath(g, Reached(g, roots, ns), ns, e, p);
  }

  lemma {:induction false} ClearLists(g: Graph, roots: seq<Root>, e: Table)
    requires Closed(g) && RootsIn(g, roots) && NoClash(g, roots) && ExportOk(g, roots, roots, e)
    ensures ListsReached(g, roots, e)
  {
    forall ns, t | t in Reached(g, roots, ns)
      ensures Resolve(g, e, ns, t) == if g[t].hasSchema then Some(t) else None
    {
      var r :| r in roots && RootReaches(g, r, ns, t);
      RootLevel(g, roots, e, r, ns, t);
      assert Listed(g, Reached(g, roots, ns), ns, e) && Clear(g, Reached(g, roots, ns));
    }
    forall k | k in e.types ensures e.types[k] in Reached(g, roots, k.ns) && KeyOf(g, k.ns, e.types[k]) == k {
      assert Listed(g, Reached(g, roots, k.ns), k.ns, e);
    }
  }

  lemma {:induction false} ClearLevels(g: Graph, roots: seq<Root>, e: Table)
    requires Closed(g) && RootsIn(g, roots) && NoClash(g, roots) && ExportOk(g, roots, roots, e)
    ensures MaximumLevels(g, roots, e)
  {
    forall ns, t | t in Reached(g, roots, ns) && g[t].hasSchema
      ensures forall r :: r in roots && RootReaches(g, r, ns, t) ==> r.vis <= Level(e.vis, KeyOf(g, ns, t))
      ensures Caused(g, roots, ns, t, Level(e.vis, KeyOf(g, ns, t)))
    {
      forall r | r in roots && RootReaches(g, r, ns, t) ensures r.vis <= Level(e.vis, KeyOf(g, ns, t)) {
        RootLevel(g, roots, e, r, ns, t);
      }
    }
  }

  lemma ListsClear(g: Graph, roots: seq<Root>, e: Table)
    requires ListsReached(g, roots, e)
    ensures NoClash(g, roots)
  {
    forall ns, a, b |
      a in Reached(g, roots, ns) && b in Reached(g, roots, ns) && g[a].name == g[b].name && g[a].hasSchema
      ensures a == b
    {
      assert Resolve(g, e, ns, a) == Some(a) && Resolve(g, e, ns, b) == Resolve(g, e, ns, a);
    }
  }

  /** Types 0 and 1 share a name; only 1 leads on, to type 2. */
  const TWO_OF_A_NAME: Graph := map[
    0 := StructDef([88], [], true),
    1 := StructDef([88], [Field(true, Struct(2))], true),
    2 := StructDef([67], [], true)]

  const BOTH: seq<Root> := [Root([], Some(Struct(0)), 3), Root([], Some(Struct(1)), 3)]

  lemma TwoOfANameFields()
    ensures Closed(TWO_OF_A_NAME) && Fields(TWO_OF_A_NAME, 0) == [] && Succ(TWO_OF_A_NAME, 1) == [2]
  {
    var fs := TWO_OF_A_NAME[1].fields;
    assert fs[..0] == [];
    assert FieldListTargets(fs) == FieldListTargets([]) + FieldTargets(Struct(2));
  }

  lemma TwoOfANameExport()
    ensures Closed(TWO_OF_A_NAME) && RootsIn(TWO_OF_A_NAME, BOTH)
    ensures Export(TWO_OF_A_NAME, BOTH) == Table(map[Key([], [88]) := 3], map[Key([], [88]) := 0], [Key([], [88])])
  {
    var g := TWO_OF_A_NAME;
    TwoOfANameFields();
    var seen := Table(map[Key([], [88]) := 3], map[Key([], [88]) := 0], [Key([], [88])]);
    assert RootsIn(g, BOTH) && BOTH[..1] == [BOTH[0]] && BOTH[..1][..0] == [];
    assert Enter(g, [], NOTHING, 0, 3) == seen;
    assert Assign(g, [], NOTHING, 0, 3) == AssignAll(g, [], seen, [], 3);
    assert Export(g, BOTH[..1]) == ExportRoot(g, Export(g, []), BOTH[0]) == seen;
    assert Export(g, BOTH) == ExportRoot(g, seen, BOTH[1]) == Assign(g, [], seen, 1, 3);
  }

  /** Two structs of one name share an entry: the second is taken for seen, and what
      only it reaches is lost. */
  lemma NameCollisionLosesFields()
    ensures var g := TWO_OF_A_NAME;
      && Closed(g) && RootsIn(g, BOTH) && !NoClash(g, BOTH)
      && 2 in Reached(g, BOTH, []) && g[2].hasSchema && KeyOf(g, [], 2) !in Export(g, BOTH).types
  {
    var g := TWO_OF_A_NAME;
    TwoOfANameFields();
    TwoOfANameExport();
    LeadsIsSucc(g, 1, 2);
    assert IsPath(g, [1, 2]) && Reaches(g, 1, 2);
    RootReachesTarget(g, BOTH[1], [], 2);
    assert BOTH[1] in BOTH && RootReaches(g, BOTH[1], [], 2);
    ExportIsMaximum(g, BOTH);
    assert Resolve(g, Export(g, BOTH), [], 2) != Some(2);
  }

  // ---------------------------------------------------------------------
  // Schema IDs
  // ---------------------------------------------------------------------

  /** The smallest number from `start` on that is not taken. */
  function NextFree(taken: set<nat>, start: nat): (id: nat)
    ensures id >= start && id !in taken
    ensures forall j :: start <= j < id ==> j in taken
    decreases |taken|
  {
    if start in taken then
      var id := NextFree(taken - {start}, start + 1);
      assert forall j :: start <= j < id ==> j in taken by {
        forall j | start <= j < id ensures j in taken { if j > start { assert j in taken - {start}; } }
      }
      id
    else start
  }

  /** A type's own ID, registered or builtin, is used unseen; the others get a free one. */
  function IssueID(known: map<TypeID, nat>, t: TypeID, ids: map<Key, nat>): nat {
    if t in known then known[t] else NextFree(ids.Values, USER_START)
  }

  function TypeAt(types: map<Key, TypeID>, k: Key): TypeID { if k in types then types[k] else 0 }

  /** The IDs given out to the keys in `order`. */
  function IDsOf(known: map<TypeID, nat>, types: map<Key, TypeID>, order: seq<Key>): map<Key, nat> {
    if order == [] then map[]
    else
      var k := order[|order| - 1];
      var ids := IDsOf(known, types, order[..|order| - 1]);
      ids[k := IssueID(known, TypeAt(types, k), ids)]
  }

  lemma {:induction false} IDsKeys(known: map<TypeID, nat>, types: map<Key, TypeID>, order: seq<Key>)
    ensures forall k :: k in IDsOf(known, types, order) <==> k in order
  {
    if order != [] {
      var n := |order| - 1;
      IDsKeys(known, types, order[..n]);
      assert order == order[..n] + [order[n]];
    }
  }

  lemma {:induction false} IDsFrame(
    known: map<TypeID, nat>, types: map<Key, TypeID>, order: seq<Key>, k: Key, t: TypeID)
    requires k !in order
    ensures IDsOf(known, types[k := t], order) == IDsOf(known, types, order)
  {
    if order != [] { IDsFrame(known, types, order[..|order| - 1], k, t); }
  }

  lemma IDsAppend(known: map<TypeID, nat>, types: map<Key, TypeID>, order: seq<Key>, k: Key, t: TypeID)
    requires k !in IDsOf(known, types, order)
    ensures var ids := IDsOf(known, types, order);
      IDsOf(known, types[k := t], order + [k]) == ids[k := IssueID(known, t, ids)]
  {
    IDsKeys(known, types, order);
    IDsFrame(known, types, order, k, t);
    assert (order + [k])[..|order|] == order;
  }

  ghost predicate Distinct(ids: map<Key, nat>) { forall a, b :: a in ids && b in ids && ids[a] == ids[b] ==> a == b }

  /** The `j`-th type to be visited brings an ID that has been given out already. */
  ghost predicate Taken(known: map<TypeID, nat>, types: map<Key, TypeID>, order: seq<Key>, j: nat)
  {
    && j < |order| && TypeAt(types, order[j]) in known
    && known[TypeAt(types, order[j])] in IDsOf(known, types, order[..j]).Values
  }

  lemma AddDistinct(ids: map<Key, nat>, k: Key, id: nat)
    requires k !in ids
    ensures Distinct(ids[k := id]) <==> Distinct(ids) && id !in ids.Values
  {
    var m := ids[k := id];
    if Distinct(m) {
      forall a, b | a in ids && b in ids && ids[a] == ids[b] ensures a == b { assert m[a] == m[b]; }
      forall a | a in ids ensures ids[a] != id { assert m[a] == ids[a] && m[k] == id; }
    }
  }

  lemma TakenInPrefix(known: map<TypeID, nat>, types: map<Key, TypeID>, order: seq<Key>, j: nat)
    requires j + 1 < |order|
    ensures Taken(known, types, order, j) == Taken(known, types, order[..|order| - 1], j)
  {
    assert order[..|order| - 1][..j] == order[..j];
  }

  lemma {:induction false} OrderedIDsDistinct(known: map<TypeID, nat>, types: map<Key, TypeID>, order: seq<Key>)
    requires forall i, j :: 0 <= i < j < |order| ==> order[i] != order[j]
    ensures Distinct(IDsOf(known, types, order)) <==> forall j: nat :: !Taken(known, types, order, j)
  {
    if order != [] {
      var n := |order| - 1;
      var before := order[..n];
      var ids := IDsOf(known, types, before);
      OrderedIDsDistinct(known, types, before);
      IDsKeys(known, types, before);
      AddDistinct(ids, order[n], IssueID(known, TypeAt(types, order[n]), ids));
      assert Taken(known, types, order, n) <==> IssueID(known, TypeAt(types, order[n]), ids) in ids.Values;
      forall j: nat | j < n ensures Taken(known, types, order, j) == Taken(known, types, before, j) {
        TakenInPrefix(known, types, order, j);
      }
      assert (forall j: nat :: !Taken(known, types, order, j)) <==>
        (forall j: nat :: !Taken(known, types, before, j)) && !Taken(known, types, order, n);
    }
  }

  /** Two schemas of a manifest share an ID if and only if, on its first visit, a type
      brings an ID of its own that was given out before. */
  lemma ExportIDsDistinct(g: Graph, known: map<TypeID, nat>, roots: seq<Root>)
    requires Closed(g) && RootsIn(g, roots)
    ensures var e := Export(g, roots);
      && OrderOk(e)
      && (Distinct(IDsOf(known, e.types, e.order)) <==> forall j: nat :: !Taken(known, e.types, e.order, j))
  {
    ExportOrdered(g, roots);
    var e := Export(g, roots);
    OrderedIDsDistinct(known, e.types, e.order);
  }

  lemma {:induction false} ExportOrdered(g: Graph, roots: seq<Root>)
    requires Closed(g) && RootsIn(g, roots)
    ensures OrderOk(Export(g, roots))
  {
    if roots != [] {
      assert roots[|roots| - 1] in roots;
      ExportOrdered(g, roots[..|roots| - 1]);
    }
  }

  /** What can be checked before an export: the IDs that reached types bring are below the
      first user ID, and no two keys bring the same. */
  ghost predicate BringsApart(g: Graph, known: map<TypeID, nat>, roots: seq<Root>) {
    && (forall ns, t :: t in Reached(g, roots, ns) && t in known ==> known[t] < USER_START)
    && (forall ns, ns', t, t' ::
          (&& t in Reached(g, roots, ns) && t' in Reached(g, roots, ns')
           && t in known && t' in known && KeyOf(g, ns, t) != KeyOf(g, ns', t')) ==> known[t] != known[t'])
  }

  lemma {:induction false} IDValue(known: map<TypeID, nat>, types: map<Key, TypeID>, order: seq<Key>, k: Key)
    requires k in IDsOf(known, types, order)
    ensures var id, t := IDsOf(known, types, order)[k], TypeAt(types, k);
      if t in known then id == known[t] else id >= USER_START
  {
    var n := |order| - 1;
    if order[n] != k { IDValue(known, types, order[..n], k); }
  }

  /** A type that brings no ID gets the smallest user ID not given out before its first visit. */
  lemma {:induction false} FreeIDIsLeast(known: map<TypeID, nat>, types: map<Key, TypeID>, order: seq<Key>, j: nat)
    requires (forall i, l :: 0 <= i < l < |order| ==> order[i] != order[l])
    requires j < |order| && TypeAt(types, order[j]) !in known
    ensures var ids, before := IDsOf(known, types, order), IDsOf(known, types, order[..j]).Values;
      && order[j] in ids && ids[order[j]] >= USER_START && ids[order[j]] !in before
      && forall m :: USER_START <= m < ids[order[j]] ==> m in before
  {
    var n := |order| - 1;
    if j < n {
      assert order[..n][..j] == order[..j];
      FreeIDIsLeast(known, types, order[..n], j);
    }
  }

  lemma NotTaken(g: Graph, known: map<TypeID, nat>, roots: seq<Root>, e: Table, j: nat)
    requires BringsApart(g, known, roots) && ListsReached(g, roots, e) && OrderOk(e)
    ensures !Taken(known, e.types, e.order, j)
  {
    if j < |e.order| && TypeAt(e.types, e.order[j]) in known {
      var k, ids := e.order[j], IDsOf(known, e.types, e.order[..j]);
      assert k in e.types && e.types[k] in Reached(g, roots, k.ns);
      forall k' | k' in ids ensures ids[k'] != known[e.types[k]] {
        IDsKeys(known, e.types, e.order[..j]);
        IDValue(known, e.types, e.order[..j], k');
        assert k' != k && k' in e.types && e.types[k'] in Reached(g, roots, k'.ns);
      }
    }
  }

  /** Under that condition, and without name clashes, all schema IDs are distinct. */
  lemma ApartIDsDistinct(g: Graph, known: map<TypeID, nat>, roots: seq<Root>)
    requires Closed(g) && RootsIn(g, roots) && NoClash(g, roots) && BringsApart(g, known, roots)
    ensures var e := Export(g, roots); Distinct(IDsOf(known, e.types, e.order))
  {
    ExportIDsDistinct(g, known, roots);
    ExportIsMaximum(g, roots);
    forall j: nat ensures !Taken(known, Export(g, roots).types, Export(g, roots).order, j) {
      NotTaken(g, known, roots, Export(g, roots), j);
    }
  }

  /** Two structs without fields, each a root; the second is registered as USER_START. */
  const TWO_PLAIN: Graph := map[0 := StructDef([65], [], true), 1 := StructDef([66], [], true)]

  const IN_TURN: seq<Root> := [Root([], Some(Struct(0)), 3), Root([], Some(Struct(1)), 3)]

  lemma TwoPlainExport()
    ensures Closed(TWO_PLAIN) && RootsIn(TWO_PLAIN, IN_TURN)
    ensures var a, b := Key([], [65]), Key([], [66]);
      Export(TWO_PLAIN, IN_TURN) == Table(map[a := 3, b := 3], map[a := 0, b := 1], [a, b])
  {
    var g, a, b := TWO_PLAIN, Key([], [65]), Key([], [66]);
    assert Fields(g, 0) == [] && Fields(g, 1) == [] && Closed(g);
    assert RootsIn(g, IN_TURN) && IN_TURN[..1] == [IN_TURN[0]] && IN_TURN[..1][..0] == [];
    var first := Table(map[a := 3], map[a := 0], [a]);
    assert Enter(g, [], NOTHING, 0, 3) == first;
    assert Export(g, IN_TURN[..1]) == ExportRoot(g, Export(g, []), IN_TURN[0]) == first;
    assert Enter(g, [], first, 1, 3) == Table(map[a := 3, b := 3], map[a := 0, b := 1], [a, b]);
    assert Export(g, IN_TURN) == ExportRoot(g, first, IN_TURN[1]);
  }

  lemma FreeThenOwn(a: Key, b: Key)
    requires a != b
    ensures !Distinct(IDsOf(map[1 := USER_START], map[a := 0, b := 1], [a, b]))
  {
    var known: map<TypeID, nat>, types: map<Key, TypeID> := map[1 := USER_START], map[a := 0, b := 1];
    assert [a, b][..1] == [a] && [a][..0] == [];
    var none: map<Key, nat> := map[];
    assert NextFree(none.Values, USER_START) == USER_START;
    var ids := IDsOf(known, types, [a, b]);
    assert IDsOf(known, types, [a]) == map[a := USER_START];
    assert ids[a] == ids[b];
  }

  /** It happens, without any clash of names: the struct visited first takes the number
      that the registered one brings. */
  lemma FreeIDIsRegistered()
    ensures forall a, b :: a in TWO_PLAIN && b in TWO_PLAIN && TWO_PLAIN[a].name == TWO_PLAIN[b].name ==> a == b
    ensures var e := Export(TWO_PLAIN, IN_TURN); !Distinct(IDsOf(map[1 := USER_START], e.types, e.order))
  {
    TwoPlainExport();
    FreeThenOwn(Key([], [65]), Key([], [66]));
  }

  // ---------------------------------------------------------------------
  // The closures, as an object
  // ---------------------------------------------------------------------

  class Exporter {
    const g: Graph
    /** IDs that do not come from nextFreeStructID: registered schemas and builtins. */
    const known: map<TypeID, nat>
    var structVis: VisMap
    var structTypes: map<Key, TypeID>
    var structIDs: map<Key, nat>
    ghost var order: seq<Key>

    ghost function View(): Table
      reads this
    {
      Table(structVis, structTypes, order)
    }

    ghost predicate Valid()
      reads this
    {
      Closed(g) && structIDs.Keys == structTypes.Keys && structIDs == IDsOf(known, structTypes, order)
    }

    constructor (g: Graph, known: map<TypeID, nat>)
      requires Closed(g)
      ensures Valid() && this.g == g && this.known == known && View() == NOTHING
    {
      this.g, this.known, structVis, structTypes, structIDs, order := g, known, map[], map[], map[], [];
    }

    /** nextFreeStructID: the smallest unused ID from USER_START up. */
    method NextFreeStructID() returns (id: nat)
      ensures id == NextFree(structIDs.Values, USER_START)
    {
      id := USER_START;
      ghost var above := set j | j in structIDs.Values && j >= USER_START;
      while id in structIDs.Values
        invariant id >= USER_START
        invariant forall j :: USER_START <= j < id ==> j in structIDs.Values
        invariant above == set j | j in structIDs.Values && j >= id
        decreases above
      {
        above := above - {id};
        id := id + 1;
      }
    }

    /** A key's ID, for the type it stands for from now on. */
    method GiveID(key: Key, t: TypeID)
      requires Valid() && key !in structIDs
      modifies `structIDs, `structTypes, `order
      ensures Valid() && structTypes == old(structTypes)[key := t] && order == old(order) + [key]
      ensures structIDs == old(structIDs)[key := IssueID(known, t, old(structIDs))]
    {
      var freeID := NextFreeStructID();
      IDsAppend(known, structTypes, order, key, t);
      structIDs := structIDs[key := if t in known then known[t] else freeID];
      structTypes := structTypes[key := t];
      order := order + [key];
    }

    method GiveIDOnce(key: Key, t: TypeID)
      requires Valid()
      modifies `structIDs, `structTypes, `order
      ensures Valid() && IDsKept() && key in structIDs
      ensures structTypes == if key in old(structTypes) then old(structTypes) else old(structTypes)[key := t]
      ensures order == if key in old(structTypes) then old(order) else old(order) + [key]
    {
      if key !in structIDs { GiveID(key, t); }
    }

    /** Schema IDs, once given, never change. */
    twostate predicate IDsKept()
      reads this
    {
      forall k :: k in old(structIDs) ==> k in structIDs && structIDs[k] == old(structIDs)[k]
    }

    /** The ID under a key, or 0 as a Go map has it. */
    function IDOf(k: Key): nat
      reads this
    {
      if k in structIDs then structIDs[k] else 0
    }

    method AssignStructID(ns: Str, ty: Option<GoType>, vis: Vis) returns (id: nat)
      requires Valid() && RootsIn(g, [Root(ns, ty, vis)])
      modifies this
      ensures Valid() && IDsKept()
      ensures View() == ExportRoot(g, old(View()), Root(ns, ty, vis))
      ensures ty.Some? && RootTarget(ty.value).Some? ==>
        RootTarget(ty.value).value in g && id == IDOf(KeyOf(g, ns, RootTarget(ty.value).value))
      ensures ty.None? || RootTarget(ty.value).None? ==> id == 0
    {
      ghost var r := Root(ns, ty, vis);
      assert r in [r];
      if ty.None? { return 0; }
      var rt := ty.value;
      while rt.Pointer? || rt.List?
        invariant RootTarget(rt) == RootTarget(ty.value)
        decreases rt
      {
        rt := rt.elem;
      }
      if !rt.Struct? { return 0; }
      id := AssignStruct(ns, rt.id, vis);
    }

    method AssignStruct(ns: Str, t: TypeID, vis: Vis) returns (id: nat)
      requires Valid() && t in g
      modifies this
      ensures Valid() && IDsKept()
      ensures View() == Assign(g, ns, old(View()), t, vis)
      ensures id == IDOf(KeyOf(g, ns, t))
      decreases Open(g, ns, View()), 0, 0
    {
      ghost var e := View();
      var key := Key(ns, g[t].name);
      var seen := key in structVis;
      var prevVis: Vis := if seen then structVis[key] else 0;
      var newVis: Vis := if prevVis > vis then prevVis else vis;
      structVis := structVis[key := newVis];
      if seen && newVis == prevVis {
        return IDOf(key);
      }
      OpenShrinks(g, ns, e, t, vis);
      if key !in structIDs && !g[t].hasSchema { return 0; }
      GiveIDOnce(key, t);
      assert View() == Enter(g, ns, e, t, vis);
      AssignFields(ns, t, newVis);
      id := structIDs[key];
    }

    /** The loop over the exported fields. */
    method AssignFields(ns: Str, t: TypeID, vis: Vis)
      requires Valid() && t in g
      modifies this
      ensures Valid() && IDsKept()
      ensures View() == AssignAll(g, ns, old(View()), Fields(g, t), vis)
      decreases Open(g, ns, View()), 2, 0
    {
      var fields := g[t].fields;
      var i := 0;
      ghost var e := View();
      ghost var all := FieldListTargets(fields);
      assert all == Fields(g, t);
      while i < |fields|
        invariant 0 <= i <= |fields|
        invariant Valid() && IDsKept()
        invariant forall s :: s in FieldListTargets(fields[..i]) ==> s in g
        invariant View() == AssignAll(g, ns, e, FieldListTargets(fields[..i]), vis)
      {
        ghost var done := FieldListTargets(fields[..i]);
        ghost var upTo := fields[..i + 1];
        assert upTo[..i] == fields[..i] && upTo[i] == fields[i];
        TargetsPrefix(fields, i + 1);
        assert forall s :: s in FieldListTargets(upTo) ==> s in all;
        if fields[i].exported {
          assert forall s :: s in FieldTargets(fields[i].typ) ==> s in FieldListTargets(upTo);
          assert Open(g, ns, View()) <= Open(g, ns, e);
          AssignField(ns, fields[i].typ, vis);
          AssignAllConcat(g, ns, e, done, FieldTargets(fields[i].typ), vis);
        } else {
          assert FieldListTargets(upTo) == done;
        }
        i := i + 1;
      }
      assert fields[..i] == fields;
    }

    /** assignFieldStructIDs */
    method AssignField(ns: Str, ty: GoType, vis: Vis)
      requires Valid() && (forall s :: s in FieldTargets(ty) ==> s in g)
      modifies this
      ensures Valid() && IDsKept()
      ensures View() == AssignAll(g, ns, old(View()), FieldTargets(ty), vis)
      decreases Open(g, ns, View()), 1, ty
    {
      match ty {
        case Scalar =>
        case TimeStruct =>
        case Pointer(e) => AssignField(ns, e, vis);
        case List(e) => AssignField(ns, e, vis);
        case MapOf(k, e) =>
          AssignAllConcat(g, ns, View(), FieldTargets(k), FieldTargets(e), vis);
          ghost var before := View();
          AssignField(ns, k, vis);
          assert Open(g, ns, View()) <= Open(g, ns, before);
          AssignField(ns, e, vis);
        case Struct(t) =>
          assert t in FieldTargets(ty);
          var _ := AssignStruct(ns, t, vis);
      }
    }

    /** The first pass: every root in turn. */
    method ExportAll(roots: seq<Root>)
      requires Valid() && View() == NOTHING && RootsIn(g, roots)
      modifies this
      ensures Valid() && IDsKept()
      ensures View() == Export(g, roots)
    {
      var i := 0;
      while i < |roots|
        invariant 0 <= i <= |roots|
        invariant Valid() && IDsKept()
        invariant View() == Export(g, roots[..i])
      {
        assert roots[i] in roots;
        assert roots[..i + 1][..i] == roots[..i];
        var _ := AssignStructID(roots[i].ns, roots[i].typ, roots[i].vis);
        i := i + 1;
      }
      assert roots[..i] == roots;
    }
  }

  lemma {:induction false} TargetsPrefix(fields: seq<Field>, i: nat)
    requires i <= |fields|
    ensures forall s :: s in FieldListTargets(fields[..i]) ==> s in FieldListTargets(fields)
    decreases |fields| - i
  {
    if i < |fields| {
      TargetsPrefix(fields, i + 1);
      assert fields[..i + 1][..i] == fields[..i];
    } else {
      assert fields[..i] == fields;
    }
  }
}
