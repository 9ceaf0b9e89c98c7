/** The fixer on maps in the heap, with a cursor and a trailing parent pointer (commons/fixer.go). */
module JsonHeap {
  import opened Outcomes
  import opened JsonFixes
  import opened FixRuns

  class JsonMap {
    var fields: map<string, Node>

    constructor (fields: map<string, Node>)
      ensures this.fields == fields
    {
      this.fields := fields;
    }
  }

  datatype Node = MapRef(m: JsonMap) | TextNode(s: string) | OtherNode(id: int)

  /** The maps a tree is made of, named by the keys that lead to them. */
  datatype Shape = Shape(node: JsonMap, kids: map<string, Shape>)

  type Heap = map<JsonMap, map<string, Node>>

  /** The maps have the contents `h` says they have. */
  ghost predicate Holds(h: Heap)
    reads h.Keys
  {
    forall m :: m in h ==> m.fields == h[m]
  }

  ghost function Maps(sh: Shape): set<JsonMap> {
    {sh.node} + set k, m | k in sh.kids && m in Maps(sh.kids[k]) :: m
  }

  /** The heap holds a tree of this shape: every map once, nothing shared. */
  ghost predicate Fits(sh: Shape, h: Heap) {
    && sh.node in h
    && (forall k :: k in sh.kids <==> k in h[sh.node] && h[sh.node][k].MapRef?)
    && (forall k :: k in sh.kids ==>
      h[sh.node][k].m == sh.kids[k].node && Fits(sh.kids[k], h) && sh.node !in Maps(sh.kids[k]))
    && (forall k, l :: k in sh.kids && l in sh.kids && k != l ==> Maps(sh.kids[k]) !! Maps(sh.kids[l]))
  }

  ghost function Tree(sh: Shape, h: Heap): Fields
    requires Fits(sh, h)
  {
    map k | k in h[sh.node] ::
      match h[sh.node][k]
      case MapRef(_) => Object(Tree(sh.kids[k], h))
      case TextNode(s) => Text(s)
      case OtherNode(id) => Other(id)
  }

  lemma {:induction false} TreeFrame(sh: Shape, h: Heap, g: Heap)
    requires Fits(sh, h)
    requires forall m :: m in Maps(sh) ==> m in g && m in h && g[m] == h[m]
    ensures Fits(sh, g) && Tree(sh, g) == Tree(sh, h)
  {
    assert sh.node in Maps(sh);
    forall k | k in sh.kids
      ensures Fits(sh.kids[k], g) && Tree(sh.kids[k], g) == Tree(sh.kids[k], h)
    {
      assert Maps(sh.kids[k]) <= Maps(sh);
      TreeFrame(sh.kids[k], h, g);
    }
  }

  lemma {:induction false} MapsInHeap(sh: Shape, h: Heap)
    requires Fits(sh, h)
    ensures Maps(sh) <= h.Keys
  {
    forall k | k in sh.kids
      ensures Maps(sh.kids[k]) <= h.Keys
    {
      MapsInHeap(sh.kids[k], h);
    }
  }

  // One write

  /** The shape once key k of map n holds no map any more. */
  ghost function Pruned(sh: Shape, n: JsonMap, k: string): Shape {
    Shape(sh.node, map l | l in sh.kids && !(sh.node == n && l == k) :: Pruned(sh.kids[l], n, k))
  }

  lemma {:induction false} PrunedElsewhere(sh: Shape, n: JsonMap, k: string)
    requires n !in Maps(sh)
    ensures Pruned(sh, n, k) == sh
  {
    forall l | l in sh.kids
      ensures Pruned(sh.kids[l], n, k) == sh.kids[l]
    {
      assert Maps(sh.kids[l]) <= Maps(sh);
      PrunedElsewhere(sh.kids[l], n, k);
    }
    assert Pruned(sh, n, k).kids == sh.kids;
  }

  lemma {:induction false} PrunedMaps(sh: Shape, n: JsonMap, k: string)
    ensures Maps(Pruned(sh, n, k)) <= Maps(sh)
  {
    var p := Pruned(sh, n, k);
    forall l | l in p.kids
      ensures Maps(p.kids[l]) <= Maps(sh)
    {
      PrunedMaps(sh.kids[l], n, k);
      assert Maps(sh.kids[l]) <= Maps(sh);
    }
  }

  ghost function Written(h: Heap, n: JsonMap, k: string, s: string): Heap
    requires n in h
  {
    h[n := h[n][k := TextNode(s)]]
  }

  /** The fields of a map, given the trees of its kids. */
  ghost function Assembled(nodes: map<string, Node>, kids: map<string, Fields>): Fields
    requires forall k :: k in nodes && nodes[k].MapRef? ==> k in kids
  {
    map k | k in nodes ::
      match nodes[k]
      case MapRef(_) => Object(kids[k])
      case TextNode(s) => Text(s)
      case OtherNode(id) => Other(id)
  }

  ghost predicate AllFit(kids: map<string, Shape>, h: Heap) {
    forall k :: k in kids ==> Fits(kids[k], h)
  }

  ghost function KidTrees(kids: map<string, Shape>, h: Heap): (r: map<string, Fields>)
    requires AllFit(kids, h)
    ensures r.Keys == kids.Keys
  {
    map k | k in kids :: Tree(kids[k], h)
  }

  lemma TreeIsAssembled(sh: Shape, h: Heap)
    requires Fits(sh, h)
    ensures AllFit(sh.kids, h) && Tree(sh, h) == Assembled(h[sh.node], KidTrees(sh.kids, h))
  {
  }

  lemma AssembledText(nodes: map<string, Node>, kids: map<string, Fields>, k: string, s: string)
    requires forall l :: l in nodes && nodes[l].MapRef? ==> l in kids
    ensures Assembled(nodes[k := TextNode(s)], kids - {k}) == Assembled(nodes, kids)[k := Text(s)]
  {
  }

  lemma AssembledObject(nodes: map<string, Node>, kids: map<string, Fields>, key: string, t: Fields)
    requires forall l :: l in nodes && nodes[l].MapRef? ==> l in kids
    requires key in nodes && nodes[key].MapRef?
    ensures Assembled(nodes, kids[key := t]) == Assembled(nodes, kids)[key := Object(t)]
  {
  }

  lemma KidsAfterRemoval(kids: map<string, Shape>, h: Heap, g: Heap, k: string)
    requires AllFit(kids, h) && AllFit(kids - {k}, g)
    requires forall l :: l in kids - {k} ==> Tree(kids[l], g) == Tree(kids[l], h)
    ensures KidTrees(kids - {k}, g) == KidTrees(kids, h) - {k}
  {
  }

  lemma OneChanged<T>(before: map<string, T>, after: map<string, T>, key: string, t: T)
    requires after.Keys == before.Keys + {key} && after[key] == t
    requires forall l :: l in before && l != key ==> after[l] == before[l]
    ensures after == before[key := t]
  {
  }

  lemma KidsAfterChange(kids: map<string, Shape>, h: Heap, g: Heap, key: string, kid: Shape)
    requires AllFit(kids, h) && Fits(kid, g) && AllFit(kids[key := kid], g)
    requires forall l :: l in kids && l != key ==> Fits(kids[l], g) && Tree(kids[l], g) == Tree(kids[l], h)
    ensures KidTrees(kids[key := kid], g) == KidTrees(kids, h)[key := Tree(kid, g)]
  {
    var before, after := KidTrees(kids, h), KidTrees(kids[key := kid], g);
    forall l | l in before && l != key
      ensures after[l] == before[l]
    {
      assert after[l] == Tree(kids[l], g);
    }
    OneChanged(before, after, key, Tree(kid, g));
  }

  /** Subtrees away from the map written to keep their shape and their value. */
  lemma WrittenElsewhere(sh: Shape, h: Heap, n: JsonMap, k: string, s: string)
    requires Fits(sh, h) && n in h && n !in Maps(sh)
    ensures Pruned(sh, n, k) == sh
    ensures Fits(sh, Written(h, n, k, s)) && Tree(sh, Written(h, n, k, s)) == Tree(sh, h)
  {
    PrunedElsewhere(sh, n, k);
    MapsInHeap(sh, h);
    TreeFrame(sh, h, Written(h, n, k, s));
  }

  lemma PrunedAtRoot(sh: Shape, h: Heap, k: string)
    requires Fits(sh, h)
    ensures Pruned(sh, sh.node, k) == Shape(sh.node, sh.kids - {k})
  {
    forall l | l in sh.kids
      ensures Pruned(sh.kids[l], sh.node, k) == sh.kids[l]
    {
      PrunedElsewhere(sh.kids[l], sh.node, k);
    }
    assert Pruned(sh, sh.node, k).kids == sh.kids - {k};
  }

  lemma KidsUnwritten(sh: Shape, h: Heap, k: string, s: string)
    requires Fits(sh, h)
    ensures AllFit(sh.kids, Written(h, sh.node, k, s))
    ensures forall l :: l in sh.kids ==> Tree(sh.kids[l], Written(h, sh.node, k, s)) == Tree(sh.kids[l], h)
  {
    forall l | l in sh.kids
      ensures Fits(sh.kids[l], Written(h, sh.node, k, s))
      ensures Tree(sh.kids[l], Written(h, sh.node, k, s)) == Tree(sh.kids[l], h)
    {
      WrittenElsewhere(sh.kids[l], h, sh.node, k, s);
    }
  }

  lemma FitsAfterRemoval(sh: Shape, h: Heap, k: string, s: string)
    requires Fits(sh, h) && AllFit(sh.kids, Written(h, sh.node, k, s))
    ensures Fits(Shape(sh.node, sh.kids - {k}), Written(h, sh.node, k, s))
  {
    var kids := sh.kids - {k};
    forall l, m | l in kids && m in kids && l != m
      ensures Maps(kids[l]) !! Maps(kids[m])
    {
      assert Maps(sh.kids[l]) !! Maps(sh.kids[m]);
    }
  }

  /** A write into the root map itself. */
  lemma WriteHere(sh: Shape, h: Heap, k: string, s: string)
    requires Fits(sh, h)
    ensures var g := Written(h, sh.node, k, s);
      Fits(Pruned(sh, sh.node, k), g) && Tree(Pruned(sh, sh.node, k), g) == Tree(sh, h)[k := Text(s)]
  {
    var g := Written(h, sh.node, k, s);
    PrunedAtRoot(sh, h, k);
    KidsUnwritten(sh, h, k, s);
    FitsAfterRemoval(sh, h, k, s);
    TreeIsAssembled(sh, h);
    TreeIsAssembled(Pruned(sh, sh.node, k), g);
    KidsAfterRemoval(sh.kids, h, g, k);
    AssembledText(h[sh.node], KidTrees(sh.kids, h), k, s);
  }

  /** A map below key `key` is nowhere else. */
  lemma OtherKids(sh: Shape, h: Heap, key: string, n: JsonMap, k: string)
    requires Fits(sh, h) && key in sh.kids && n in Maps(sh.kids[key])
    ensures n != sh.node
    ensures forall l :: l in sh.kids && l != key ==> n !in Maps(sh.kids[l]) && Pruned(sh.kids[l], n, k) == sh.kids[l]
  {
    forall l | l in sh.kids && l != key
      ensures n !in Maps(sh.kids[l]) && Pruned(sh.kids[l], n, k) == sh.kids[l]
    {
      assert Maps(sh.kids[l]) !! Maps(sh.kids[key]);
      PrunedElsewhere(sh.kids[l], n, k);
    }
  }

  lemma PrunedBelow(sh: Shape, h: Heap, key: string, n: JsonMap, k: string)
    requires Fits(sh, h) && key in sh.kids && n in Maps(sh.kids[key])
    ensures Pruned(sh, n, k) == Shape(sh.node, sh.kids[key := Pruned(sh.kids[key], n, k)])
    ensures n != sh.node && forall l :: l in sh.kids && l != key ==> n !in Maps(sh.kids[l])
  {
    OtherKids(sh, h, key, n, k);
    OneChanged(sh.kids, Pruned(sh, n, k).kids, key, Pruned(sh.kids[key], n, k));
  }

  lemma OthersUnwritten(sh: Shape, h: Heap, key: string, n: JsonMap, k: string, s: string)
    requires Fits(sh, h) && n in h
    requires forall l :: l in sh.kids && l != key ==> n !in Maps(sh.kids[l])
    ensures var g := Written(h, n, k, s);
      forall l :: l in sh.kids && l != key ==> Fits(sh.kids[l], g) && Tree(sh.kids[l], g) == Tree(sh.kids[l], h)
  {
    var g := Written(h, n, k, s);
    forall l | l in sh.kids && l != key
      ensures Fits(sh.kids[l], g) && Tree(sh.kids[l], g) == Tree(sh.kids[l], h)
    {
      WrittenElsewhere(sh.kids[l], h, n, k, s);
    }
  }

  /** A write below key `key`, given what it does there. */
  lemma WriteBelow(sh: Shape, h: Heap, key: string, n: JsonMap, k: string, s: string)
    requires Fits(sh, h) && key in sh.kids && n in Maps(sh.kids[key]) && n in h
    requires Fits(Pruned(sh.kids[key], n, k), Written(h, n, k, s))
    ensures var g := Written(h, n, k, s);
      && Fits(Pruned(sh, n, k), g)
      && Tree(Pruned(sh, n, k), g) == Tree(sh, h)[key := Object(Tree(Pruned(sh.kids[key], n, k), g))]
  {
    var g := Written(h, n, k, s);
    PrunedBelow(sh, h, key, n, k);
    PrunedMaps(sh.kids[key], n, k);
    OthersUnwritten(sh, h, key, n, k, s);
    ReplacedKid(sh, h, g, key, Pruned(sh.kids[key], n, k));
  }

  lemma ReplacedKid(sh: Shape, h: Heap, g: Heap, key: string, kid: Shape)
    requires Fits(sh, h) && sh.node in g && g[sh.node] == h[sh.node]
    requires key in sh.kids && kid.node == sh.kids[key].node && Fits(kid, g) && Maps(kid) <= Maps(sh.kids[key])
    requires forall l :: l in sh.kids && l != key ==> Fits(sh.kids[l], g) && Tree(sh.kids[l], g) == Tree(sh.kids[l], h)
    ensures var r := Shape(sh.node, sh.kids[key := kid]);
      Fits(r, g) && Tree(r, g) == Tree(sh, h)[key := Object(Tree(kid, g))]
  {
    var r := Shape(sh.node, sh.kids[key := kid]);
    FitsAfterChange(sh, h, g, key, kid);
    TreeIsAssembled(sh, h);
    TreeIsAssembled(r, g);
    KidsAfterChange(sh.kids, h, g, key, kid);
    AssembledObject(h[sh.node], KidTrees(sh.kids, h), key, Tree(kid, g));
  }

  lemma FitsAfterChange(sh: Shape, h: Heap, g: Heap, key: string, kid: Shape)
    requires Fits(sh, h) && sh.node in g && g[sh.node] == h[sh.node]
    requires key in sh.kids && kid.node == sh.kids[key].node && Fits(kid, g) && Maps(kid) <= Maps(sh.kids[key])
    requires forall l :: l in sh.kids && l != key ==> Fits(sh.kids[l], g)
    ensures Fits(Shape(sh.node, sh.kids[key := kid]), g)
  {
    var kids := sh.kids[key := kid];
    forall l | l in kids
      ensures Maps(kids[l]) <= Maps(sh.kids[l]) && Fits(kids[l], g)
      ensures g[sh.node][l].m == kids[l].node && sh.node !in Maps(kids[l])
    {
    }
    forall k, l | k in kids && l in kids && k != l
      ensures Maps(kids[k]) !! Maps(kids[l])
    {
      assert Maps(sh.kids[k]) !! Maps(sh.kids[l]);
    }
  }

  // The walk

  /** What the walk from a map comes to: an error, or one write. */
  datatype Plan = Fail(error: FixError) | Write(target: JsonMap, key: string, text: string)

  ghost function LeafPlan(target: JsonMap, key: string, found: Node, path: Path, fix: Fixer): Plan {
    if found.TextNode? then
      match fix(found.s)
      case Ok(fixed) => Write(target, key, fixed)
      case Err(message) => Fail(FixFailed(message))
    else Fail(InvalidType(path))
  }

  ghost function PlanFrom(sh: Shape, h: Heap, path: Path, at: nat, fix: Fixer): Plan
    requires Fits(sh, h) && at < |path|
    decreases |path| - at
  {
    var key := path[at];
    if key !in h[sh.node] then Fail(NotFound(path[..at + 1]))
    else
      var found := h[sh.node][key];
      if at + 1 == |path| then LeafPlan(sh.node, key, found, path, fix)
      else if found.MapRef? then PlanFrom(sh.kids[key], h, path, at + 1, fix)
      else if at + 2 == |path| then LeafPlan(sh.node, path[at + 1], found, path, fix)
      else Fail(NotAMap(path[..at + 2]))
  }

  /** Carrying out the plan gives the tree that the walk on values gives. */
  lemma {:induction false} PlanIsFix(sh: Shape, h: Heap, path: Path, at: nat, fix: Fixer)
    requires Fits(sh, h) && at < |path|
    ensures match PlanFrom(sh, h, path, at, fix)
      case Fail(e) => FixFrom(Tree(sh, h), path, at, fix) == Err(e)
      case Write(n, k, s) =>
        && n in Maps(sh) && n in h
        && Fits(Pruned(sh, n, k), Written(h, n, k, s))
        && FixFrom(Tree(sh, h), path, at, fix) == Ok(Tree(Pruned(sh, n, k), Written(h, n, k, s)))
    decreases |path| - at
  {
    var key := path[at];
    var plan := PlanFrom(sh, h, path, at, fix);
    if key in h[sh.node] {
      var found := h[sh.node][key];
      if at + 1 < |path| && found.MapRef? {
        PlanIsFix(sh.kids[key], h, path, at + 1, fix);
        if plan.Write? {
          WriteBelow(sh, h, key, plan.target, plan.key, plan.text);
        }
      } else if plan.Write? {
        WriteHere(sh, h, plan.key, plan.text);
      }
    }
  }

  /** One turn of the loop. */
  lemma WalkStep(here: Shape, h: Heap, path: Path, idx: nat, fix: Fixer)
    requires Fits(here, h) && idx < |path| && path[idx] in h[here.node]
    ensures var found := h[here.node][path[idx]];
      PlanFrom(here, h, path, idx, fix) ==
        if found.MapRef? && idx + 1 < |path| then PlanFrom(here.kids[path[idx]], h, path, idx + 1, fix)
        else PlanBehind(here.node, found, path, idx + 1, fix)
  {
  }

  /** What is left to do once the cursor has left the maps, or the path is used up. */
  ghost function PlanBehind(prevMap: JsonMap, cur: Node, path: Path, idx: nat, fix: Fixer): Plan
    requires 0 < idx <= |path|
  {
    if idx + 1 < |path| then Fail(NotAMap(path[..idx + 1]))
    else LeafPlan(prevMap, path[|path| - 1], cur, path, fix)
  }

  /** Follows the path with a cursor and the last map seen; fails, or returns both. */
  method WalkPath(root: JsonMap, path: Path, ghost fix: Fixer, ghost sh: Shape, ghost h: Heap)
    returns (error: Option<FixError>, prevMap: JsonMap, cur: Node)
    requires sh.node == root && Fits(sh, h) && Holds(h)
    ensures path == [] ==> error == None && cur == MapRef(root)
    ensures path != [] ==>
      PlanFrom(sh, h, path, 0, fix) ==
        if error.Some? then Fail(error.value) else LeafPlan(prevMap, path[|path| - 1], cur, path, fix)
  {
    ghost var here := sh;
    prevMap := root;
    cur := MapRef(root);
    error := None;
    var idx := 0;
    while idx < |path|
      invariant 0 <= idx <= |path| && (idx == 0 ==> cur == MapRef(root))
      invariant cur.MapRef? && idx < |path| ==>
        && Fits(here, h) && here.node == cur.m
        && PlanFrom(here, h, path, idx, fix) == PlanFrom(sh, h, path, 0, fix)
      invariant idx > 0 && !(cur.MapRef? && idx < |path|) ==>
        PlanBehind(prevMap, cur, path, idx, fix) == PlanFrom(sh, h, path, 0, fix)
      decreases |path| - idx
    {
      var p := path[idx];
      match cur {
      case MapRef(curTyped) =>
        assert curTyped.fields == h[here.node];
        if p !in curTyped.fields {
          error := Some(NotFound(path[..idx + 1]));
          return;
        }
        WalkStep(here, h, path, idx, fix);
        cur := curTyped.fields[p];
        prevMap := curTyped;
        if cur.MapRef? {
          here := here.kids[p];
        }
      case _ =>
        if idx < |path| - 1 {
          error := Some(NotAMap(path[..idx + 1]));
          return;
        }
      }
      idx := idx + 1;
    }
  }

  /** Fixes the field in place; `after` and `g` are the shape and the contents this leaves. */
  method FixFieldInPlace(root: JsonMap, path: Path, fix: Fixer, ghost sh: Shape, ghost h: Heap)
    returns (error: Option<FixError>, ghost after: Shape, ghost g: Heap)
    requires sh.node == root && Fits(sh, h) && Holds(h)
    modifies h.Keys
    ensures after.node == root && Fits(after, g) && Holds(g) && g.Keys == h.Keys
    ensures match FixField(Tree(sh, h), path, fix)
      case Ok(fixed) => error == None && Tree(after, g) == fixed
      case Err(e) => error == Some(e) && after == sh && g == h
  {
    after, g := sh, h;
    var prevMap, cur;
    error, prevMap, cur := WalkPath(root, path, fix, sh, h);
    if path != [] {
      PlanIsFix(sh, h, path, 0, fix);
    }
    if error.Some? {
      return;
    }
    if !cur.TextNode? {
      error := Some(InvalidType(path));
      return;
    }
    match fix(cur.s)
    case Err(message) =>
      error := Some(FixFailed(message));
    case Ok(fixed) =>
      var key := path[|path| - 1];
      StoreText(prevMap, key, fixed, h);
      after, g := Pruned(sh, prevMap, key), Written(h, prevMap, key, fixed);
  }

  method StoreText(m: JsonMap, key: string, text: string, ghost h: Heap)
    requires m in h && Holds(h)
    modifies m
    ensures Holds(Written(h, m, key, text))
  {
    m.fields := m.fields[key := TextNode(text)];
  }

  /** `FixJsonFields` on a decoded tree; what a failed run leaves behind is thrown away. */
  method FixJsonFields(root: JsonMap, ignoreMissing: bool, fixes: seq<Fix>, ghost sh: Shape, ghost h: Heap)
    returns (error: Option<FixError>, ghost after: Shape, ghost g: Heap)
    requires sh.node == root && Fits(sh, h) && Holds(h)
    modifies h.Keys
    ensures after.node == root && Fits(after, g) && Holds(g) && g.Keys == h.Keys
    ensures match FixAll(Tree(sh, h), fixes, ignoreMissing)
      case Ok(fixed) => error == None && Tree(after, g) == fixed
      case Err(e) => error == Some(e)
  {
    after, g := sh, h;
    error := None;
    for i := 0 to |fixes|
      invariant error == None
      invariant after.node == root && Fits(after, g) && Holds(g) && g.Keys == h.Keys
      invariant FixAll(Tree(after, g), fixes[i..], ignoreMissing) == FixAll(Tree(sh, h), fixes, ignoreMissing)
    {
      assert fixes[i..][0] == fixes[i] && fixes[i..][1..] == fixes[i + 1..];
      var e;
      e, after, g := FixFieldInPlace(root, fixes[i].path, fixes[i].fix, after, g);
      if e.Some? {
        if e.value.NotFound? && ignoreMissing {
          continue;
        }
        error := e;
        return;
      }
    }
  }
}
