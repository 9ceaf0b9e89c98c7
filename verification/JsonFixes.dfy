/** Fixing text fields of a JSON tree by path (commons/fixer.go), on values. */
module JsonFixes {
  import opened Outcomes

  /** Arrays, numbers, booleans and null are never looked into. */
  datatype Json = Object(fields: Fields) | Text(s: string) | Other(id: int)

  type Fields = map<string, Json>

  type Path = seq<string>

  type Fixer = string -> Result<string, string>

  datatype FixError =
    | NotFound(path: Path)
    | NotAMap(path: Path)
    | InvalidType(path: Path)
    | FixFailed(message: string)

  // What the loop does

  /** The value found last is fixed and stored under `key` of the last object seen. */
  function FixLeaf(fields: Fields, key: string, found: Json, path: Path, fix: Fixer): Result<Fields, FixError> {
    match found
    case Text(s) =>
      (match fix(s)
       case Ok(fixed) => Ok(fields[key := Text(fixed)])
       case Err(message) => Err(FixFailed(message)))
    case _ => Err(InvalidType(path))
  }

  /**
  The walk from the object reached after `at` keys. Where the value before the last key is no
  object, the walk does not stop: it takes that value for the leaf and stores it under the last
  key of the object above.
  */
  function FixFrom(fields: Fields, path: Path, at: nat, fix: Fixer): Result<Fields, FixError>
    requires at < |path|
    decreases |path| - at
  {
    var key := path[at];
    if key !in fields then Err(NotFound(path[..at + 1]))
    else if at + 1 == |path| then FixLeaf(fields, key, fields[key], path, fix)
    else
      match fields[key]
      case Object(inner) =>
        (match FixFrom(inner, path, at + 1, fix)
         case Ok(fixed) => Ok(fields[key := Object(fixed)])
         case Err(e) => Err(e))
      case found =>
        if at + 2 == |path| then FixLeaf(fields, path[at + 1], found, path, fix)
        else Err(NotAMap(path[..at + 2]))
  }

  function FixField(fields: Fields, path: Path, fix: Fixer): Result<Fields, FixError> {
    if path == [] then Err(InvalidType(path)) else FixFrom(fields, path, 0, fix)
  }

  // The simple form: update the leaf, rebuild on the way up

  datatype Fault = Missing | Unusable

  function Update(fields: Fields, path: Path, fix: Fixer): Result<Fields, Fault>
    requires path != []
    decreases |path|
  {
    var key := path[0];
    if key !in fields then Err(Missing)
    else if |path| == 1 then
      match fields[key]
      case Text(s) => (match fix(s) case Ok(fixed) => Ok(fields[key := Text(fixed)]) case Err(_) => Err(Unusable))
      case _ => Err(Unusable)
    else
      match fields[key]
      case Object(inner) =>
        (match Update(inner, path[1..], fix)
         case Ok(updated) => Ok(fields[key := Object(updated)])
         case Err(e) => Err(e))
      case _ => Err(Unusable)
  }

  function Lookup(fields: Fields, path: Path): Option<Json>
    requires path != []
    decreases |path|
  {
    if path[0] !in fields then None
    else if |path| == 1 then Some(fields[path[0]])
    else
      match fields[path[0]]
      case Object(inner) => Lookup(inner, path[1..])
      case _ => None
  }

  /** An update that succeeds fixes the text at the path and leaves every other path as it was. */
  lemma {:induction false} UpdateChangesOnlyLeaf(fields: Fields, path: Path, fix: Fixer, other: Path)
    requires path != [] && other != [] && Update(fields, path, fix).Ok?
    ensures var updated := Update(fields, path, fix).value;
      && Lookup(fields, path).Some? && Lookup(fields, path).value.Text?
      && fix(Lookup(fields, path).value.s).Ok?
      && Lookup(updated, path) == Some(Text(fix(Lookup(fields, path).value.s).value))
      && (!(path <= other) && !(other <= path) ==> Lookup(updated, other) == Lookup(fields, other))
      && updated.Keys == fields.Keys
    decreases |path|
  {
    if |path| > 1 {
      var inner := fields[path[0]].fields;
      if |other| > 1 && other[0] == path[0] {
        UpdateChangesOnlyLeaf(inner, path[1..], fix, other[1..]);
        TailPrefix(path, other);
        TailPrefix(other, path);
      } else {
        UpdateChangesOnlyLeaf(inner, path[1..], fix, path[1..]);
        if other[0] == path[0] {
          assert other <= path;
        }
      }
    } else if other[0] == path[0] {
      assert path <= other;
    }
  }

  lemma TailPrefix(p: Path, q: Path)
    requires p != [] && q != [] && p[0] == q[0]
    ensures p <= q <==> p[1..] <= q[1..]
  {
    if p[1..] <= q[1..] {
      assert p == [p[0]] + p[1..] && q == [q[0]] + q[1..];
    }
  }

  /** Whether the two forms agree: the same tree, or errors of the same kind. */
  predicate Agree(code: Result<Fields, FixError>, simple: Result<Fields, Fault>) {
    match (code, simple)
    case (Ok(a), Ok(b)) => a == b
    case (Err(e), Err(f)) => e.NotFound? == f.Missing?
    case _ => false
  }

  /** The value before the last key is a text. */
  predicate TextParent(fields: Fields, path: Path) {
    |path| >= 2 && Lookup(fields, path[..|path| - 1]).Some? && Lookup(fields, path[..|path| - 1]).value.Text?
  }

  /** That text is one the fixer accepts. */
  predicate StrayWrite(fields: Fields, path: Path, fix: Fixer) {
    TextParent(fields, path) && fix(Lookup(fields, path[..|path| - 1]).value.s).Ok?
  }

  lemma StrayBelow(fields: Fields, path: Path, fix: Fixer)
    requires |path| >= 2 && path[0] in fields
    ensures StrayWrite(fields, path, fix) <==>
      match fields[path[0]]
      case Object(inner) => StrayWrite(inner, path[1..], fix)
      case found => |path| == 2 && found.Text? && fix(found.s).Ok?
  {
    var front := path[..|path| - 1];
    if |path| > 2 {
      assert front[1..] == path[1..][..|path| - 2];
    } else {
      assert front == [path[0]];
    }
  }

  lemma {:induction false} WalkAgreesIff(fields: Fields, path: Path, at: nat, fix: Fixer)
    requires at < |path|
    ensures Agree(FixFrom(fields, path, at, fix), Update(fields, path[at..], fix))
            <==> !StrayWrite(fields, path[at..], fix)
    ensures StrayWrite(fields, path[at..], fix) ==>
      FixFrom(fields, path, at, fix).Ok? && Update(fields, path[at..], fix) == Err(Unusable)
    decreases |path| - at
  {
    var rest := path[at..];
    if |rest| > 1 {
      if path[at] in fields {
        assert rest[1..] == path[at + 1..];
        StrayBelow(fields, rest, fix);
        if fields[path[at]].Object? {
          WalkAgreesIff(fields[path[at]].fields, path, at + 1, fix);
        }
      } else {
        assert Lookup(fields, rest[..|rest| - 1]) == None;
      }
    }
  }

  /**
  The loop computes the simple form, and reports a missing field exactly when it does, except when
  the value before the last key is a text that the fixer accepts: then it succeeds where the simple
  form fails.
  */
  lemma FixFieldIsUpdateIff(fields: Fields, path: Path, fix: Fixer)
    requires path != []
    ensures Agree(FixField(fields, path, fix), Update(fields, path, fix)) <==> !StrayWrite(fields, path, fix)
    ensures StrayWrite(fields, path, fix) ==> FixField(fields, path, fix).Ok? && Update(fields, path, fix) == Err(Unusable)
  {
    assert path[0..] == path;
    WalkAgreesIff(fields, path, 0, fix);
  }

  predicate IsObject(found: Option<Json>) {
    found.Some? && found.value.Object?
  }

  /** A value the walk takes for the leaf: the one at the path, or one that is no object in front of the last key. */
  predicate TakenForLeaf(fields: Fields, path: Path, found: Json)
    requires path != []
  {
    || Lookup(fields, path) == Some(found)
    || (|path| >= 2 && !found.Object? && Lookup(fields, path[..|path| - 1]) == Some(found))
  }

  /** What an error of the walk from the object reached after `at` keys says about the tree below that object. */
  ghost predicate Explains(fields: Fields, path: Path, at: nat, fix: Fixer, e: FixError)
    requires at < |path|
  {
    match e
    case NotFound(p) =>
      && at < |p| <= |path| && p == path[..|p|] && Lookup(fields, path[at..|p|]) == None
      && (|p| > at + 1 ==> IsObject(Lookup(fields, path[at..|p| - 1])))
    case NotAMap(p) =>
      && at + 1 < |p| < |path| && p == path[..|p|]
      && Lookup(fields, path[at..|p| - 1]).Some? && !IsObject(Lookup(fields, path[at..|p| - 1]))
    case InvalidType(p) =>
      p == path && exists found :: TakenForLeaf(fields, path[at..], found) && !found.Text?
    case FixFailed(message) =>
      exists text :: TakenForLeaf(fields, path[at..], Text(text)) && fix(text) == Err(message)
  }

  lemma ExplainsLeaf(fields: Fields, path: Path, at: nat, found: Json, fix: Fixer)
    requires at < |path| && TakenForLeaf(fields, path[at..], found)
    requires FixLeaf(fields, path[|path| - 1], found, path, fix).Err?
    ensures Explains(fields, path, at, fix, FixLeaf(fields, path[|path| - 1], found, path, fix).error)
  {
    if found.Text? {
      assert TakenForLeaf(fields, path[at..], Text(found.s));
    }
  }

  lemma LookupBelow(fields: Fields, path: Path, at: nat, n: nat)
    requires at + 1 < n <= |path| && path[at] in fields && fields[path[at]].Object?
    ensures Lookup(fields, path[at..n]) == Lookup(fields[path[at]].fields, path[at + 1..n])
  {
    assert path[at..n][1..] == path[at + 1..n];
  }

  lemma TakenBelow(fields: Fields, path: Path, at: nat, found: Json)
    requires at + 1 < |path| && path[at] in fields && fields[path[at]].Object?
    requires TakenForLeaf(fields[path[at]].fields, path[at + 1..], found)
    ensures TakenForLeaf(fields, path[at..], found)
  {
    var n := |path|;
    LookupBelow(fields, path, at, n);
    assert path[at..n] == path[at..] && path[at + 1..n] == path[at + 1..];
    if at + 2 < n {
      LookupBelow(fields, path, at, n - 1);
      assert path[at..][..n - at - 1] == path[at..n - 1];
      assert path[at + 1..][..n - at - 2] == path[at + 1..n - 1];
    }
  }

  lemma ExplainsBelow(fields: Fields, path: Path, at: nat, fix: Fixer, e: FixError)
    requires at + 1 < |path| && path[at] in fields && fields[path[at]].Object?
    requires Explains(fields[path[at]].fields, path, at + 1, fix, e)
    ensures Explains(fields, path, at, fix, e)
  {
    var inner := fields[path[at]].fields;
    match e
    case NotFound(p) =>
      LookupBelow(fields, path, at, |p|);
      if |p| > at + 2 {
        LookupBelow(fields, path, at, |p| - 1);
      } else {
        assert path[at..at + 1] == [path[at]];
      }
    case NotAMap(p) =>
      LookupBelow(fields, path, at, |p| - 1);
    case InvalidType(p) =>
      var found :| TakenForLeaf(inner, path[at + 1..], found) && !found.Text?;
      TakenBelow(fields, path, at, found);
    case FixFailed(message) =>
      var text :| TakenForLeaf(inner, path[at + 1..], Text(text)) && fix(text) == Err(message);
      TakenBelow(fields, path, at, Text(text));
  }

  lemma {:induction false} WalkErrors(fields: Fields, path: Path, at: nat, fix: Fixer)
    requires at < |path| && FixFrom(fields, path, at, fix).Err?
    ensures Explains(fields, path, at, fix, FixFrom(fields, path, at, fix).error)
    decreases |path| - at
  {
    var key, rest := path[at], path[at..];
    assert path[at..at + 1] == [key];
    if key in fields {
      var found := fields[key];
      if |rest| == 1 {
        assert rest == [key];
        ExplainsLeaf(fields, path, at, found, fix);
      } else if found.Object? {
        WalkErrors(found.fields, path, at + 1, fix);
        ExplainsBelow(fields, path, at, fix, FixFrom(fields, path, at, fix).error);
      } else if |rest| == 2 {
        assert rest[..1] == [key];
        ExplainsLeaf(fields, path, at, found, fix);
      }
    }
  }

  /**
  What an error says: the first missing key on the way, the first value on the way that is no object,
  a leaf that is no text, or the fixer's own complaint about the text it was given.
  */
  ghost predicate TellsWhy(fields: Fields, path: Path, fix: Fixer, e: FixError)
    requires path != []
  {
    match e
    case NotFound(p) =>
      p != [] && p <= path && Lookup(fields, p) == None && (|p| > 1 ==> IsObject(Lookup(fields, p[..|p| - 1])))
    case NotAMap(p) =>
      && 1 < |p| < |path| && p <= path
      && Lookup(fields, p[..|p| - 1]).Some? && !IsObject(Lookup(fields, p[..|p| - 1]))
    case InvalidType(p) =>
      p == path && exists found :: TakenForLeaf(fields, path, found) && !found.Text?
    case FixFailed(message) =>
      exists text :: TakenForLeaf(fields, path, Text(text)) && fix(text) == Err(message)
  }

  lemma ErrorsTellWhy(fields: Fields, path: Path, fix: Fixer)
    requires path != [] && FixField(fields, path, fix).Err?
    ensures TellsWhy(fields, path, fix, FixField(fields, path, fix).error)
  {
    var e := FixField(fields, path, fix).error;
    WalkErrors(fields, path, 0, fix);
    assert path[0..] == path;
    if e.NotFound? || e.NotAMap? {
      var p := e.path;
      assert path[0..|p|] == p;
      if |p| > 1 {
        assert path[0..|p| - 1] == p[..|p| - 1];
      }
    }
  }

  /** Such a stray write replaces whatever the object above holds under the last key. */
  lemma StrayWriteExample(text: string, sibling: Json, fix: Fixer)
    requires fix(text).Ok?
    ensures FixField(map["a" := Text(text), "b" := sibling], ["a", "b"], fix)
            == Ok(map["a" := Text(text), "b" := Text(fix(text).value)])
  {
    assert map["a" := Text(text), "b" := sibling]["b" := Text(fix(text).value)]
        == map["a" := Text(text), "b" := Text(fix(text).value)];
  }
}
