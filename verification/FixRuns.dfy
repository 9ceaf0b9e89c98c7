/** A run of several fixes over one tree, as `FixJsonFields` makes it (commons/fixer.go). */
module FixRuns {
  import opened Outcomes
  import opened JsonFixes

  datatype Fix = Fix(path: Path, fix: Fixer)

  /** One fix of a run; a field that does not exist may be skipped. */
  function FixOne(fields: Fields, f: Fix, ignoreMissing: bool): Result<Fields, FixError> {
    match FixField(fields, f.path, f.fix)
    case Ok(fixed) => Ok(fixed)
    case Err(e) => if e.NotFound? && ignoreMissing then Ok(fields) else Err(e)
  }

  function FixAll(fields: Fields, fixes: seq<Fix>, ignoreMissing: bool): Result<Fields, FixError>
    decreases |fixes|
  {
    if fixes == [] then Ok(fields)
    else
      match FixOne(fields, fixes[0], ignoreMissing)
      case Ok(fixed) => FixAll(fixed, fixes[1..], ignoreMissing)
      case Err(e) => Err(e)
  }

  // The same with the simple form of a fix

  function UpdateOne(fields: Fields, f: Fix, ignoreMissing: bool): Result<Fields, Fault>
    requires f.path != []
  {
    match Update(fields, f.path, f.fix)
    case Ok(updated) => Ok(updated)
    case Err(e) => if e.Missing? && ignoreMissing then Ok(fields) else Err(e)
  }

  ghost predicate HavePaths(fixes: seq<Fix>) {
    forall i :: 0 <= i < |fixes| ==> fixes[i].path != []
  }

  ghost function UpdateAll(fields: Fields, fixes: seq<Fix>, ignoreMissing: bool): Result<Fields, Fault>
    requires HavePaths(fixes)
    decreases |fixes|
  {
    if fixes == [] then Ok(fields)
    else
      match UpdateOne(fields, fixes[0], ignoreMissing)
      case Ok(updated) => UpdateAll(updated, fixes[1..], ignoreMissing)
      case Err(e) => Err(e)
  }

  predicate Independent(p: Path, q: Path) {
    !(p <= q) && !(q <= p)
  }

  ghost predicate PairwiseIndependent(fixes: seq<Fix>) {
    forall i, j :: 0 <= i < j < |fixes| ==> Independent(fixes[i].path, fixes[j].path)
  }

  lemma SharedHead(p: Path, q: Path)
    requires p != [] && q != []
    ensures p[0] == q[0] && |p| == 1 ==> p <= q
  {
  }

  // Order does not matter

  /** An update at one path neither helps nor hinders an update at an independent one, and their order does not show. */
  lemma {:induction false} UpdatesCommute(fields: Fields, p: Path, f: Fixer, q: Path, g: Fixer)
    requires p != [] && q != [] && Independent(p, q)
    requires Update(fields, p, f).Ok?
    ensures var first := Update(fields, p, f).value;
      match Update(fields, q, g)
      case Err(e) => Update(first, q, g) == Err(e)
      case Ok(second) => Update(first, q, g).Ok? && Update(first, q, g) == Update(second, p, f)
    decreases |p|
  {
    var first := Update(fields, p, f).value;
    if p[0] == q[0] {
      TailPrefix(p, q);
      TailPrefix(q, p);
      SharedHead(p, q);
      SharedHead(q, p);
      UpdatesCommuteBelow(fields, p, f, q, g);
    } else if Update(fields, q, g).Ok? {
      var second := Update(fields, q, g).value;
      assert first == fields[p[0] := first[p[0]]] && second == fields[q[0] := second[q[0]]];
      assert Update(first, q, g) == Ok(first[q[0] := second[q[0]]]);
      assert Update(second, p, f) == Ok(second[p[0] := first[p[0]]]);
      assert first[q[0] := second[q[0]]] == second[p[0] := first[p[0]]];
    }
  }

  lemma {:induction false} UpdatesCommuteBelow(fields: Fields, p: Path, f: Fixer, q: Path, g: Fixer)
    requires |p| > 1 && |q| > 1 && p[0] == q[0] && Independent(p[1..], q[1..])
    requires Update(fields, p, f).Ok?
    ensures var first := Update(fields, p, f).value;
      match Update(fields, q, g)
      case Err(e) => Update(first, q, g) == Err(e)
      case Ok(second) => Update(first, q, g).Ok? && Update(first, q, g) == Update(second, p, f)
    decreases |p|, 0
  {
    var key, inner := p[0], fields[p[0]].fields;
    UpdatesCommute(inner, p[1..], f, q[1..], g);
    var first := Update(fields, p, f).value;
    assert first[key] == Object(Update(inner, p[1..], f).value);
    if Update(inner, q[1..], g).Ok? {
      var second := Update(fields, q, g).value;
      assert second[key] == Object(Update(inner, q[1..], g).value);
      var both := Update(first[key].fields, q[1..], g).value;
      assert first[key := Object(both)] == second[key := Object(both)];
    }
  }

  lemma StepsCommute(fields: Fields, a: Fix, b: Fix, ignoreMissing: bool)
    requires a.path != [] && b.path != [] && Independent(a.path, b.path)
    requires UpdateOne(fields, a, ignoreMissing).Ok?
    ensures var first := UpdateOne(fields, a, ignoreMissing).value;
      match UpdateOne(fields, b, ignoreMissing)
      case Err(e) => UpdateOne(first, b, ignoreMissing) == Err(e)
      case Ok(second) =>
        UpdateOne(first, b, ignoreMissing).Ok? &&
        UpdateOne(first, b, ignoreMissing) == UpdateOne(second, a, ignoreMissing)
  {
    if Update(fields, a.path, a.fix).Ok? {
      UpdatesCommute(fields, a.path, a.fix, b.path, b.fix);
    } else if Update(fields, b.path, b.fix).Ok? {
      UpdatesCommute(fields, b.path, b.fix, a.path, a.fix);
    }
  }

  /** The same tree, or both fail. */
  predicate Same<E(==)>(x: Result<Fields, E>, y: Result<Fields, E>) {
    if x.Ok? then y == x else y.Err?
  }

  /** A fix may be made first instead of in its place. */
  lemma {:induction false} BringToFront(fields: Fields, before: seq<Fix>, f: Fix, after: seq<Fix>, ignoreMissing: bool)
    requires HavePaths(before + [f] + after)
    requires forall i :: 0 <= i < |before| ==> Independent(before[i].path, f.path)
    ensures HavePaths([f] + (before + after))
    ensures Same(UpdateAll(fields, before + [f] + after, ignoreMissing),
                 UpdateAll(fields, [f] + (before + after), ignoreMissing))
    decreases |before|
  {
    var all := before + [f] + after;
    assert HavePaths([f] + (before + after)) by {
      assert f == all[|before|];
      assert forall i :: 0 <= i < |before| ==> before[i] == all[i];
      assert forall i :: 0 <= i < |after| ==> after[i] == all[|before| + 1 + i];
    }
    if before == [] {
      assert all == [f] + (before + after);
    } else {
      var b, rest := before[0], before[1..];
      assert all[1..] == rest + [f] + after && all[0] == b;
      assert ([f] + (before + after))[1..] == before + after;
      assert (before + after)[1..] == rest + after;
      assert forall i :: 0 <= i < |rest| ==> rest[i] == before[i + 1];
      if UpdateOne(fields, b, ignoreMissing).Ok? {
        var first := UpdateOne(fields, b, ignoreMissing).value;
        BringToFront(first, rest, f, after, ignoreMissing);
        assert ([f] + (rest + after))[1..] == rest + after;
        StepsCommute(fields, b, f, ignoreMissing);
      } else if UpdateOne(fields, f, ignoreMissing).Ok? {
        StepsCommute(fields, f, b, ignoreMissing);
      }
    }
  }

  /** Where the first fix of one order stands in another, with what is left on both sides. */
  lemma SplitAtFirst(xs: seq<Fix>, ys: seq<Fix>) returns (before: seq<Fix>, after: seq<Fix>)
    requires xs != [] && multiset(xs) == multiset(ys)
    ensures ys == before + [xs[0]] + after
    ensures multiset(xs[1..]) == multiset(before + after)
  {
    var x := xs[0];
    assert xs == [x] + xs[1..];
    assert x in multiset(ys);
    var k :| 0 <= k < |ys| && ys[k] == x;
    before, after := ys[..k], ys[k + 1..];
    assert ys == before + [x] + after;
    assert multiset(ys) - multiset{x} == multiset(before + after);
    assert multiset(xs) - multiset{x} == multiset(xs[1..]);
  }

  lemma {:induction false} UpdatesInAnyOrder(fields: Fields, xs: seq<Fix>, ys: seq<Fix>, ignoreMissing: bool)
    requires HavePaths(xs) && HavePaths(ys)
    requires PairwiseIndependent(xs) && multiset(xs) == multiset(ys)
    ensures Same(UpdateAll(fields, xs, ignoreMissing), UpdateAll(fields, ys, ignoreMissing))
    decreases |xs|
  {
    if xs == [] {
      assert |multiset(ys)| == 0;
    } else {
      var x := xs[0];
      var before, after := SplitAtFirst(xs, ys);
      forall i | 0 <= i < |before|
        ensures Independent(before[i].path, x.path)
      {
        assert before[i] in multiset(before + after);
        assert before[i] in xs[1..];
      }
      BringToFront(fields, before, x, after, ignoreMissing);
      var rest := before + after;
      assert ([x] + rest)[1..] == rest;
      assert HavePaths(rest) by {
        assert forall i :: 0 <= i < |rest| ==> rest[i] == ([x] + rest)[i + 1];
      }
      if UpdateOne(fields, x, ignoreMissing).Ok? {
        UpdatesInAnyOrder(UpdateOne(fields, x, ignoreMissing).value, xs[1..], rest, ignoreMissing);
      }
    }
  }

  // Nor does doing it twice

  ghost predicate Idempotent(f: Fixer) {
    forall s :: f(s).Ok? ==> f(f(s).value) == f(s)
  }

  lemma {:induction false} UpdateTwice(fields: Fields, p: Path, f: Fixer)
    requires p != [] && Idempotent(f) && Update(fields, p, f).Ok?
    ensures Update(Update(fields, p, f).value, p, f) == Update(fields, p, f)
    decreases |p|
  {
    var once := Update(fields, p, f).value;
    var key := p[0];
    if |p| == 1 {
      assert once[key := once[key]] == once;
    } else {
      UpdateTwice(fields[key].fields, p[1..], f);
      assert once[key := once[key]] == once;
    }
  }

  /** The fix has nothing left to do. */
  ghost predicate Settled(fields: Fields, f: Fix, ignoreMissing: bool)
    requires f.path != []
  {
    UpdateOne(fields, f, ignoreMissing) == Ok(fields)
  }

  lemma {:induction false} SettledStays(fields: Fields, f: Fix, others: seq<Fix>, ignoreMissing: bool)
    requires f.path != [] && HavePaths(others) && Settled(fields, f, ignoreMissing)
    requires forall i :: 0 <= i < |others| ==> Independent(f.path, others[i].path)
    requires UpdateAll(fields, others, ignoreMissing).Ok?
    ensures Settled(UpdateAll(fields, others, ignoreMissing).value, f, ignoreMissing)
    decreases |others|
  {
    if others != [] {
      StepsCommute(fields, others[0], f, ignoreMissing);
      SettledStays(UpdateOne(fields, others[0], ignoreMissing).value, f, others[1..], ignoreMissing);
    }
  }

  lemma {:induction false} SettledAfterRun(fields: Fields, fixes: seq<Fix>, ignoreMissing: bool, k: nat)
    requires HavePaths(fixes) && PairwiseIndependent(fixes) && k < |fixes|
    requires Idempotent(fixes[k].fix)
    requires UpdateAll(fields, fixes, ignoreMissing).Ok?
    ensures Settled(UpdateAll(fields, fixes, ignoreMissing).value, fixes[k], ignoreMissing)
    decreases |fixes|
  {
    var f := fixes[0];
    var next := UpdateOne(fields, f, ignoreMissing).value;
    if k == 0 {
      if Update(fields, f.path, f.fix).Ok? {
        UpdateTwice(fields, f.path, f.fix);
      }
      SettledStays(next, f, fixes[1..], ignoreMissing);
    } else {
      SettledAfterRun(next, fixes[1..], ignoreMissing, k - 1);
    }
  }

  lemma {:induction false} AllSettled(fields: Fields, fixes: seq<Fix>, ignoreMissing: bool)
    requires HavePaths(fixes)
    requires forall k :: 0 <= k < |fixes| ==> Settled(fields, fixes[k], ignoreMissing)
    ensures UpdateAll(fields, fixes, ignoreMissing) == Ok(fields)
    decreases |fixes|
  {
    if fixes != [] {
      assert Settled(fields, fixes[0], ignoreMissing);
      AllSettled(fields, fixes[1..], ignoreMissing);
    }
  }

  // Back to the code

  /** No path has a text that its fixer accepts where its last object should be, so that no fix can go astray. */
  ghost predicate Straight(fields: Fields, fixes: seq<Fix>) {
    forall i :: 0 <= i < |fixes| ==> fixes[i].path != [] && !StrayWrite(fields, fixes[i].path, fixes[i].fix)
  }

  lemma {:induction false} LookupAfterUpdate(fields: Fields, p: Path, f: Fixer, q: Path)
    requires p != [] && q != [] && !(p <= q) && Update(fields, p, f).Ok?
    ensures var after := Lookup(Update(fields, p, f).value, q);
      (after.Some? && after.value.Text?) ==> Lookup(fields, q) == after
    decreases |p|
  {
    if p[0] == q[0] && |p| > 1 && |q| > 1 {
      TailPrefix(p, q);
      LookupAfterUpdate(fields[p[0]].fields, p[1..], f, q[1..]);
    } else {
      SharedHead(p, q);
    }
  }

  lemma StraightAfterStep(fields: Fields, f: Fix, others: seq<Fix>, ignoreMissing: bool)
    requires f.path != [] && Straight(fields, others)
    requires forall i :: 0 <= i < |others| ==> f.path == others[i].path || Independent(f.path, others[i].path)
    requires UpdateOne(fields, f, ignoreMissing).Ok?
    ensures Straight(UpdateOne(fields, f, ignoreMissing).value, others)
  {
    if Update(fields, f.path, f.fix).Ok? {
      forall i | 0 <= i < |others|
        ensures !StrayWrite(Update(fields, f.path, f.fix).value, others[i].path, others[i].fix)
      {
        var q := others[i].path;
        if |q| >= 2 {
          assert f.path <= q[..|q| - 1] ==> f.path <= q;
          LookupAfterUpdate(fields, f.path, f.fix, q[..|q| - 1]);
        }
      }
    }
  }

  /** Over independent paths that cannot go astray, the code's run is the run of simple updates. */
  lemma {:induction false} FixAllIsUpdateAll(fields: Fields, fixes: seq<Fix>, ignoreMissing: bool)
    requires PairwiseIndependent(fixes) && Straight(fields, fixes)
    ensures HavePaths(fixes)
    ensures Agree(FixAll(fields, fixes, ignoreMissing), UpdateAll(fields, fixes, ignoreMissing))
    decreases |fixes|
  {
    assert HavePaths(fixes);
    if fixes != [] {
      var f := fixes[0];
      FixFieldIsUpdateIff(fields, f.path, f.fix);
      if UpdateOne(fields, f, ignoreMissing).Ok? {
        StraightAfterStep(fields, f, fixes[1..], ignoreMissing);
        FixAllIsUpdateAll(UpdateOne(fields, f, ignoreMissing).value, fixes[1..], ignoreMissing);
      }
    }
  }

  lemma Rearranged(fields: Fields, xs: seq<Fix>, ys: seq<Fix>)
    requires PairwiseIndependent(xs) && Straight(fields, xs) && multiset(xs) == multiset(ys)
    ensures PairwiseIndependent(ys) && Straight(fields, ys)
  {
    forall i | 0 <= i < |ys|
      ensures ys[i].path != [] && !StrayWrite(fields, ys[i].path, ys[i].fix)
    {
      assert ys[i] in multiset(ys);
      assert ys[i] in xs;
    }
    forall i, j | 0 <= i < j < |ys|
      ensures Independent(ys[i].path, ys[j].path)
    {
      TwoOf(ys, i, j);
      TwoPlaces(xs, ys[i], ys[j]);
    }
  }

  lemma TwoOf(ys: seq<Fix>, i: nat, j: nat)
    requires i < j < |ys|
    ensures multiset{ys[i], ys[j]} <= multiset(ys)
  {
    assert ys == ys[..i] + [ys[i]] + ys[i + 1..j] + [ys[j]] + ys[j + 1..];
  }

  lemma TwoPlaces(xs: seq<Fix>, a: Fix, b: Fix)
    requires multiset{a, b} <= multiset(xs) && PairwiseIndependent(xs)
    ensures Independent(a.path, b.path)
  {
    assert a in multiset(xs);
    var i :| 0 <= i < |xs| && xs[i] == a;
    assert xs == xs[..i] + [a] + xs[i + 1..];
    assert multiset(xs) == multiset(xs[..i]) + multiset{a} + multiset(xs[i + 1..]);
    assert b in xs[..i] || b in xs[i + 1..];
  }

  /**
  Over independent paths that cannot go astray, a run gives the same tree whatever the order of its
  fixes, and fails in one order exactly if it fails in every other.
  */
  lemma FixesInAnyOrder(fields: Fields, xs: seq<Fix>, ys: seq<Fix>, ignoreMissing: bool)
    requires PairwiseIndependent(xs) && Straight(fields, xs) && multiset(xs) == multiset(ys)
    ensures Same(FixAll(fields, xs, ignoreMissing), FixAll(fields, ys, ignoreMissing))
  {
    Rearranged(fields, xs, ys);
    FixAllIsUpdateAll(fields, xs, ignoreMissing);
    FixAllIsUpdateAll(fields, ys, ignoreMissing);
    UpdatesInAnyOrder(fields, xs, ys, ignoreMissing);
  }

  // What a run does

  lemma LookupAfterOne(fields: Fields, f: Fix, q: Path, ignoreMissing: bool)
    requires f.path != [] && q != [] && Independent(f.path, q) && UpdateOne(fields, f, ignoreMissing).Ok?
    ensures Lookup(UpdateOne(fields, f, ignoreMissing).value, q) == Lookup(fields, q)
  {
    if Update(fields, f.path, f.fix).Ok? {
      UpdateChangesOnlyLeaf(fields, f.path, f.fix, q);
    }
  }

  lemma {:induction false} LookupAfterRun(fields: Fields, fixes: seq<Fix>, q: Path, ignoreMissing: bool)
    requires HavePaths(fixes) && q != [] && UpdateAll(fields, fixes, ignoreMissing).Ok?
    requires forall i :: 0 <= i < |fixes| ==> Independent(fixes[i].path, q)
    ensures Lookup(UpdateAll(fields, fixes, ignoreMissing).value, q) == Lookup(fields, q)
    decreases |fixes|
  {
    if fixes != [] {
      LookupAfterOne(fields, fixes[0], q, ignoreMissing);
      LookupAfterRun(UpdateOne(fields, fixes[0], ignoreMissing).value, fixes[1..], q, ignoreMissing);
    }
  }

  /** Each fix of a run does what it would have done alone. */
  lemma {:induction false} EachAsAlone(fields: Fields, fixes: seq<Fix>, k: nat, ignoreMissing: bool)
    requires HavePaths(fixes) && PairwiseIndependent(fixes) && k < |fixes|
    requires UpdateAll(fields, fixes, ignoreMissing).Ok?
    ensures UpdateOne(fields, fixes[k], ignoreMissing).Ok?
    ensures Lookup(UpdateAll(fields, fixes, ignoreMissing).value, fixes[k].path)
            == Lookup(UpdateOne(fields, fixes[k], ignoreMissing).value, fixes[k].path)
    decreases |fixes|
  {
    var f, g := fixes[0], fixes[k];
    var next := UpdateOne(fields, f, ignoreMissing).value;
    if k == 0 {
      LookupAfterRun(next, fixes[1..], g.path, ignoreMissing);
    } else {
      EachAsAlone(next, fixes[1..], k - 1, ignoreMissing);
      StepsCommute(fields, f, g, ignoreMissing);
      LookupAfterOne(UpdateOne(fields, g, ignoreMissing).value, f, g.path, ignoreMissing);
    }
  }

  lemma {:induction false} RunSucceeds(fields: Fields, fixes: seq<Fix>, ignoreMissing: bool)
    requires HavePaths(fixes) && PairwiseIndependent(fixes)
    requires forall k :: 0 <= k < |fixes| ==> UpdateOne(fields, fixes[k], ignoreMissing).Ok?
    ensures UpdateAll(fields, fixes, ignoreMissing).Ok?
    decreases |fixes|
  {
    if fixes != [] {
      var next := UpdateOne(fields, fixes[0], ignoreMissing).value;
      forall k | 0 <= k < |fixes[1..]|
        ensures UpdateOne(next, fixes[1..][k], ignoreMissing).Ok?
      {
        StepsCommute(fields, fixes[0], fixes[k + 1], ignoreMissing);
      }
      RunSucceeds(next, fixes[1..], ignoreMissing);
    }
  }

  lemma {:induction false} MissingIsNotThere(fields: Fields, path: Path, fix: Fixer)
    requires path != [] && Update(fields, path, fix) == Err(Missing)
    ensures Lookup(fields, path) == None
    decreases |path|
  {
    if path[0] in fields && |path| > 1 {
      MissingIsNotThere(fields[path[0]].fields, path[1..], fix);
    }
  }

  /** The fix can be made on its own, or its field is missing and that is ignored. */
  predicate Fixable(fields: Fields, f: Fix, ignoreMissing: bool)
    requires f.path != []
  {
    Update(fields, f.path, f.fix).Ok? || (ignoreMissing && Update(fields, f.path, f.fix) == Err(Missing))
  }

  /** What is found under a path once its fix has been made, or skipped. */
  function FixedText(fields: Fields, f: Fix): Option<Json>
    requires f.path != []
  {
    match Lookup(fields, f.path)
    case Some(Text(s)) => (match f.fix(s) case Ok(fixed) => Some(Text(fixed)) case Err(_) => None)
    case _ => None
  }

  lemma FixedAlone(fields: Fields, f: Fix, ignoreMissing: bool)
    requires f.path != [] && UpdateOne(fields, f, ignoreMissing).Ok?
    ensures Fixable(fields, f, ignoreMissing)
    ensures Lookup(UpdateOne(fields, f, ignoreMissing).value, f.path) == FixedText(fields, f)
  {
    if Update(fields, f.path, f.fix).Ok? {
      UpdateChangesOnlyLeaf(fields, f.path, f.fix, f.path);
    } else {
      MissingIsNotThere(fields, f.path, f.fix);
    }
  }

  /**
  A run over such paths succeeds exactly if every fix could be made alone, missing fields being
  skipped only when that is asked for; it then leaves under each path the fixed text, nothing where
  nothing was, and every path independent of all of them as it was.
  */
  lemma RunEffect(fields: Fields, fixes: seq<Fix>, ignoreMissing: bool)
    requires PairwiseIndependent(fixes) && Straight(fields, fixes)
    ensures FixAll(fields, fixes, ignoreMissing).Ok?
            <==> forall k :: 0 <= k < |fixes| ==> Fixable(fields, fixes[k], ignoreMissing)
    ensures FixAll(fields, fixes, ignoreMissing).Ok? ==>
      var fixed := FixAll(fields, fixes, ignoreMissing).value;
      && (forall k :: 0 <= k < |fixes| ==> Lookup(fixed, fixes[k].path) == FixedText(fields, fixes[k]))
      && (forall q: Path :: q != [] && (forall k :: 0 <= k < |fixes| ==> Independent(fixes[k].path, q)) ==>
        Lookup(fixed, q) == Lookup(fields, q))
  {
    FixAllIsUpdateAll(fields, fixes, ignoreMissing);
    if UpdateAll(fields, fixes, ignoreMissing).Ok? {
      forall k | 0 <= k < |fixes|
        ensures Fixable(fields, fixes[k], ignoreMissing)
        ensures Lookup(UpdateAll(fields, fixes, ignoreMissing).value, fixes[k].path) == FixedText(fields, fixes[k])
      {
        EachAsAlone(fields, fixes, k, ignoreMissing);
        FixedAlone(fields, fixes[k], ignoreMissing);
      }
      forall q: Path | q != [] && (forall k :: 0 <= k < |fixes| ==> Independent(fixes[k].path, q))
        ensures Lookup(UpdateAll(fields, fixes, ignoreMissing).value, q) == Lookup(fields, q)
      {
        LookupAfterRun(fields, fixes, q, ignoreMissing);
      }
    } else if forall k :: 0 <= k < |fixes| ==> Fixable(fields, fixes[k], ignoreMissing) {
      RunSucceeds(fields, fixes, ignoreMissing);
    }
  }

  /** A run that fails returns the error of one fix, which is no ignored one, after all fixes in front of it succeeded. */
  lemma {:induction false} FirstErrorIsReturned(fields: Fields, fixes: seq<Fix>, ignoreMissing: bool) returns (k: nat)
    requires FixAll(fields, fixes, ignoreMissing).Err?
    ensures k < |fixes| && FixAll(fields, fixes[..k], ignoreMissing).Ok?
    ensures var reached := FixAll(fields, fixes[..k], ignoreMissing).value;
      var e := FixAll(fields, fixes, ignoreMissing).error;
      FixField(reached, fixes[k].path, fixes[k].fix) == Err(e) && !(ignoreMissing && e.NotFound?)
    decreases |fixes|
  {
    if FixOne(fields, fixes[0], ignoreMissing).Err? {
      k := 0;
    } else {
      var next := FixOne(fields, fixes[0], ignoreMissing).value;
      var rest := FirstErrorIsReturned(next, fixes[1..], ignoreMissing);
      k := rest + 1;
      assert fixes[..k][0] == fixes[0] && fixes[..k][1..] == fixes[1..][..rest];
    }
  }

  lemma {:induction false} StraightAfterRun(fields: Fields, done: seq<Fix>, fixes: seq<Fix>, ignoreMissing: bool)
    requires HavePaths(done) && Straight(fields, fixes)
    requires forall i, j :: 0 <= i < |done| && 0 <= j < |fixes| ==>
      done[i].path == fixes[j].path || Independent(done[i].path, fixes[j].path)
    requires UpdateAll(fields, done, ignoreMissing).Ok?
    ensures Straight(UpdateAll(fields, done, ignoreMissing).value, fixes)
    decreases |done|
  {
    if done != [] {
      StraightAfterStep(fields, done[0], fixes, ignoreMissing);
      StraightAfterRun(UpdateOne(fields, done[0], ignoreMissing).value, done[1..], fixes, ignoreMissing);
    }
  }

  /** A run whose fixers are idempotent changes nothing the second time. */
  lemma FixesTwice(fields: Fields, fixes: seq<Fix>, ignoreMissing: bool)
    requires PairwiseIndependent(fixes) && Straight(fields, fixes)
    requires forall k :: 0 <= k < |fixes| ==> Idempotent(fixes[k].fix)
    requires FixAll(fields, fixes, ignoreMissing).Ok?
    ensures FixAll(FixAll(fields, fixes, ignoreMissing).value, fixes, ignoreMissing)
            == FixAll(fields, fixes, ignoreMissing)
  {
    FixAllIsUpdateAll(fields, fixes, ignoreMissing);
    var fixed := UpdateAll(fields, fixes, ignoreMissing).value;
    forall k | 0 <= k < |fixes|
      ensures Settled(fixed, fixes[k], ignoreMissing)
    {
      SettledAfterRun(fields, fixes, ignoreMissing, k);
    }
    AllSettled(fixed, fixes, ignoreMissing);
    StraightAfterRun(fields, fixes, fixes, ignoreMissing);
    FixAllIsUpdateAll(fixed, fixes, ignoreMissing);
  }
}
