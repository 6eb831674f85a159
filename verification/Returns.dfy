// Which Dispatch bounds generated server code needs: the names reachable over `returns`
// edges (hyprwire-scanner/src/generate.rs:956-1006).
module Returns {
  import opened Types

  /** An object description: its name and, request by request, the interface returned. */
  datatype Obj = Obj(name: Name, returned: seq<Option<Name>>)

  type Description = seq<Obj>

  /** `objects.iter().find(|o| o.name == name)`, as the returns of what it finds. */
  function ReturnsOf(p: Description, name: Name): seq<Option<Name>> {
    if p == [] then [] else if p[0].name == name then p[0].returned else ReturnsOf(p[1..], name)
  }

  /** The object of that name returns an object of the other. */
  predicate Edge(p: Description, a: Name, b: Name) {
    Some(b) in ReturnsOf(p, a)
  }

  /** The first object of that name, and a request of it that returns the other. */
  ghost predicate Returned(p: Description, a: Name, b: Name, i: nat, m: nat) {
    && i < |p| && p[i].name == a && (forall j :: 0 <= j < i ==> p[j].name != a)
    && m < |p[i].returned| && p[i].returned[m] == Some(b)
  }

  /** The edges are exactly the returns of the first object of each name. */
  lemma {:induction false} EdgeIff(p: Description, a: Name, b: Name)
    ensures Edge(p, a, b) <==> exists i: nat, m: nat :: Returned(p, a, b, i, m)
  {
    if p != [] {
      EdgeIff(p[1..], a, b);
      if p[0].name == a {
        if Edge(p, a, b) {
          var m: nat :| m < |p[0].returned| && p[0].returned[m] == Some(b);
          assert Returned(p, a, b, 0, m);
        }
      } else {
        if i: nat, m: nat :| Returned(p[1..], a, b, i, m) { assert Returned(p, a, b, i + 1, m); }
        if i: nat, m: nat :| Returned(p, a, b, i, m) { assert Returned(p[1..], a, b, i - 1, m); }
      }
    }
  }

  /** Names in `rs` not visited yet, each once, in order of appearance. */
  function Fresh(rs: seq<Option<Name>>, visited: set<Name>): (f: seq<Name>)
    ensures forall x :: x in f <==> Some(x) in rs && x !in visited
    ensures NoDuplicates(f)
  {
    if rs == [] then []
    else if rs[0].Some? && rs[0].value !in visited then
      [rs[0].value] + Fresh(rs[1..], visited + {rs[0].value})
    else Fresh(rs[1..], visited)
  }

  /** Every name a description mentions as returned. */
  function Mentioned(p: Description): (s: set<Name>)
    ensures forall a, b :: Some(b) in ReturnsOf(p, a) ==> b in s
  {
    if p == [] then {} else MentionedIn(p[0].returned) + Mentioned(p[1..])
  }

  function MentionedIn(rs: seq<Option<Name>>): (s: set<Name>)
    ensures forall x :: Some(x) in rs ==> x in s
  {
    if rs == [] then {} else (if rs[0].Some? then {rs[0].value} else {}) + MentionedIn(rs[1..])
  }

  lemma FreshShrinks(p: Description, name: Name, visited: set<Name>)
    ensures var f := Fresh(ReturnsOf(p, name), visited);
      f != [] ==> Mentioned(p) - (visited + SetOf(f)) < Mentioned(p) - visited
  {
    var f := Fresh(ReturnsOf(p, name), visited);
    if f != [] {
      assert f[0] in f;
      assert Edge(p, name, f[0]);
      assert f[0] in Mentioned(p) - visited && f[0] !in Mentioned(p) - (visited + SetOf(f));
    }
  }

  /** What the worklist loop adds to the result from here on, in order. */
  function Explore(p: Description, visited: set<Name>, queue: seq<Name>): seq<Name>
    decreases Mentioned(p) - visited, |queue|
  {
    if queue == [] then []
    else
      var f := Fresh(ReturnsOf(p, queue[0]), visited);
      FreshShrinks(p, queue[0], visited);
      assert f == [] ==> visited + SetOf(f) == visited;
      f + Explore(p, visited + SetOf(f), queue[1..] + f)
  }

  function Closure(p: Description, origin: Name): seq<Name> {
    Explore(p, {origin}, [origin])
  }

  // ---- the algorithms as written -------------------------------------------------------------

  /** The loop over one object's requests: what is visited for the first time is queued
      and reported. */
  method Visit(rs: seq<Option<Name>>, visited: set<Name>, queue: seq<Name>, result: seq<Name>)
    returns (v: set<Name>, q: seq<Name>, r: seq<Name>)
    ensures v == visited + SetOf(Fresh(rs, visited))
    ensures q == queue + Fresh(rs, visited) && r == result + Fresh(rs, visited)
  {
    hide SetOf, NoDuplicates;
    v, q, r := visited, queue, result;
    ghost var done: seq<Name> := [];
    SetOfNone(visited);
    for k := 0 to |rs|
      invariant Fresh(rs, visited) == done + Fresh(rs[k..], v)
      invariant v == visited + SetOf(done) && q == queue + done && r == result + done
    {
      assert rs[k..][0] == rs[k] && rs[k..][1..] == rs[k + 1..];
      if rs[k].Some? && rs[k].value !in v {
        SetOfMore(visited, done, rs[k].value);
        Assoc(done, [rs[k].value], Fresh(rs[k + 1..], v + {rs[k].value}));
        Assoc(queue, done, [rs[k].value]);
        Assoc(result, done, [rs[k].value]);
        v := v + {rs[k].value};
        q := q + [rs[k].value];
        r := r + [rs[k].value];
        done := done + [rs[k].value];
      }
    }
    assert done == Fresh(rs, visited);
  }

  lemma ExploreOne(p: Description, visited: set<Name>, queue: seq<Name>)
    requires queue != []
    ensures var f := Fresh(ReturnsOf(p, queue[0]), visited);
      && Explore(p, visited, queue) == f + Explore(p, visited + SetOf(f), queue[1..] + f)
      && (f == [] ==> visited + SetOf(f) == visited)
  {
    FreshShrinks(p, queue[0], visited);
  }

  method CollectTransitiveReturns(origin: Name, p: Description) returns (result: seq<Name>)
    ensures result == Closure(p, origin)
  {
    var visited, queue: seq<Name> := {origin}, [];
    result := [];
    ExploreOne(p, visited, [origin]);
    visited, queue, result := Visit(ReturnsOf(p, origin), visited, queue, result);
    assert [origin][1..] + queue == queue;
    while queue != []
      invariant Closure(p, origin) == result + Explore(p, visited, queue)
      decreases Mentioned(p) - visited, |queue|
    {
      var current := queue[0];
      FreshShrinks(p, current, visited);
      ExploreOne(p, visited, queue);
      ghost var r, f := result, Fresh(ReturnsOf(p, current), visited);
      visited, queue, result := Visit(ReturnsOf(p, current), visited, queue[1..], result);
      Assoc(r, f, Explore(p, visited, queue));
    }
    assert result + [] == result;
  }

  lemma Assoc(a: seq<Name>, b: seq<Name>, c: seq<Name>)
    ensures a + (b + c) == a + b + c
  {
  }

  // ---- exactly reachability --------------------------------------------------------------------

  ghost predicate Path(p: Description, s: seq<Name>, a: Name, b: Name) {
    && |s| >= 2 && s[0] == a && s[|s| - 1] == b
    && forall i :: 0 <= i < |s| - 1 ==> Edge(p, s[i], s[i + 1])
  }

  /** `b` is reached from `a` over one or more edges. */
  ghost predicate Reaches(p: Description, a: Name, b: Name) {
    exists s :: Path(p, s, a, b)
  }

  lemma EdgeReaches(p: Description, a: Name, b: Name)
    requires Edge(p, a, b)
    ensures Reaches(p, a, b)
  {
    assert Path(p, [a, b], a, b);
  }

  lemma ReachFurther(p: Description, a: Name, b: Name, c: Name)
    requires (a == b || Reaches(p, a, b)) && Edge(p, b, c)
    ensures Reaches(p, a, c)
  {
    if a == b {
      EdgeReaches(p, a, c);
    } else {
      var s :| Path(p, s, a, b);
      var t := s + [c];
      assert forall i :: 0 <= i < |s| - 1 ==> Edge(p, s[i], s[i + 1]);
      assert Path(p, t, a, c);
    }
  }

  /** Everything visited has its successors visited. */
  ghost predicate Closed(p: Description, visited: set<Name>) {
    forall x, y :: x in visited && Edge(p, x, y) ==> y in visited
  }

  lemma {:induction false} ClosedKeeps(p: Description, visited: set<Name>, s: seq<Name>, a: Name, b: Name)
    requires Closed(p, visited) && a in visited && Path(p, s, a, b)
    ensures b in visited
    decreases |s|
  {
    assert Edge(p, s[0], s[1]);
    if |s| > 2 {
      assert forall i :: 0 <= i < |s[1..]| - 1 ==> Edge(p, s[1..][i], s[1..][i + 1]) by {
        forall i | 0 <= i < |s[1..]| - 1 ensures Edge(p, s[1..][i], s[1..][i + 1]) {
          assert Edge(p, s[i + 1], s[i + 1 + 1]);
        }
      }
      ClosedKeeps(p, visited, s[1..], s[1], b);
    }
  }

  /** The worklist invariant: what is visited is the origin or reached from it, and the
      successors of what has left the queue are visited. */
  ghost predicate Exploring(p: Description, origin: Name, visited: set<Name>, queue: seq<Name>) {
    && origin in visited
    && (forall x :: x in visited ==> x == origin || Reaches(p, origin, x))
    && (forall x :: x in queue ==> x in visited)
    && (forall x, y :: x in visited && x !in queue && Edge(p, x, y) ==> y in visited)
  }

  lemma ExploringStep(p: Description, origin: Name, visited: set<Name>, queue: seq<Name>)
    requires Exploring(p, origin, visited, queue) && queue != []
    ensures var f := Fresh(ReturnsOf(p, queue[0]), visited);
      Exploring(p, origin, visited + SetOf(f), queue[1..] + f)
  {
    var f := Fresh(ReturnsOf(p, queue[0]), visited);
    var v, q := visited + SetOf(f), queue[1..] + f;
    forall x | x in v ensures x == origin || Reaches(p, origin, x) {
      if x !in visited { ReachFurther(p, origin, queue[0], x); }
    }
    forall x, y | x in v && x !in q && Edge(p, x, y) ensures y in v {
      assert x in visited;
      if x == queue[0] {
        assert y in visited || y in f;
      } else {
        assert x !in queue;
      }
    }
  }

  lemma {:induction false} ExploreExact(p: Description, origin: Name, visited: set<Name>, queue: seq<Name>)
    requires Exploring(p, origin, visited, queue)
    ensures var r := Explore(p, visited, queue);
      && NoDuplicates(r) && (forall x :: x in r ==> x !in visited && Reaches(p, origin, x))
      && Closed(p, visited + SetOf(r))
    decreases Mentioned(p) - visited, |queue|
  {
    if queue == [] {
      assert visited + SetOf([]) == visited;
    } else {
      var f := Fresh(ReturnsOf(p, queue[0]), visited);
      FreshShrinks(p, queue[0], visited);
      assert f == [] ==> visited + SetOf(f) == visited;
      ExploringStep(p, origin, visited, queue);
      var rest := Explore(p, visited + SetOf(f), queue[1..] + f);
      ExploreExact(p, origin, visited + SetOf(f), queue[1..] + f);
      assert SetOf(f + rest) == SetOf(f) + SetOf(rest);
      assert visited + SetOf(f) + SetOf(rest) == visited + SetOf(f + rest);
      forall x | x in f ensures Reaches(p, origin, x) { ReachFurther(p, origin, queue[0], x); }
      forall i, j | 0 <= i < j < |f + rest| ensures (f + rest)[i] != (f + rest)[j] {
        if i < |f| <= j { assert (f + rest)[j] in rest; }
      }
    }
  }

  /** The collected names are duplicate-free and exactly those reached from the origin over
      one or more edges, without the origin itself. */
  lemma ClosureExact(p: Description, origin: Name)
    ensures NoDuplicates(Closure(p, origin))
    ensures forall x :: x in Closure(p, origin) <==> x != origin && Reaches(p, origin, x)
  {
    ExploreExact(p, origin, {origin}, [origin]);
    var all := {origin} + SetOf(Closure(p, origin));
    forall x | Reaches(p, origin, x) ensures x in all {
      var s :| Path(p, s, origin, x);
      ClosedKeeps(p, all, s, origin, x);
    }
  }

  // ---- the bounds suffice -------------------------------------------------------------------------

  /** The types a `new::<D>` of `origin` requires D to dispatch. */
  function Bounds(p: Description, origin: Name): set<Name> {
    {origin} + SetOf(Closure(p, origin))
  }

  /** The bounds of `a` cover those of `b` if and only if they contain `b` itself. */
  lemma BoundsWithin(p: Description, a: Name, b: Name)
    ensures Bounds(p, b) <= Bounds(p, a) <==> b in Bounds(p, a)
  {
    assert b in Bounds(p, b);
    if b in Bounds(p, a) {
      ClosureExact(p, b);
      ExploreExact(p, a, {a}, [a]);
      forall x | x in Bounds(p, b) ensures x in Bounds(p, a) {
        if x != b {
          var s :| Path(p, s, b, x);
          ClosedKeeps(p, Bounds(p, a), s, b, x);
        }
      }
    }
  }

  /** Creating the object a request returns needs no bound its creator lacks if and only if
      the returned name is the creator's own or reached from the first object of the
      creator's name; names need not be unique. */
  lemma BoundsSufficeIff(p: Description, o: Obj, b: Name)
    requires o in p && Some(b) in o.returned
    ensures Bounds(p, b) <= Bounds(p, o.name) <==> b == o.name || Reaches(p, o.name, b)
  {
    BoundsWithin(p, o.name, b);
    ClosureExact(p, o.name);
  }

  predicate UniqueNames(p: Description) {
    forall i, j :: 0 <= i < j < |p| ==> p[i].name != p[j].name
  }

  lemma {:induction false} FindUnique(p: Description, i: nat)
    requires UniqueNames(p) && i < |p|
    ensures ReturnsOf(p, p[i].name) == p[i].returned
  {
    if i > 0 {
      assert p[0].name != p[i].name;
      assert p[1..][i - 1] == p[i];
      FindUnique(p[1..], i - 1);
    }
  }

  /** With unique object names the bounds of every request suffice. */
  lemma BoundsSuffice(p: Description, o: Obj, b: Name)
    requires UniqueNames(p) && o in p && Some(b) in o.returned
    ensures Bounds(p, b) <= Bounds(p, o.name)
  {
    var i :| 0 <= i < |p| && p[i] == o;
    FindUnique(p, i);
    EdgeReaches(p, o.name, b);
    BoundsSufficeIff(p, o, b);
  }

  /** Without, they need not: only the first object of a name is looked at. */
  lemma DuplicateNamesMissBounds(x: Name, y: Name)
    requires x != y
    ensures var p := [Obj(x, []), Obj(x, [Some(y)])];
      Some(y) in p[1].returned && !(Bounds(p, y) <= Bounds(p, x))
  {
    var p := [Obj(x, []), Obj(x, [Some(y)])];
    ExploreOne(p, {x}, [x]);
    assert Explore(p, {x}, []) == [] && Closure(p, x) == [];
    BoundsWithin(p, x, y);
  }

  // ---- the whole protocol ----------------------------------------------------------------------------

  /** Elements of `names` not visited yet, each once. */
  function Unseen(names: seq<Name>, visited: set<Name>): (r: seq<Name>)
    ensures forall x :: x in r <==> x in names && x !in visited
    ensures NoDuplicates(r)
  {
    if names == [] then []
    else if names[0] !in visited then [names[0]] + Unseen(names[1..], visited + {names[0]})
    else Unseen(names[1..], visited)
  }

  function AllFrom(whole: Description, p: Description, visited: set<Name>): seq<Name>
    decreases |p|
  {
    if p == [] then []
    else
      var f := Unseen(Closure(whole, p[0].name), visited);
      f + AllFrom(whole, p[1..], visited + SetOf(f))
  }

  lemma SetOfNone(visited: set<Name>)
    ensures visited == visited + SetOf<Name>([])
  {
  }

  lemma SetOfMore(visited: set<Name>, done: seq<Name>, x: Name)
    ensures visited + SetOf(done) + {x} == visited + SetOf(done + [x])
  {
    assert SetOf(done + [x]) == SetOf(done) + {x};
  }

  /** The loop over one object's closure. */
  method Merge(names: seq<Name>, visited: set<Name>, result: seq<Name>) returns (v: set<Name>, r: seq<Name>)
    ensures v == visited + SetOf(Unseen(names, visited)) && r == result + Unseen(names, visited)
  {
    hide NoDuplicates, SetOf;
    v, r := visited, result;
    SetOfNone(visited);
    ghost var done: seq<Name> := [];
    for i := 0 to |names|
      invariant Unseen(names, visited) == done + Unseen(names[i..], v)
      invariant v == visited + SetOf(done) && r == result + done
    {
      assert names[i..][0] == names[i] && names[i..][1..] == names[i + 1..];
      if names[i] !in v {
        SetOfMore(visited, done, names[i]);
        Assoc(done, [names[i]], Unseen(names[i + 1..], v + {names[i]}));
        Assoc(result, done, [names[i]]);
        v := v + {names[i]};
        r := r + [names[i]];
        done := done + [names[i]];
      }
    }
    assert done == Unseen(names, visited);
  }

  method CollectAllTransitiveReturns(p: Description) returns (result: seq<Name>)
    ensures result == AllFrom(p, p, {})
  {
    var visited: set<Name> := {};
    result := [];
    for k := 0 to |p|
      invariant AllFrom(p, p, {}) == result + AllFrom(p, p[k..], visited)
    {
      assert p[k..][0] == p[k] && p[k..][1..] == p[k + 1..];
      var names := CollectTransitiveReturns(p[k].name, p);
      ghost var r, f := result, Unseen(names, visited);
      visited, result := Merge(names, visited, result);
      Assoc(r, f, AllFrom(p, p[k + 1..], visited));
    }
    assert result + [] == result;
  }

  lemma {:induction false} AllFromUnion(whole: Description, p: Description, visited: set<Name>)
    ensures var r := AllFrom(whole, p, visited);
      && NoDuplicates(r)
      && forall x :: x in r <==> x !in visited && exists i :: 0 <= i < |p| && x in Closure(whole, p[i].name)
    decreases |p|
  {
    if p != [] {
      var f := Unseen(Closure(whole, p[0].name), visited);
      var v := visited + SetOf(f);
      var rest := AllFrom(whole, p[1..], v);
      AllFromUnion(whole, p[1..], v);
      forall x ensures x in f + rest <==> x !in visited && exists i :: 0 <= i < |p| && x in Closure(whole, p[i].name) {
        if x in rest {
          var i :| 0 <= i < |p[1..]| && x in Closure(whole, p[1..][i].name);
          assert p[i + 1] == p[1..][i];
        }
        if x !in visited && exists i :: 0 <= i < |p| && x in Closure(whole, p[i].name) {
          var i :| 0 <= i < |p| && x in Closure(whole, p[i].name);
          if i > 0 { assert p[1..][i - 1] == p[i]; }
        }
      }
      forall i, j | 0 <= i < j < |f + rest| ensures (f + rest)[i] != (f + rest)[j] {
        if i < |f| <= j { assert (f + rest)[j] in rest && (f + rest)[i] in f; }
      }
    }
  }

  /** The protocol-wide list is the duplicate-free union of all the closures. */
  lemma AllIsUnion(p: Description)
    ensures NoDuplicates(AllFrom(p, p, {}))
    ensures forall x :: x in AllFrom(p, p, {}) <==> exists o :: o in p && x != o.name && Reaches(p, o.name, x)
  {
    AllFromUnion(p, p, {});
    forall x ensures x in AllFrom(p, p, {}) <==> exists o :: o in p && x != o.name && Reaches(p, o.name, x) {
      if x in AllFrom(p, p, {}) {
        var i :| 0 <= i < |p| && x in Closure(p, p[i].name);
        ClosureExact(p, p[i].name);
        assert p[i] in p;
      }
      if exists o :: o in p && x != o.name && Reaches(p, o.name, x) {
        var o :| o in p && x != o.name && Reaches(p, o.name, x);
        ClosureExact(p, o.name);
        var i :| 0 <= i < |p| && p[i] == o;
        assert x in Closure(p, p[i].name);
      }
    }
  }
}
