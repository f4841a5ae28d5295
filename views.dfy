/** Views are restored in an order in which every view comes after what it references.
    `get_views` first collects each view's references (refusing references into another
    schema), then orders the views greedily: repeated passes over the views still
    waiting, placing each one whose references are all known, until none wait or a
    pass places nothing. */
module Views {
  import opened Common
  import opened Catalog

  // ---------------------------------------------------------------------------
  // Dependency extraction

  /** A row of `sys.dm_sql_referenced_entities`: referenced schema (possibly null) and
      referenced entity name. */
  datatype DepRow = DepRow(schema: Option<string>, entity: string)

  /** A reference the code refuses: its schema is non-empty and not `dbo`. */
  predicate Foreign(d: DepRow)
  {
    d.schema.Some? && d.schema.value != "" && d.schema.value != "dbo"
  }

  predicate HasForeign(rows: seq<DepRow>)
  {
    exists i :: 0 <= i < |rows| && Foreign(rows[i])
  }

  /** How a name is keyed: lower-cased in the package, verbatim in the script. */
  function Key(v: Variant, name: string): (k: string)
    ensures |k| == |name|
    ensures v == Script ==> k == name
  {
    if v == Package then Lower(name) else name
  }

  function Entities(v: Variant, rows: seq<DepRow>): (r: seq<string>)
    ensures |r| == |rows| && forall i :: 0 <= i < |rows| ==> r[i] == Key(v, rows[i].entity)
  {
    seq(|rows|, i requires 0 <= i < |rows| => Key(v, rows[i].entity))
  }

  datatype Extraction = Extracted(views: seq<ObjectDef>) | ForeignReference(view: string)

  /** The views with their references filled in, in the order they were listed; the
      first view with a foreign reference aborts the extraction. */
  function Extract(v: Variant, deps: string -> seq<DepRow>, views: seq<ObjectDef>): (r: Extraction)
    ensures r.Extracted? <==> forall i :: 0 <= i < |views| ==> !HasForeign(deps(views[i].name))
    ensures r.Extracted? ==> |r.views| == |views| && forall i :: 0 <= i < |views| ==>
      r.views[i] == ObjectDef(views[i].name, views[i].definition, Some(Entities(v, deps(views[i].name))))
    ensures r.ForeignReference? ==> exists k :: (0 <= k < |views| && views[k].name == r.view && HasForeign(deps(r.view))
      && forall j :: 0 <= j < k ==> !HasForeign(deps(views[j].name)))
  {
    if views == [] then Extracted([])
    else
      var rows := deps(views[0].name);
      if HasForeign(rows) then ForeignReference(views[0].name)
      else match Extract(v, deps, views[1..])
        case ForeignReference(n) => ForeignReference(n)
        case Extracted(rest) => Extracted([ObjectDef(views[0].name, views[0].definition, Some(Entities(v, rows)))] + rest)
  }

  // ---------------------------------------------------------------------------
  // Ordering

  /** A view's references; a view carrying none is ready at once. */
  function Deps(x: ObjectDef): seq<string>
  {
    if x.dependencies.Some? then x.dependencies.value else []
  }

  /** `all(x in already_defined for x in view.dependencies)`. */
  predicate Ready(known: set<string>, x: ObjectDef)
  {
    forall j :: 0 <= j < |Deps(x)| ==> Deps(x)[j] in known
  }

  /** The keys the placed views add to `already_defined`. */
  function Keys(key: string -> string, o: seq<ObjectDef>): set<string>
  {
    if o == [] then {} else Keys(key, o[..|o| - 1]) + {key(o[|o| - 1].name)}
  }

  /** A valid order: each view is ready once what precedes it is known. */
  predicate ValidOrder(key: string -> string, known: set<string>, o: seq<ObjectDef>)
  {
    forall i :: 0 <= i < |o| ==> Ready(known + Keys(key, o[..i]), o[i])
  }

  datatype PassResult = PassResult(placed: seq<ObjectDef>, remaining: seq<ObjectDef>, known: set<string>)

  /** One pass of the `for view in new_views` loop: a view is placed as soon as it is
      ready, and then counts as known for the views after it in the same pass. */
  function Pass(key: string -> string, known: set<string>, vs: seq<ObjectDef>): (r: PassResult)
    ensures |r.placed| + |r.remaining| == |vs|
    decreases |vs|
  {
    if vs == [] then PassResult([], [], known)
    else
      var p := Pass(key, known, vs[..|vs| - 1]);
      var x := vs[|vs| - 1];
      if Ready(p.known, x) then PassResult(p.placed + [x], p.remaining, p.known + {key(x.name)})
      else PassResult(p.placed, p.remaining + [x], p.known)
  }

  /** A pass splits the waiting views between placed and still waiting, and what it
      knows afterwards is the seed plus the placed views. */
  lemma PassSplits(key: string -> string, known: set<string>, vs: seq<ObjectDef>)
    ensures var r := Pass(key, known, vs);
      multiset(r.placed) + multiset(r.remaining) == multiset(vs) && r.known == known + Keys(key, r.placed)
  {
    PassPermutes(key, known, vs);
    PassKnown(key, known, vs);
  }

  lemma {:induction false} PassPermutes(key: string -> string, known: set<string>, vs: seq<ObjectDef>)
    ensures var r := Pass(key, known, vs);
      multiset(r.placed) + multiset(r.remaining) == multiset(vs)
    decreases |vs|
  {
    if vs != [] {
      var n := |vs|;
      PassPermutes(key, known, vs[..n - 1]);
      var x := vs[n - 1];
      assert vs == vs[..n - 1] + [x];
    }
  }

  lemma {:induction false} PassKnown(key: string -> string, known: set<string>, vs: seq<ObjectDef>)
    ensures var r := Pass(key, known, vs);
      r.known == known + Keys(key, r.placed)
    decreases |vs|
  {
    if vs != [] {
      var n := |vs|;
      PassKnown(key, known, vs[..n - 1]);
      var p := Pass(key, known, vs[..n - 1]);
      PassKeys(key, p.placed, vs[n - 1]);
    }
  }

  lemma PassKeys(key: string -> string, placed: seq<ObjectDef>, x: ObjectDef)
    ensures Keys(key, placed + [x]) == Keys(key, placed) + {key(x.name)}
  {
    assert (placed + [x])[..|placed|] == placed;
  }

  /** A pass that places nothing leaves every view waiting and the names unchanged,
      and then no view was ready against them. */
  lemma {:induction false} PassPlacedNothing(key: string -> string, known: set<string>, vs: seq<ObjectDef>)
    requires Pass(key, known, vs).placed == []
    ensures Pass(key, known, vs) == PassResult([], vs, known)
    ensures forall i :: 0 <= i < |vs| ==> !Ready(known, vs[i])
    decreases |vs|
  {
    if vs != [] {
      var n := |vs|;
      var pre := vs[..n - 1];
      assert Pass(key, known, pre).placed == [];
      PassPlacedNothing(key, known, pre);
      assert pre + [vs[n - 1]] == vs;
      forall i | 0 <= i < n - 1 ensures !Ready(known, vs[i]) {
        assert vs[i] == pre[i];
      }
    }
  }

  /** A pass in which no view is ready against the names known before it places
      nothing. */
  lemma {:induction false} PassNoneReady(key: string -> string, known: set<string>, vs: seq<ObjectDef>)
    requires forall i :: 0 <= i < |vs| ==> !Ready(known, vs[i])
    ensures Pass(key, known, vs).placed == []
    decreases |vs|
  {
    if vs != [] {
      var n := |vs|;
      var pre := vs[..n - 1];
      forall i | 0 <= i < n - 1 ensures !Ready(known, pre[i]) {
        assert pre[i] == vs[i];
      }
      PassNoneReady(key, known, pre);
      PassPlacedNothing(key, known, pre);
    }
  }

  /** How ordering ends: every view placed, or a pass that placed nothing, reported
      with the views still waiting and the names known (what the error log lists); in
      `get_views` also a foreign reference found while extracting. */
  datatype Ordering = Ordered(views: seq<ObjectDef>) | Stuck(remaining: seq<ObjectDef>, known: set<string>) | CrossSchema(view: string)

  /** The `while len(new_views) > 0` loop. */
  function Order(key: string -> string, known: set<string>, vs: seq<ObjectDef>): (r: Ordering)
    ensures !r.CrossSchema?
    decreases |vs|
  {
    if vs == [] then Ordered([])
    else
      var p := Pass(key, known, vs);
      if |p.remaining| == |vs| then Stuck(p.remaining, p.known)
      else
        var rest := Order(key, p.known, p.remaining);
        if rest.Ordered? then Ordered(p.placed + rest.views) else rest
  }

  lemma KeysAppend(key: string -> string, a: seq<ObjectDef>, b: seq<ObjectDef>)
    ensures Keys(key, a + b) == Keys(key, a) + Keys(key, b)
    decreases |b|
  {
    if b != [] {
      assert (a + b)[..|a + b| - 1] == a + b[..|b| - 1];
      KeysAppend(key, a, b[..|b| - 1]);
    } else {
      assert a + b == a;
    }
  }

  lemma {:induction false} KeysMember(key: string -> string, o: seq<ObjectDef>, k: string)
    ensures k in Keys(key, o) <==> exists j :: 0 <= j < |o| && key(o[j].name) == k
  {
    if o != [] {
      var n := |o|;
      KeysMember(key, o[..n - 1], k);
      if k in Keys(key, o[..n - 1]) {
        var j :| 0 <= j < n - 1 && key(o[..n - 1][j].name) == k;
        assert o[j] == o[..n - 1][j];
      }
      if j :| 0 <= j < n && key(o[j].name) == k {
        if j < n - 1 {
          assert o[..n - 1][j] == o[j];
        }
      }
    }
  }

  lemma ReadyGrows(k1: set<string>, k2: set<string>, x: ObjectDef)
    requires k1 <= k2 && Ready(k1, x)
    ensures Ready(k2, x)
  {
  }

  /** The views one pass places come out in a valid order. */
  lemma {:induction false} PassValid(key: string -> string, known: set<string>, vs: seq<ObjectDef>)
    ensures ValidOrder(key, known, Pass(key, known, vs).placed)
    decreases |vs|
  {
    if vs != [] {
      var n := |vs|;
      PassValid(key, known, vs[..n - 1]);
      PassSplits(key, known, vs[..n - 1]);
      var p := Pass(key, known, vs[..n - 1]);
      var x := vs[n - 1];
      if Ready(p.known, x) {
        ValidSnoc(key, known, p.placed, x);
      }
    }
  }

  lemma ValidSnoc(key: string -> string, known: set<string>, a: seq<ObjectDef>, x: ObjectDef)
    requires ValidOrder(key, known, a) && Ready(known + Keys(key, a), x)
    ensures ValidOrder(key, known, a + [x])
  {
    var o := a + [x];
    forall i | 0 <= i < |o| ensures Ready(known + Keys(key, o[..i]), o[i]) {
      if i < |a| {
        assert o[..i] == a[..i] && o[i] == a[i];
      } else {
        assert o[..i] == a && o[i] == x;
      }
    }
  }

  lemma ValidAppend(key: string -> string, known: set<string>, a: seq<ObjectDef>, b: seq<ObjectDef>)
    requires ValidOrder(key, known, a) && ValidOrder(key, known + Keys(key, a), b)
    ensures ValidOrder(key, known, a + b)
  {
    forall i | 0 <= i < |a + b| ensures Ready(known + Keys(key, (a + b)[..i]), (a + b)[i]) {
      if i < |a| {
        assert (a + b)[..i] == a[..i] && (a + b)[i] == a[i];
      } else {
        ValidAppendAt(key, known, a, b, i);
      }
    }
  }

  lemma ValidAppendAt(key: string -> string, known: set<string>, a: seq<ObjectDef>, b: seq<ObjectDef>, i: nat)
    requires |a| <= i < |a| + |b| && ValidOrder(key, known + Keys(key, a), b)
    ensures Ready(known + Keys(key, (a + b)[..i]), (a + b)[i])
  {
    var k := i - |a|;
    assert Ready(known + Keys(key, a) + Keys(key, b[..k]), b[k]);
    assert (a + b)[..i] == a + b[..k];
    KeysAppend(key, a, b[..k]);
    assert (a + b)[i] == b[k];
  }

  /** Soundness: a successful ordering is a permutation of the views in which every
      view comes after everything it references that is not already known. */
  lemma {:induction false} OrderSound(key: string -> string, known: set<string>, vs: seq<ObjectDef>)
    ensures var r := Order(key, known, vs);
      r.Ordered? ==> multiset(r.views) == multiset(vs) && ValidOrder(key, known, r.views)
    decreases |vs|
  {
    if vs != [] {
      var p := Pass(key, known, vs);
      PassSplits(key, known, vs);
      if |p.remaining| < |vs| {
        OrderSound(key, p.known, p.remaining);
        PassValid(key, known, vs);
        var r := Order(key, p.known, p.remaining);
        if r.Ordered? {
          ValidAppend(key, known, p.placed, r.views);
        }
      }
    }
  }

  /** When ordering gets stuck, no waiting view is ready against the names then known,
      and those names include the seed and every view that was placed. */
  lemma {:induction false} OrderStuck(key: string -> string, known: set<string>, vs: seq<ObjectDef>)
    ensures var r := Order(key, known, vs);
      r.Stuck? ==>
        && r.remaining != []
        && known <= r.known
        && multiset(r.remaining) <= multiset(vs)
        && (forall i :: 0 <= i < |r.remaining| ==> !Ready(r.known, r.remaining[i]))
        && (forall x :: x in vs && x !in r.remaining ==> key(x.name) in r.known)
    decreases |vs|
  {
    if vs != [] {
      var p := Pass(key, known, vs);
      PassSplits(key, known, vs);
      if |p.remaining| == |vs| {
        PassPlacedNothing(key, known, vs);
      } else {
        OrderStuck(key, p.known, p.remaining);
        var r := Order(key, p.known, p.remaining);
        if r.Stuck? {
          forall x | x in vs && x !in r.remaining ensures key(x.name) in r.known {
            assert x in multiset(vs);
            if x in p.placed {
              var j :| 0 <= j < |p.placed| && p.placed[j] == x;
              KeysMember(key, p.placed, key(x.name));
            }
          }
        }
      }
    }
  }

  /** Completeness: whenever some order of the views is valid, the greedy passes find
      one; together with `OrderSound`, ordering fails exactly when no valid order
      exists. */
  lemma OrderComplete(key: string -> string, known: set<string>, vs: seq<ObjectDef>, o: seq<ObjectDef>)
    requires multiset(o) == multiset(vs) && ValidOrder(key, known, o)
    ensures Order(key, known, vs).Ordered?
  {
    var r := Order(key, known, vs);
    if r.Stuck? {
      OrderStuck(key, known, vs);
      var i := FirstWaiting(o, r.remaining);
      forall j | 0 <= j < i ensures key(o[j].name) in r.known {
        assert o[j] in multiset(vs);
      }
      KeysWithin(key, o[..i], r.known);
      assert false;
    }
  }

  /** The first view of `o` that is among `waiting`, given that `waiting` is a
      non-empty part of it. */
  lemma FirstWaiting(o: seq<ObjectDef>, waiting: seq<ObjectDef>) returns (i: nat)
    requires waiting != [] && multiset(waiting) <= multiset(o)
    ensures i < |o| && o[i] in waiting
    ensures forall j :: 0 <= j < i ==> o[j] !in waiting
  {
    assert waiting[0] in multiset(o);
    var t :| 0 <= t < |o| && o[t] == waiting[0];
    i := 0;
    while o[i] !in waiting
      invariant 0 <= i <= t
      invariant forall j :: 0 <= j < i ==> o[j] !in waiting
      decreases t - i
    {
      i := i + 1;
    }
  }

  lemma KeysWithin(key: string -> string, o: seq<ObjectDef>, k: set<string>)
    requires forall j :: 0 <= j < |o| ==> key(o[j].name) in k
    ensures Keys(key, o) <= k
  {
    forall n | n in Keys(key, o) ensures n in k {
      KeysMember(key, o, n);
    }
  }

  /** A reference that is neither known nor the key of any of the views can never be
      satisfied: ordering fails. */
  lemma MissingDependencyFails(key: string -> string, known: set<string>, vs: seq<ObjectDef>, x: ObjectDef, d: string)
    requires x in vs && d in Deps(x) && d !in known
    requires forall y :: y in vs ==> key(y.name) != d
    ensures Order(key, known, vs).Stuck?
  {
    OrderSound(key, known, vs);
    var r := Order(key, known, vs);
    if r.Ordered? {
      assert x in multiset(r.views);
      var i :| 0 <= i < |r.views| && r.views[i] == x;
      var j :| 0 <= j < |Deps(x)| && Deps(x)[j] == d;
      var l := EarlierKey(key, known, r.views, i, j);
      InPermutation(r.views, vs, r.views[l]);
      assert false;
    }
  }

  lemma InPermutation(a: seq<ObjectDef>, b: seq<ObjectDef>, y: ObjectDef)
    requires multiset(a) == multiset(b) && y in a
    ensures y in b
  {
    assert y in multiset(a);
  }

  /** In a valid order a reference that is not known is the key of an earlier view. */
  lemma EarlierKey(key: string -> string, known: set<string>, o: seq<ObjectDef>, i: nat, j: nat) returns (l: nat)
    requires ValidOrder(key, known, o) && i < |o| && j < |Deps(o[i])| && Deps(o[i])[j] !in known
    ensures l < i && key(o[l].name) == Deps(o[i])[j]
  {
    var d := Deps(o[i])[j];
    assert d in known + Keys(key, o[..i]);
    KeysMember(key, o[..i], d);
    l :| 0 <= l < i && key(o[..i][l].name) == d;
    assert o[..i][l] == o[l];
  }


  /** A first pass that places nothing ends the ordering at once. */
  lemma NothingReadyFails(key: string -> string, known: set<string>, vs: seq<ObjectDef>)
    requires vs != []
    requires forall i :: 0 <= i < |vs| ==> !Ready(known, vs[i])
    ensures Order(key, known, vs) == Stuck(vs, known)
  {
    PassNoneReady(key, known, vs);
    PassPlacedNothing(key, known, vs);
  }

  /** The key function of each variant, as the ordering uses it. */
  function Fold(v: Variant): (f: string -> string)
    ensures forall s :: f(s) == Key(v, s)
  {
    if v == Package then Lower else (s: string) => s
  }

  /** The names a view may reference without waiting for another view: the reflected
      tables, and in the package also the functions and procedures, all lower-cased;
      the script seeds the tables only, verbatim. */
  function Seed(v: Variant, tables: seq<string>, functions: seq<ObjectDef>, procedures: seq<ObjectDef>): (s: set<string>)
    ensures v == Package ==> forall n :: n in s <==>
      ((exists t :: t in tables && n == Lower(t)) || exists o :: o in functions + procedures && n == Lower(o.name))
    ensures v == Script ==> forall n :: n in s <==> n in tables
  {
    if v == Package then
      (set t | t in tables :: Lower(t)) + (set o | o in functions :: Lower(o.name))
        + (set o | o in procedures :: Lower(o.name))
    else set t | t in tables
  }

  /** `get_views` after the definitions are fetched: references extracted, then the
      views ordered against the seed. */
  function GetViews(v: Variant, deps: string -> seq<DepRow>, views: seq<ObjectDef>, seed: set<string>): Ordering
  {
    match Extract(v, deps, views)
    case ForeignReference(n) => CrossSchema(n)
    case Extracted(vs) => Order(Fold(v), seed, vs)
  }

  /** On success no view had a foreign reference, the result is a permutation of the
      extracted views (each an input view with its references added), and each
      reference, keyed as the variant keys names, is in the seed or is the key of a
      view placed before it. */
  lemma GetViewsSound(v: Variant, deps: string -> seq<DepRow>, views: seq<ObjectDef>, seed: set<string>)
    ensures var r := GetViews(v, deps, views, seed);
      r.Ordered? ==>
        && (forall i :: 0 <= i < |views| ==> !HasForeign(deps(views[i].name)))
        && multiset(r.views) == multiset(Extract(v, deps, views).views)
        && forall i, j :: 0 <= i < |r.views| && 0 <= j < |Deps(r.views[i])| ==>
             Deps(r.views[i])[j] in seed || exists l :: 0 <= l < i && Key(v, r.views[l].name) == Deps(r.views[i])[j]
  {
    var e := Extract(v, deps, views);
    if e.Extracted? {
      var key := Fold(v);
      OrderSound(key, seed, e.views);
      var r := Order(key, seed, e.views);
      if r.Ordered? {
        forall i, j | 0 <= i < |r.views| && 0 <= j < |Deps(r.views[i])|
          ensures Deps(r.views[i])[j] in seed || exists l :: 0 <= l < i && Key(v, r.views[l].name) == Deps(r.views[i])[j]
        {
          if Deps(r.views[i])[j] !in seed {
            var l := EarlierKey(key, seed, r.views, i, j);
          }
        }
      }
    }
  }

  // ---------------------------------------------------------------------------
  // The ordering loop as the code runs it

  /** `prefix` placed in earlier passes, ahead of whatever the rest of the ordering
      yields. */
  function After(prefix: seq<ObjectDef>, r: Ordering): Ordering
  {
    if r.Ordered? then Ordered(prefix + r.views) else r
  }

  method OrderViews(key: string -> string, seed: set<string>, views: seq<ObjectDef>) returns (r: Ordering)
    ensures r == Order(key, seed, views)
  {
    var known := seed;
    var ordered: seq<ObjectDef> := [];
    var newViews := views;
    while |newViews| > 0
      invariant Order(key, seed, views) == After(ordered, Order(key, known, newViews))
      decreases |newViews|
    {
      var remaining: seq<ObjectDef> := [];
      ghost var before := ordered;
      ghost var known0 := known;
      for i := 0 to |newViews|
        invariant |before| <= |ordered| && ordered[..|before|] == before
        invariant Pass(key, known0, newViews[..i]) == PassResult(ordered[|before|..], remaining, known)
      {
        PassStep(key, known0, newViews, i);
        var x := newViews[i];
        if Ready(known, x) {
          known := known + {key(x.name)};
          ordered := ordered + [x];
        } else {
          remaining := remaining + [x];
        }
      }
      assert newViews[..|newViews|] == newViews;
      assert ordered == before + ordered[|before|..];
      OrderUnfold(key, known0, newViews, before, ordered);
      if |newViews| == |remaining| {
        return Stuck(remaining, known);
      }
      newViews := remaining;
    }
    r := Ordered(ordered);
  }

  lemma PassStep(key: string -> string, known: set<string>, vs: seq<ObjectDef>, i: nat)
    requires i < |vs|
    ensures var p := Pass(key, known, vs[..i]);
      Pass(key, known, vs[..i + 1]) ==
        if Ready(p.known, vs[i]) then PassResult(p.placed + [vs[i]], p.remaining, p.known + {key(vs[i].name)})
        else PassResult(p.placed, p.remaining + [vs[i]], p.known)
  {
    assert vs[..i + 1][..i] == vs[..i];
  }

  lemma OrderUnfold(key: string -> string, known: set<string>, vs: seq<ObjectDef>, before: seq<ObjectDef>, ordered: seq<ObjectDef>)
    requires vs != []
    requires ordered == before + Pass(key, known, vs).placed
    ensures var p := Pass(key, known, vs);
      After(before, Order(key, known, vs)) ==
        if |p.remaining| == |vs| then Stuck(p.remaining, p.known) else After(ordered, Order(key, p.known, p.remaining))
  {
    var p := Pass(key, known, vs);
    if |p.remaining| != |vs| {
      var rest := Order(key, p.known, p.remaining);
      if rest.Ordered? {
        assert before + (p.placed + rest.views) == ordered + rest.views;
      }
    }
  }

  // ---------------------------------------------------------------------------
  // Fixtures

  const DbObjects: set<string> := {"t1", "t2", "t3", "f1", "f2", "p1", "p2"}

  function View(name: string, deps: seq<string>): ObjectDef
  {
    ObjectDef(name, "", Some(deps))
  }

  lemma FixtureFirstHalf()
    ensures Pass(Lower, DbObjects, [View("v1", []), View("v2", ["v3", "v4", "t1"])])
      == PassResult([View("v1", [])], [View("v2", ["v3", "v4", "t1"])], DbObjects + {"v1"})
  {
    var v1, v2 := View("v1", []), View("v2", ["v3", "v4", "t1"]);
    var vs := [v1, v2];
    LowerPlain("v1");
    PassStep(Lower, DbObjects, vs, 0);
    PassStep(Lower, DbObjects, vs, 1);
    assert vs[..0] == [] && vs[..2] == vs;
    assert Ready(DbObjects, v1);
    assert !Ready(DbObjects + {"v1"}, v2) by { assert Deps(v2)[0] == "v3"; }
  }

  lemma FixtureFirstThree()
    ensures Pass(Lower, DbObjects, [View("v1", []), View("v2", ["v3", "v4", "t1"]), View("v4", ["t1", "f1"])])
      == PassResult([View("v1", []), View("v4", ["t1", "f1"])], [View("v2", ["v3", "v4", "t1"])], DbObjects + {"v1", "v4"})
  {
    var v1, v2, v4 := View("v1", []), View("v2", ["v3", "v4", "t1"]), View("v4", ["t1", "f1"]);
    var vs := [v1, v2, v4];
    FixtureFirstHalf();
    LowerPlain("v4");
    assert vs[..2] == [v1, v2] && vs[..3] == vs;
    PassStep(Lower, DbObjects, vs, 2);
    assert Ready(DbObjects + {"v1"}, v4);
  }

  lemma FixtureFirstPass()
    ensures Pass(Lower, DbObjects, [View("v1", []), View("v2", ["v3", "v4", "t1"]), View("v4", ["t1", "f1"]), View("v3", ["t2", "f1", "p2"])])
      == PassResult([View("v1", []), View("v4", ["t1", "f1"]), View("v3", ["t2", "f1", "p2"])], [View("v2", ["v3", "v4", "t1"])],
                    DbObjects + {"v1", "v4", "v3"})
  {
    var v1, v2, v4, v3 := View("v1", []), View("v2", ["v3", "v4", "t1"]), View("v4", ["t1", "f1"]), View("v3", ["t2", "f1", "p2"]);
    var vs := [v1, v2, v4, v3];
    FixtureFirstThree();
    LowerPlain("v3");
    assert vs[..3] == [v1, v2, v4] && vs[..4] == vs;
    PassStep(Lower, DbObjects, vs, 3);
    assert Ready(DbObjects + {"v1", "v4"}, v3);
  }

  /** The four views of the ordering fixture: `v1` has no references, `v4` and `v3`
      reference tables, functions and procedures only, and `v2` waits for both. */
  lemma FixtureOrdered()
    ensures Order(Lower, DbObjects, [View("v1", []), View("v2", ["v3", "v4", "t1"]), View("v4", ["t1", "f1"]), View("v3", ["t2", "f1", "p2"])])
      == Ordered([View("v1", []), View("v4", ["t1", "f1"]), View("v3", ["t2", "f1", "p2"]), View("v2", ["v3", "v4", "t1"])])
  {
    var v2 := View("v2", ["v3", "v4", "t1"]);
    FixtureFirstPass();
    var k := DbObjects + {"v1", "v4", "v3"};
    LowerPlain("v2");
    PassStep(Lower, k, [v2], 0);
    assert [v2][..1] == [v2] && [v2][..0] == [];
    assert Ready(k, v2);
  }

  lemma LowerPlain(s: string)
    requires forall i :: 0 <= i < |s| ==> !('A' <= s[i] <= 'Z')
    ensures Lower(s) == s
  {
  }

  /** A cycle v1 -> v2 -> v4 -> v1 cannot be ordered. */
  lemma FixtureCycle()
    ensures Order(Lower, DbObjects, [View("v1", ["v2", "t1"]), View("v2", ["v4", "p1", "t2"]), View("v4", ["v1", "t3", "f2"])]).Stuck?
  {
    var vs := [View("v1", ["v2", "t1"]), View("v2", ["v4", "p1", "t2"]), View("v4", ["v1", "t3", "f2"])];
    assert !Ready(DbObjects, vs[0]) by { assert Deps(vs[0])[0] == "v2"; }
    assert !Ready(DbObjects, vs[1]) by { assert Deps(vs[1])[0] == "v4"; }
    assert !Ready(DbObjects, vs[2]) by { assert Deps(vs[2])[0] == "v1"; }
    NothingReadyFails(Lower, DbObjects, vs);
  }

  /** A reference to an object that does not exist cannot be satisfied. */
  lemma FixtureMissing()
    ensures Order(Lower, DbObjects, [View("v1", ["t99"])]).Stuck?
  {
    var x := View("v1", ["t99"]);
    assert Deps(x)[0] == "t99";
    LowerPlain("v1");
    MissingDependencyFails(Lower, DbObjects, [x], x, "t99");
  }

  /** The script neither seeds functions and procedures nor folds case: a view on a
      function cannot be placed there, while the package places it. */
  lemma FixtureScriptSeed()
    ensures Order(Fold(Script), Seed(Script, ["t1"], [View("f1", [])], []), [View("v1", ["f1"])]).Stuck?
    ensures Order(Fold(Package), Seed(Package, ["t1"], [View("f1", [])], []), [View("v1", ["f1"])]) == Ordered([View("v1", ["f1"])])
  {
    var x := View("v1", ["f1"]);
    assert Deps(x)[0] == "f1";
    assert Seed(Script, ["t1"], [View("f1", [])], []) == {"t1"};
    MissingDependencyFails(Fold(Script), {"t1"}, [x], x, "f1");
    LowerPlain("t1"); LowerPlain("f1");
    var s := Seed(Package, ["t1"], [View("f1", [])], []);
    assert "f1" in s;
    assert Ready(s, x);
    PassStep(Lower, s, [x], 0);
    assert [x][..1] == [x] && [x][..0] == [];
  }

  /** The dependencies of the second view of the extraction fixture: an empty schema
      and `dbo` are both accepted. */
  function FixtureDeps(name: string): seq<DepRow>
  {
    if name == "view1" then [DepRow(Some("dbo"), "t1")]
    else [DepRow(Some(""), "t2"), DepRow(Some("dbo"), "tig1"), DepRow(Some("dbo"), "func1")]
  }

  lemma FixtureExtracted()
    ensures Extract(Package, FixtureDeps, [ObjectDef("view1", "defintion1", None), ObjectDef("view2", "defintion2", None)])
      == Extracted([ObjectDef("view1", "defintion1", Some(["t1"])), ObjectDef("view2", "defintion2", Some(["t2", "tig1", "func1"]))])
  {
    LowerPlain("t1"); LowerPlain("t2"); LowerPlain("tig1"); LowerPlain("func1");
    assert "view2" != "view1";
    var r1 := FixtureDeps("view1");
    var r2 := FixtureDeps("view2");
    assert !HasForeign(r1);
    assert !HasForeign(r2);
    assert Entities(Package, r1) == ["t1"];
    assert Entities(Package, r2) == ["t2", "tig1", "func1"];
  }

  lemma FixtureForeign()
    ensures Extract(Package, (n: string) => if n == "view1" then [DepRow(Some("xyz"), "t1")] else FixtureDeps(n),
      [ObjectDef("view1", "defintion1", None), ObjectDef("view2", "defintion2", None)]) == ForeignReference("view1")
  {
    var rows := [DepRow(Some("xyz"), "t1")];
    assert Foreign(rows[0]);
  }
}
