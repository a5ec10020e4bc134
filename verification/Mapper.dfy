/**
 Version coercion (agents/mapper/mapper.py): registered transforms form a directed
 graph of versions, possibly cyclic, and a payload is carried along the shortest path
 found by breadth-first search over sorted neighbours.
 */
module Mapper {
  import opened Prelude

  datatype Key = Key(subject: string, from: int, to: int)

  datatype MapperError = NoTransformPath | TransformRaised | OutputInvalid

  /** A transform, None when it raises. */
  type TransformFn = Record -> Option<Record>

  // --- Walks and their order ----------------------------------------------------

  /** A walk through registered transforms of one subject, as the versions visited. */
  predicate IsWalk(keys: set<Key>, subject: string, p: seq<int>) {
    p != [] && forall i :: 0 <= i < |p| - 1 ==> Key(subject, p[i], p[i + 1]) in keys
  }

  function End(p: seq<int>): int
    requires p != []
  {
    p[|p| - 1]
  }

  function Init(p: seq<int>): seq<int>
    requires p != []
  {
    p[..|p| - 1]
  }

  predicate WalkFrom(keys: set<Key>, subject: string, src: int, p: seq<int>) {
    IsWalk(keys, subject, p) && p[0] == src
  }

  predicate FirstDiffersAt(p: seq<int>, q: seq<int>, i: int) {
    0 <= i < |p| && |p| == |q| && p[i] < q[i] && forall k :: 0 <= k < i ==> p[k] == q[k]
  }

  /** Lexicographic order on walks of the same length. */
  ghost predicate LexLess(p: seq<int>, q: seq<int>) {
    exists i :: FirstDiffersAt(p, q, i)
  }

  /** Fewer hops first; among equally many, the lexicographically least. */
  ghost predicate Before(p: seq<int>, q: seq<int>) {
    |p| < |q| || LexLess(p, q)
  }

  ghost predicate NotAfter(p: seq<int>, q: seq<int>) { p == q || Before(p, q) }

  lemma BeforeTransitive(p: seq<int>, q: seq<int>, r: seq<int>)
    requires Before(p, q) && Before(q, r)
    ensures Before(p, r)
  {
    if |p| == |r| {
      var i :| FirstDiffersAt(p, q, i);
      var j :| FirstDiffersAt(q, r, j);
      var k := if i < j then i else j;
      assert FirstDiffersAt(p, r, k);
    }
  }

  lemma BeforeIrreflexive(p: seq<int>, q: seq<int>)
    requires Before(p, q)
    ensures p != q && !Before(q, p)
  {
    if |p| == |q| {
      var i :| FirstDiffersAt(p, q, i);
      forall j ensures !FirstDiffersAt(q, p, j) {}
    }
  }

  lemma BeforeExtends(p: seq<int>, q: seq<int>, a: int, b: int)
    requires Before(p, q) || (p == q && a < b)
    ensures Before(p + [a], q + [b])
  {
    if |p| == |q| {
      if p == q {
        assert FirstDiffersAt(p + [a], q + [b], |p|);
      } else {
        var i :| FirstDiffersAt(p, q, i);
        assert FirstDiffersAt(p + [a], q + [b], i);
      }
    }
  }

  ghost predicate IsLeastWalk(keys: set<Key>, subject: string, src: int, dst: int, p: seq<int>) {
    && WalkFrom(keys, subject, src, p) && End(p) == dst
    && forall q :: WalkFrom(keys, subject, src, q) && End(q) == dst ==> NotAfter(p, q)
  }

  function EdgesOf(p: seq<int>): seq<(int, int)>
    requires p != []
  {
    seq(|p| - 1, i requires 0 <= i < |p| - 1 => (p[i], p[i + 1]))
  }

  /** What the path search must answer: no path when there is none, else the least one. */
  ghost predicate PathAnswer(keys: set<Key>, subject: string, src: int, dst: int, answer: Option<seq<(int, int)>>) {
    if answer.None? then forall q :: WalkFrom(keys, subject, src, q) ==> End(q) != dst
    else exists p :: IsLeastWalk(keys, subject, src, dst, p) && answer.value == EdgesOf(p)
  }

  /** The answer depends only on which transforms are registered, never on their order. */
  lemma AnswerIsUnique(keys: set<Key>, subject: string, src: int, dst: int,
                       a: Option<seq<(int, int)>>, b: Option<seq<(int, int)>>)
    requires PathAnswer(keys, subject, src, dst, a) && PathAnswer(keys, subject, src, dst, b)
    ensures a == b
  {
    if a.Some? && b.Some? {
      var p :| IsLeastWalk(keys, subject, src, dst, p) && a.value == EdgesOf(p);
      var q :| IsLeastWalk(keys, subject, src, dst, q) && b.value == EdgesOf(q);
      if p != q { BeforeIrreflexive(p, q); }
    }
  }

  /** A found path is a chain of registered transforms from src to dst with the fewest hops. */
  lemma AnswerIsAShortestPath(keys: set<Key>, subject: string, src: int, dst: int, edges: seq<(int, int)>, q: seq<int>)
    requires PathAnswer(keys, subject, src, dst, Some(edges))
    ensures forall i :: 0 <= i < |edges| ==> Key(subject, edges[i].0, edges[i].1) in keys
    ensures forall i :: 0 < i < |edges| ==> edges[i].0 == edges[i - 1].1
    ensures if edges == [] then src == dst else edges[0].0 == src && edges[|edges| - 1].1 == dst
    ensures WalkFrom(keys, subject, src, q) && End(q) == dst ==> |edges| <= |q| - 1
  {
    var p :| IsLeastWalk(keys, subject, src, dst, p) && edges == EdgesOf(p);
  }

  // --- The search ----------------------------------------------------------------

  predicate Weakly(s: seq<int>) {
    forall i, j :: 0 <= i < j < |s| ==> s[i] <= s[j]
  }

  function Inserted(s: seq<int>, v: int): (r: seq<int>)
    requires Weakly(s)
    ensures Weakly(r) && forall x :: x in r <==> x in s || x == v
  {
    if s == [] then [v]
    else if v <= s[0] then [v] + s
    else
      var rest := Inserted(s[1..], v);
      assert forall x :: x in s <==> x == s[0] || x in s[1..];
      assert forall i :: 0 <= i < |rest| ==> rest[i] in rest;
      [s[0]] + rest
  }

  /** Python's `sorted` on a list of integers. */
  function Sorted(s: seq<int>): (r: seq<int>)
    ensures Weakly(r) && forall x :: x in r <==> x in s
  {
    if s == [] then []
    else
      assert forall x :: x in s <==> x in s[..|s| - 1] || x == s[|s| - 1];
      Inserted(Sorted(s[..|s| - 1]), s[|s| - 1])
  }

  /** The successors of a version, in registration order. */
  function Successors(order: seq<Key>, subject: string, a: int): seq<int> {
    if order == [] then []
    else
      var k := order[|order| - 1];
      Successors(order[..|order| - 1], subject, a) + if k.subject == subject && k.from == a then [k.to] else []
  }

  lemma {:induction false} SuccessorsAreEdges(order: seq<Key>, subject: string, a: int, b: int)
    ensures b in Successors(order, subject, a) <==> Key(subject, a, b) in order
  {
    if order != [] {
      var n := |order| - 1;
      SuccessorsAreEdges(order[..n], subject, a, b);
      assert order == order[..n] + [order[n]];
    }
  }

  lemma SuccessorsStep(order: seq<Key>, subject: string, a: int, i: nat)
    requires i < |order|
    ensures Successors(order[..i + 1], subject, a) ==
            Successors(order[..i], subject, a) + if order[i].subject == subject && order[i].from == a then [order[i].to] else []
  {
    assert order[..i + 1][..i] == order[..i];
  }

  function NeighboursIn(adjacency: map<int, seq<int>>, a: int): seq<int> {
    if a in adjacency then adjacency[a] else []
  }

  /** All versions a walk from src can visit. */
  function Versions(keys: set<Key>, src: int): set<int> {
    {src} + set k | k in keys :: k.to
  }

  /** The paths found so far, in the order found, of which the first h have been taken
      from the queue. */
  datatype Search = Search(found: seq<seq<int>>, h: nat, seen: set<int>)

  predicate FoundAt(s: Search, i: int, v: int) {
    0 <= i < |s.found| && s.found[i] != [] && End(s.found[i]) == v
  }

  ghost predicate Finds(s: Search, v: int) { exists i :: FoundAt(s, i, v) }

  /** v ends a path that has been taken from the queue. */
  ghost predicate Taken(s: Search, v: int) { exists i :: i < s.h && FoundAt(s, i, v) }

  ghost predicate LeastAt(keys: set<Key>, subject: string, src: int, s: Search, i: int) {
    0 <= i < |s.found| && s.found[i] != [] ==>
      forall p :: WalkFrom(keys, subject, src, p) && End(p) == End(s.found[i]) ==> NotAfter(s.found[i], p)
  }

  ghost predicate Invariant(keys: set<Key>, subject: string, src: int, s: Search) {
    && s.h <= |s.found| && s.found != [] && s.found[0] == [src]
    && (forall i :: 0 <= i < |s.found| ==> WalkFrom(keys, subject, src, s.found[i]))
    && (forall v :: v in s.seen <==> Finds(s, v))
    && (forall i, j :: 0 <= i < j < |s.found| ==> Before(s.found[i], s.found[j]))
    && (forall i :: LeastAt(keys, subject, src, s, i))
  }

  /** Everything one hop from a taken version has been seen. */
  ghost predicate Closed(keys: set<Key>, subject: string, s: Search) {
    forall u, v :: Taken(s, u) && Key(subject, u, v) in keys ==> v in s.seen
  }

  /** While the neighbours of path h are examined: later paths extend taken ones, or
      path h by one of the neighbours examined. */
  ghost predicate FromFront(s: Search, done: seq<int>, i: int) {
    0 < i < |s.found| && s.found[i] != [] && s.h < |s.found| ==>
      || (exists k :: 0 <= k < s.h && Init(s.found[i]) == s.found[k])
      || (Init(s.found[i]) == s.found[s.h] && End(s.found[i]) in done)
  }

  /** The path at the front of the queue comes before every walk to a version not yet taken. */
  lemma {:induction false} FrontIsLeast(keys: set<Key>, subject: string, src: int, s: Search, p: seq<int>)
    requires Invariant(keys, subject, src, s) && Closed(keys, subject, s) && s.h < |s.found|
    requires WalkFrom(keys, subject, src, p) && !Taken(s, End(p))
    ensures NotAfter(s.found[s.h], p)
    decreases |p|
  {
    if |p| == 1 {
      assert p == s.found[0];
      assert FoundAt(s, 0, src);
      assert s.h == 0;
    } else {
      var q := Init(p);
      assert WalkFrom(keys, subject, src, q);
      if Taken(s, End(q)) {
        assert Key(subject, End(q), End(p)) in keys;
        assert Finds(s, End(p));
        var m :| FoundAt(s, m, End(p));
        assert m >= s.h;
        assert LeastAt(keys, subject, src, s, m);
        if m > s.h && p != s.found[m] { BeforeTransitive(s.found[s.h], s.found[m], p); }
      } else {
        FrontIsLeast(keys, subject, src, s, q);
        if s.found[s.h] != q { BeforeTransitive(s.found[s.h], q, p); }
      }
    }
  }

  /** A version first seen from the front gets its least walk. */
  lemma NewPathIsLeast(keys: set<Key>, subject: string, src: int, s: Search, v: int, p: seq<int>)
    requires Invariant(keys, subject, src, s) && Closed(keys, subject, s) && s.h < |s.found|
    requires v !in s.seen
    requires WalkFrom(keys, subject, src, p) && End(p) == v
    ensures NotAfter(s.found[s.h] + [v], p)
  {
    if |p| == 1 {
      assert FoundAt(s, 0, src);
      assert Finds(s, v);
    } else {
      var q := Init(p);
      assert WalkFrom(keys, subject, src, q);
      assert Key(subject, End(q), v) in keys;
      FrontIsLeast(keys, subject, src, s, q);
      assert p == q + [v];
      if s.found[s.h] != q { BeforeExtends(s.found[s.h], q, v, v); }
    }
  }

  /** The new path comes after all paths found before it. */
  lemma NewPathIsLast(keys: set<Key>, subject: string, src: int, s: Search, done: seq<int>, v: int, i: nat)
    requires Invariant(keys, subject, src, s) && s.h < |s.found| && i < |s.found|
    requires forall k :: FromFront(s, done, k)
    requires v !in s.seen && forall w :: w in done ==> w <= v
    ensures Before(s.found[i], s.found[s.h] + [v])
  {
    var f, front := s.found[i], s.found[s.h];
    if i > 0 {
      assert FromFront(s, done, i);
      assert f == Init(f) + [End(f)];
      assert FoundAt(s, i, End(f));
      assert Finds(s, End(f));
      if k :| 0 <= k < s.h && Init(f) == s.found[k] {
        BeforeExtends(s.found[k], front, End(f), v);
      } else {
        BeforeExtends(front, front, End(f), v);
      }
    }
  }

  function Discover(s: Search, v: int): Search
    requires s.h < |s.found|
  {
    Search(s.found + [s.found[s.h] + [v]], s.h, s.seen + {v})
  }

  lemma DiscoverKeeps(keys: set<Key>, subject: string, src: int, s: Search, done: seq<int>, v: int)
    requires Invariant(keys, subject, src, s) && Closed(keys, subject, s) && s.h < |s.found|
    requires forall k :: FromFront(s, done, k)
    requires v !in s.seen && forall w :: w in done ==> w <= v
    requires Key(subject, End(s.found[s.h]), v) in keys
    ensures Invariant(keys, subject, src, Discover(s, v)) && Closed(keys, subject, Discover(s, v))
    ensures forall k :: FromFront(Discover(s, v), done + [v], k)
  {
    var t, n := Discover(s, v), |s.found|;
    forall i | 0 <= i < |t.found| ensures LeastAt(keys, subject, src, t, i) {
      if i == n {
        forall p | WalkFrom(keys, subject, src, p) && End(p) == v ensures NotAfter(t.found[n], p) {
          NewPathIsLeast(keys, subject, src, s, v, p);
        }
      } else {
        assert LeastAt(keys, subject, src, s, i);
      }
    }
    forall i | 0 <= i < n ensures Before(t.found[i], t.found[n]) {
      NewPathIsLast(keys, subject, src, s, done, v, i);
    }
    DiscoverFinds(s, v);
    forall k ensures FromFront(t, done + [v], k) {
      assert FromFront(s, done, k);
      if k == n {
        assert t.found[n] == s.found[s.h] + [v];
        assert Init(t.found[n]) == s.found[s.h] && End(t.found[n]) == v;
      } else if 0 < k < n {
        assert t.found[k] == s.found[k];
        if m :| 0 <= m < s.h && Init(s.found[k]) == s.found[m] { assert t.found[m] == s.found[m]; }
      }
    }
  }

  lemma DiscoverFinds(s: Search, v: int)
    requires s.h < |s.found| && s.found[s.h] != []
    ensures forall w :: Finds(Discover(s, v), w) <==> Finds(s, w) || w == v
    ensures forall w :: Taken(Discover(s, v), w) <==> Taken(s, w)
  {
    var t, n := Discover(s, v), |s.found|;
    forall w, i | FoundAt(s, i, w) ensures FoundAt(t, i, w) {}
    forall w, i | FoundAt(t, i, w) ensures FoundAt(s, i, w) || (i == n && w == v) {}
    assert FoundAt(t, n, v);
    forall w ensures Taken(t, w) <==> Taken(s, w) {
      if i :| i < s.h && FoundAt(s, i, w) { assert FoundAt(t, i, w); }
      if i :| i < t.h && FoundAt(t, i, w) { assert FoundAt(s, i, w); }
    }
  }

  lemma SkipKeeps(s: Search, done: seq<int>, v: int)
    requires forall k :: FromFront(s, done, k)
    ensures forall k :: FromFront(s, done + [v], k)
  {
    forall k ensures FromFront(s, done + [v], k) { assert FromFront(s, done, k); }
  }

  /** The search has come from s0 to s by examining the neighbours in `done` of its front. */
  ghost predicate Examining(keys: set<Key>, subject: string, src: int, s0: Search, s: Search, done: seq<int>) {
    && Invariant(keys, subject, src, s) && Closed(keys, subject, s)
    && s.h == s0.h < |s0.found| && s.h < |s.found| && s.found[s.h] == s0.found[s0.h]
    && (forall k :: FromFront(s, done, k))
    && (forall v :: v in done ==> v in s.seen)
    && (forall v :: Taken(s, v) <==> Taken(s0, v))
    && (s == s0 || s0.seen < s.seen)
  }

  lemma DiscoverExamines(keys: set<Key>, subject: string, src: int, s0: Search, s: Search, done: seq<int>, v: int)
    requires Examining(keys, subject, src, s0, s, done)
    requires v !in s.seen && forall w :: w in done ==> w <= v
    requires Key(subject, End(s.found[s.h]), v) in keys
    ensures Examining(keys, subject, src, s0, Discover(s, v), done + [v])
  {
    DiscoverKeeps(keys, subject, src, s, done, v);
    DiscoverFinds(s, v);
  }

  lemma SkipExamines(keys: set<Key>, subject: string, src: int, s0: Search, s: Search, done: seq<int>, v: int)
    requires Examining(keys, subject, src, s0, s, done) && v in s.seen
    ensures Examining(keys, subject, src, s0, s, done + [v])
  {
    SkipKeeps(s, done, v);
  }

  lemma QueueGrows(s: Search, v: int)
    requires s.h < |s.found|
    ensures Discover(s, v).found[s.h + 1..] == s.found[s.h + 1..] + [s.found[s.h] + [v]]
  {
  }

  /** All neighbours of the front are examined: it is taken. */
  lemma TakeKeeps(keys: set<Key>, subject: string, src: int, s: Search, done: seq<int>)
    requires Invariant(keys, subject, src, s) && Closed(keys, subject, s) && s.h < |s.found|
    requires forall k :: FromFront(s, done, k)
    requires forall v :: v in done ==> v in s.seen
    requires forall v :: Key(subject, End(s.found[s.h]), v) in keys ==> v in done
    ensures var t := s.(h := s.h + 1);
            && Invariant(keys, subject, src, t) && Closed(keys, subject, t)
            && (forall k :: FromFront(t, [], k))
            && (forall v :: Taken(t, v) ==> Taken(s, v) || v == End(s.found[s.h]))
  {
    var t := s.(h := s.h + 1);
    forall v, i | FoundAt(s, i, v) ensures FoundAt(t, i, v) {}
    forall v, i | FoundAt(t, i, v) ensures FoundAt(s, i, v) {}
    forall i ensures LeastAt(keys, subject, src, t, i) { assert LeastAt(keys, subject, src, s, i); }
    forall v ensures Finds(t, v) <==> Finds(s, v) {
      if i :| FoundAt(s, i, v) { assert FoundAt(t, i, v); }
      if i :| FoundAt(t, i, v) { assert FoundAt(s, i, v); }
    }
    forall v | Taken(t, v) ensures Taken(s, v) || v == End(s.found[s.h]) {
      var i :| i < t.h && FoundAt(t, i, v);
      assert FoundAt(s, i, v);
    }
    forall k ensures FromFront(t, [], k) { assert FromFront(s, done, k); }
  }

  /** With the queue empty, every reachable version has been taken. */
  lemma {:induction false} AllTaken(keys: set<Key>, subject: string, src: int, s: Search, p: seq<int>)
    requires Invariant(keys, subject, src, s) && Closed(keys, subject, s) && s.h == |s.found|
    requires WalkFrom(keys, subject, src, p)
    ensures Taken(s, End(p))
    decreases |p|
  {
    if |p| == 1 {
      assert FoundAt(s, 0, src);
    } else {
      var q := Init(p);
      assert WalkFrom(keys, subject, src, q);
      AllTaken(keys, subject, src, s, q);
      assert Key(subject, End(q), End(p)) in keys;
      assert Finds(s, End(p));
      var i :| FoundAt(s, i, End(p));
    }
  }

  lemma WalksStayInVersions(keys: set<Key>, subject: string, src: int, s: Search)
    requires Invariant(keys, subject, src, s)
    ensures s.seen <= Versions(keys, src)
  {
    forall v | v in s.seen ensures v in Versions(keys, src) {
      assert Finds(s, v);
      var i :| FoundAt(s, i, v);
      var p := s.found[i];
      if |p| > 1 { assert Key(subject, p[|p| - 2], p[|p| - 1]) in keys; }
    }
  }

  lemma StartKeeps(keys: set<Key>, subject: string, src: int)
    ensures var s := Search([[src]], 0, {src});
            Invariant(keys, subject, src, s) && Closed(keys, subject, s) && forall k :: FromFront(s, [], k)
  {
    var s := Search([[src]], 0, {src});
    assert FoundAt(s, 0, src);
    forall v ensures v in s.seen <==> Finds(s, v) {}
    forall p | WalkFrom(keys, subject, src, p) && End(p) == src ensures NotAfter([src], p) {
      if |p| == 1 { assert p == [src]; }
    }
  }

  lemma OneMore(s: seq<int>, j: nat)
    requires j < |s|
    ensures s[..j + 1] == s[..j] + [s[j]] && s[j] in s
    ensures Weakly(s) ==> forall w :: w in s[..j] ==> w <= s[j]
  {
  }

  // --- The object -----------------------------------------------------------------

  type Transforms = map<Key, TransformFn>

  /** Payloads between the first edges of a path, each made from the one before it by the
      function registered for the edge between them. */
  ghost predicate Chain(transforms: Transforms, subject: string, edges: seq<(int, int)>, payload: Record, steps: seq<Record>) {
    && 0 < |steps| <= |edges| + 1 && steps[0] == payload
    && forall i :: 0 <= i < |steps| - 1 ==> Leads(transforms, subject, edges[i], steps[i], Some(steps[i + 1]))
  }

  ghost predicate Leads(transforms: Transforms, subject: string, edge: (int, int), before: Record, after: Option<Record>) {
    Key(subject, edge.0, edge.1) in transforms && transforms[Key(subject, edge.0, edge.1)](before) == after
  }

  /** What a coercion answers: no path, a transform that raises, a result the target schema
      refuses, or the result. */
  ghost predicate Outcome(transforms: Transforms, check: bool, valid: (string, int, Record) -> bool, subject: string, to: int, payload: Record,
                          path: Option<seq<(int, int)>>, steps: seq<Record>, r: Result<Record, MapperError>)
  {
    if path.None? then r == Err(NoTransformPath)
    else
      && Chain(transforms, subject, path.value, payload, steps)
      && var last := steps[|steps| - 1];
         if |steps| <= |path.value| then
           r == Err(TransformRaised) && Leads(transforms, subject, path.value[|steps| - 1], last, None)
         else if check && !valid(subject, to, last) then r == Err(OutputInvalid)
         else r == Ok(last)
  }

  lemma {:induction false} ChainsAgree(transforms: Transforms, subject: string, edges: seq<(int, int)>, payload: Record,
                                       a: seq<Record>, b: seq<Record>, i: nat)
    requires Chain(transforms, subject, edges, payload, a) && Chain(transforms, subject, edges, payload, b)
    requires i < |a| && i < |b|
    ensures a[i] == b[i]
  {
    if i > 0 {
      ChainsAgree(transforms, subject, edges, payload, a, b, i - 1);
      assert Leads(transforms, subject, edges[i - 1], a[i - 1], Some(a[i]));
      assert Leads(transforms, subject, edges[i - 1], b[i - 1], Some(b[i]));
    }
  }

  lemma CarriedOnwards(transforms: Transforms, subject: string, edges: seq<(int, int)>, payload: Record, carried: seq<Record>, n: nat)
    requires Chain(transforms, subject, edges, payload, carried) && n < |carried| - 1
    ensures !Leads(transforms, subject, edges[n], carried[n], None)
  {
    assert Leads(transforms, subject, edges[n], carried[n], Some(carried[n + 1]));
  }

  /** The anti-corruption guarantee, both ways: once a payload has been carried along the whole
      path, the answer is the refusal exactly when the target schema refuses what was carried,
      and otherwise is what was carried. */
  lemma RefusedIffCorrupt(transforms: Transforms, check: bool, valid: (string, int, Record) -> bool, subject: string, to: int, payload: Record,
                          edges: seq<(int, int)>, carried: seq<Record>, steps: seq<Record>, r: Result<Record, MapperError>)
    requires Chain(transforms, subject, edges, payload, carried) && |carried| == |edges| + 1
    requires Outcome(transforms, check, valid, subject, to, payload, Some(edges), steps, r)
    ensures var last := carried[|carried| - 1];
            && (r == Err(OutputInvalid) <==> check && !valid(subject, to, last))
            && (r == Ok(last) <==> !check || valid(subject, to, last))
  {
    var n := |steps| - 1;
    ChainsAgree(transforms, subject, edges, payload, carried, steps, n);
    if n < |edges| { CarriedOnwards(transforms, subject, edges, payload, carried, n); }
  }

  lemma NoEdgesToItself(keys: set<Key>, subject: string, v: int)
    ensures PathAnswer(keys, subject, v, v, Some([]))
  {
    forall q | WalkFrom(keys, subject, v, q) && End(q) == v ensures NotAfter([v], q) {
      if |q| == 1 { assert q == [v]; }
    }
    assert IsLeastWalk(keys, subject, v, v, [v]) && EdgesOf([v]) == [];
  }

  class Mapper {
    /** The keys of the dict in insertion order, and the functions behind them. */
    var order: seq<Key>
    var transforms: map<Key, TransformFn>
    const valid: (string, int, Record) -> bool
    const validateOutput: bool

    constructor (valid: (string, int, Record) -> bool, validateOutput: bool)
      ensures Valid() && transforms == map[]
      ensures this.valid == valid && this.validateOutput == validateOutput
    {
      order, transforms := [], map[];
      this.valid, this.validateOutput := valid, validateOutput;
    }

    ghost predicate Valid()
      reads this
    {
      forall k :: k in order <==> k in transforms
    }

    method Register(subject: string, from: int, to: int, fn: TransformFn)
      requires Valid()
      modifies this
      ensures Valid() && transforms == old(transforms)[Key(subject, from, to) := fn]
    {
      var k := Key(subject, from, to);
      if k !in transforms { order := order + [k]; }
      transforms := transforms[k := fn];
    }

    method Adjacency(subject: string) returns (adjacency: map<int, seq<int>>)
      requires Valid()
      ensures forall a :: NeighboursIn(adjacency, a) == Successors(order, subject, a)
    {
      adjacency := map[];
      for i := 0 to |order|
        invariant forall a :: NeighboursIn(adjacency, a) == Successors(order[..i], subject, a)
      {
        var k, before := order[i], adjacency;
        if k.subject == subject {
          adjacency := adjacency[k.from := NeighboursIn(adjacency, k.from) + [k.to]];
        }
        forall a ensures NeighboursIn(adjacency, a) == Successors(order[..i + 1], subject, a) {
          SuccessorsStep(order, subject, a, i);
          assert NeighboursIn(before, a) == Successors(order[..i], subject, a);
        }
      }
      assert order[..|order|] == order;
    }

    /** The loop over the sorted neighbours of the path taken from the queue. */
    method Examine(neighbours: seq<int>, subject: string, ghost src: int, nodePath: seq<int>,
                   queue0: seq<seq<int>>, seen0: set<int>, ghost s0: Search)
      returns (queue: seq<seq<int>>, seen: set<int>, ghost s: Search)
      requires Examining(transforms.Keys, subject, src, s0, s0, []) && s0.found[s0.h] == nodePath
      requires queue0 == s0.found[s0.h + 1..] && seen0 == s0.seen
      requires Weakly(neighbours) && forall v :: v in neighbours ==> Key(subject, End(nodePath), v) in transforms
      ensures Examining(transforms.Keys, subject, src, s0, s, neighbours)
      ensures queue == s.found[s.h + 1..] && seen == s.seen
    {
      ghost var keys := transforms.Keys;
      queue, seen, s := queue0, seen0, s0;
      for j := 0 to |neighbours|
        invariant Examining(keys, subject, src, s0, s, neighbours[..j])
        invariant queue == s.found[s.h + 1..] && seen == s.seen
      {
        var next := neighbours[j];
        OneMore(neighbours, j);
        if next !in seen {
          DiscoverExamines(keys, subject, src, s0, s, neighbours[..j], next);
          QueueGrows(s, next);
          s := Discover(s, next);
          seen := seen + {next};
          queue := queue + [nodePath + [next]];
        } else {
          SkipExamines(keys, subject, src, s0, s, neighbours[..j], next);
        }
      }
      assert neighbours[..|neighbours|] == neighbours;
    }

    /** Terminates on cyclic graphs, finds a path whenever there is one, and finds the least. */
    method FindPath(subject: string, src: int, dst: int) returns (path: Option<seq<(int, int)>>)
      requires Valid()
      ensures PathAnswer(transforms.Keys, subject, src, dst, path)
    {
      var adjacency := Adjacency(subject);
      ghost var keys := transforms.Keys;
      var queue: seq<seq<int>> := [[src]];
      var seen := {src};
      ghost var s := Search([[src]], 0, {src});
      StartKeeps(keys, subject, src);
      while queue != []
        invariant Invariant(keys, subject, src, s) && Closed(keys, subject, s)
        invariant forall k :: FromFront(s, [], k)
        invariant queue == s.found[s.h..] && seen == s.seen
        invariant !Taken(s, dst)
        decreases Versions(keys, src) - seen, |queue|
      {
        var nodePath := queue[0];
        queue := queue[1..];
        var node := End(nodePath);
        if node == dst {
          Finish(keys, subject, src, dst, s);
          return Some(EdgesOf(nodePath));
        }
        var neighbours := Sorted(NeighboursIn(adjacency, node));
        forall v ensures v in neighbours <==> Key(subject, node, v) in keys {
          SuccessorsAreEdges(order, subject, node, v);
        }
        queue, seen, s := Examine(neighbours, subject, src, nodePath, queue, seen, s);
        TakeKeeps(keys, subject, src, s, neighbours);
        WalksStayInVersions(keys, subject, src, s);
        s := s.(h := s.h + 1);
      }
      forall q | WalkFrom(keys, subject, src, q) ensures End(q) != dst {
        AllTaken(keys, subject, src, s, q);
      }
      return None;
    }

    /** Run the registered functions along a path; the first that raises ends it. */
    method Along(subject: string, edges: seq<(int, int)>, payload: Record) returns (r: Option<Record>, ghost steps: seq<Record>)
      requires forall i :: 0 <= i < |edges| ==> Key(subject, edges[i].0, edges[i].1) in transforms
      ensures Chain(transforms, subject, edges, payload, steps)
      ensures if r.Some? then |steps| == |edges| + 1 && r.value == steps[|edges|]
              else |steps| <= |edges| && Leads(transforms, subject, edges[|steps| - 1], steps[|steps| - 1], None)
    {
      var result := payload;
      steps := [payload];
      for i := 0 to |edges|
        invariant Chain(transforms, subject, edges, payload, steps) && |steps| == i + 1 && steps[i] == result
      {
        var stepped := transforms[Key(subject, edges[i].0, edges[i].1)](result);
        if stepped.None? {
          return None, steps;
        }
        assert Leads(transforms, subject, edges[i], result, stepped);
        result := stepped.value;
        steps := steps + [result];
      }
      return Some(result), steps;
    }

    /** The payload carried along the least path by the registered functions, then validated. */
    method Transform(subject: string, from: int, to: int, payload: Record) returns (r: Result<Record, MapperError>)
      requires Valid()
      ensures exists path, steps :: PathAnswer(transforms.Keys, subject, from, to, path)
                                    && Outcome(transforms, validateOutput, valid, subject, to, payload, path, steps, r)
      ensures validateOutput && r.Ok? ==> valid(subject, to, r.value)
    {
      var path: Option<seq<(int, int)>> := Some([]);
      if from != to {
        path := FindPath(subject, from, to);
      } else {
        NoEdgesToItself(transforms.Keys, subject, from);
      }
      ghost var steps := [payload];
      if path.None? {
        r := Err(NoTransformPath);
      } else {
        AnswerIsAShortestPath(transforms.Keys, subject, from, to, path.value, []);
        var carried;
        carried, steps := Along(subject, path.value, payload);
        if carried.None? {
          r := Err(TransformRaised);
        } else if validateOutput && !valid(subject, to, carried.value) {
          r := Err(OutputInvalid);
        } else {
          r := Ok(carried.value);
        }
      }
      assert Outcome(transforms, validateOutput, valid, subject, to, payload, path, steps, r);
    }
  }

  /** Reaching the target at the front of the queue: its path is the least. */
  lemma Finish(keys: set<Key>, subject: string, src: int, dst: int, s: Search)
    requires Invariant(keys, subject, src, s) && s.h < |s.found| && End(s.found[s.h]) == dst
    ensures IsLeastWalk(keys, subject, src, dst, s.found[s.h])
  {
    assert LeastAt(keys, subject, src, s, s.h);
  }
}
