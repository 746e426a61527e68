/**
 The start-order resolver (internal/svcd/graph.go): Kahn's algorithm over the
 `after` lists, with map iteration in any order.
 */
module Graph {
  import opened Common

  /** A service name; the resolver only ever compares names. */
  datatype Name = Name(text: string)

  /** The two fields of a service specification that matter for ordering. */
  datatype Spec = Spec(name: Name, after: seq<Name>)

  /** Services by name, each stored under its own name. */
  type Services = map<Name, Spec>

  ghost predicate Keyed(g: Services) {
    forall n :: n in g ==> g[n].name == n
  }

  // ------------------------------------------------------------- the relation

  /** `n` must start after `d`: both are known and `d` is listed by `n`. */
  ghost predicate DependsOn(g: Services, n: Name, d: Name) {
    n in g && d in g && d in g[n].after
  }

  /** A closed chain of dependencies: each service waits for the next, the last for the first. */
  ghost predicate IsCycle(g: Services, c: seq<Name>) {
    && c != []
    && (forall i :: 0 <= i < |c| - 1 ==> DependsOn(g, c[i], c[i + 1]))
    && DependsOn(g, c[|c| - 1], c[0])
  }

  ghost predicate Acyclic(g: Services) {
    forall c :: !IsCycle(g, c)
  }

  /** A start order: every service exactly once, every known dependency strictly earlier. */
  ghost predicate IsStartOrder(g: Services, ordered: seq<Spec>) {
    && (forall i :: 0 <= i < |ordered| ==> ordered[i].name in g && g[ordered[i].name] == ordered[i])
    && (forall i, j :: 0 <= i < j < |ordered| ==> ordered[i].name != ordered[j].name)
    && (forall n :: n in g ==> exists i :: 0 <= i < |ordered| && ordered[i] == g[n])
    && (forall i, d :: 0 <= i < |ordered| && DependsOn(g, ordered[i].name, d) ==>
          exists j :: 0 <= j < i && ordered[j].name == d)
  }

  // --------------------------------------------------------- counting edges

  function Count(s: seq<Name>, x: Name): nat {
    if s == [] then 0 else Count(s[..|s| - 1], x) + (if s[|s| - 1] == x then 1 else 0)
  }

  lemma CountSnoc(s: seq<Name>, y: Name, x: Name)
    ensures Count(s + [y], x) == Count(s, x) + (if y == x then 1 else 0)
  {
  }

  /** How many entries of an `after` list name a known service outside `done`. */
  function Pending(after: seq<Name>, known: set<Name>, done: set<Name>): nat {
    if after == [] then 0
    else
      var d := after[|after| - 1];
      Pending(after[..|after| - 1], known, done) + (if d in known && d !in done then 1 else 0)
  }

  lemma {:induction false} PendingDone(after: seq<Name>, known: set<Name>, done: set<Name>, x: Name)
    requires x in known && x !in done
    ensures Pending(after, known, done) == Pending(after, known, done + {x}) + Count(after, x)
  {
    if after != [] {
      PendingDone(after[..|after| - 1], known, done, x);
    }
  }

  lemma {:induction false} PendingZero(after: seq<Name>, known: set<Name>, done: set<Name>)
    ensures Pending(after, known, done) == 0 <==> forall d :: d in after && d in known ==> d in done
  {
    if after != [] {
      var n := |after| - 1;
      assert after == after[..n] + [after[n]];
      PendingZero(after[..n], known, done);
    }
  }

  // -------------------------------------------------- order excludes cycles

  lemma {:induction false} ChainDescends(g: Services, ordered: seq<Spec>, c: seq<Name>, k: nat, at: nat) returns (pos: nat)
    requires IsStartOrder(g, ordered) && c != [] && k < |c|
    requires forall i :: 0 <= i < |c| - 1 ==> DependsOn(g, c[i], c[i + 1])
    requires at < |ordered| && ordered[at].name == c[0]
    ensures pos < |ordered| && ordered[pos].name == c[k] && pos <= at
    ensures k > 0 ==> pos < at
    decreases k
  {
    if k == 0 {
      pos := at;
    } else {
      var p := ChainDescends(g, ordered, c, k - 1, at);
      assert DependsOn(g, c[k - 1], c[k]);
      pos :| 0 <= pos < p && ordered[pos].name == c[k];
    }
  }

  /** A start order exists only for an acyclic relation. */
  lemma OrderIsAcyclic(g: Services, ordered: seq<Spec>)
    requires Keyed(g) && IsStartOrder(g, ordered)
    ensures Acyclic(g)
  {
    forall c | IsCycle(g, c)
      ensures false
    {
      assert c[0] in g by { if |c| > 1 { assert DependsOn(g, c[0], c[1]); } }
      var at :| 0 <= at < |ordered| && ordered[at] == g[c[0]];
      var pos := ChainDescends(g, ordered, c, |c| - 1, at);
    }
  }

  // --------------------------------------- blocked services contain a cycle

  /** Every service of a set waits for another one of the set, the one `next` gives. */
  ghost predicate Blocked(g: Services, r: set<Name>, next: map<Name, Name>) {
    forall n {:trigger next[n]} {:trigger n in next} :: n in r ==> n in next && next[n] in r && DependsOn(g, n, next[n])
  }

  ghost predicate IsChain(g: Services, c: seq<Name>) {
    forall i :: 0 <= i < |c| - 1 ==> DependsOn(g, c[i], c[i + 1])
  }

  lemma {:induction false} DistinctFits(c: seq<Name>, r: set<Name>)
    requires Distinct(c)
    requires forall i :: 0 <= i < |c| ==> c[i] in r
    ensures |c| <= |r|
    decreases |c|
  {
    if c != [] {
      var n := |c| - 1;
      DistinctFits(c[..n], r - {c[n]});
    }
  }

  ghost predicate Distinct(c: seq<Name>) {
    forall i, j :: 0 <= i < j < |c| ==> c[i] != c[j]
  }

  /** A chain whose last service waits for its i-th one closes a cycle. */
  lemma ChainCloses(g: Services, c: seq<Name>, i: nat)
    requires IsChain(g, c) && i < |c| && DependsOn(g, c[|c| - 1], c[i])
    ensures IsCycle(g, c[i..])
  {
  }

  lemma ChainGrows(g: Services, r: set<Name>, c: seq<Name>, d: Name)
    requires IsChain(g, c) && Distinct(c) && c != [] && (forall i :: 0 <= i < |c| ==> c[i] in r)
    requires d in r && d !in c && DependsOn(g, c[|c| - 1], d)
    ensures IsChain(g, c + [d]) && Distinct(c + [d]) && (forall i :: 0 <= i < |c + [d]| ==> (c + [d])[i] in r)
    ensures |c| < |r|
  {
    DistinctFits(c + [d], r);
  }

  /** Following dependencies inside a blocked set must come back to a service already met. */
  lemma {:induction false} BlockedHasCycle(g: Services, r: set<Name>, next: map<Name, Name>, c: seq<Name>)
    returns (cycle: seq<Name>)
    requires Blocked(g, r, next) && c != [] && IsChain(g, c) && Distinct(c)
    requires forall i :: 0 <= i < |c| ==> c[i] in r
    ensures IsCycle(g, cycle)
    decreases |r| - |c|
  {
    var last := c[|c| - 1];
    assert last in next;
    var d := next[last];
    if d in c {
      var i :| 0 <= i < |c| && c[i] == d;
      ChainCloses(g, c, i);
      cycle := c[i..];
    } else {
      ChainGrows(g, r, c, d);
      cycle := BlockedHasCycle(g, r, next, c + [d]);
    }
  }

  // ------------------------------------------------------------ the program

  function GraphOf(specs: seq<Spec>): Services {
    if specs == [] then map[]
    else
      var last := specs[|specs| - 1];
      GraphOf(specs[..|specs| - 1])[last.name := last]
  }

  /** No later specification has the same name. */
  ghost predicate IsLast(specs: seq<Spec>, i: int) {
    0 <= i < |specs| && forall j :: i < j < |specs| ==> specs[j].name != specs[i].name
  }

  lemma {:induction false} GraphKeyed(specs: seq<Spec>)
    ensures Keyed(GraphOf(specs))
  {
    if specs != [] {
      GraphKeyed(specs[..|specs| - 1]);
    }
  }

  /** Every specification's name is in the graph, with the last specification of that name. */
  lemma {:induction false} GraphHolds(specs: seq<Spec>, i: nat)
    requires i < |specs|
    ensures specs[i].name in GraphOf(specs)
    ensures IsLast(specs, i) ==> GraphOf(specs)[specs[i].name] == specs[i]
    decreases |specs|
  {
    var n := |specs| - 1;
    if i < n {
      GraphHolds(specs[..n], i);
      if IsLast(specs, i) {
        assert specs[n].name != specs[i].name;
        assert IsLast(specs[..n], i);
      }
    }
  }

  /** And every name in the graph is some specification's. */
  lemma {:induction false} GraphFrom(specs: seq<Spec>, x: Name) returns (i: nat)
    requires x in GraphOf(specs)
    ensures i < |specs| && specs[i].name == x
    decreases |specs|
  {
    i := |specs| - 1;
    if specs[i].name != x {
      i := GraphFrom(specs[..i], x);
    }
  }

  /** NewDependencyGraph: later specifications replace earlier ones of the same name. */
  method NewDependencyGraph(specs: seq<Spec>) returns (g: Services)
    ensures Keyed(g)
    ensures forall n :: n in g ==> exists i :: 0 <= i < |specs| && specs[i].name == n
    ensures forall i :: 0 <= i < |specs| ==> specs[i].name in g
    ensures forall i :: IsLast(specs, i) ==> specs[i].name in g && g[specs[i].name] == specs[i]
  {
    g := map[];
    for k := 0 to |specs|
      invariant g == GraphOf(specs[..k])
    {
      assert specs[..k + 1][..k] == specs[..k];
      g := g[specs[k].name := specs[k]];
    }
    assert specs[..|specs|] == specs;
    GraphKeyed(specs);
    forall n | n in g
      ensures exists i :: 0 <= i < |specs| && specs[i].name == n
    {
      var i := GraphFrom(specs, n);
    }
    forall i | 0 <= i < |specs|
      ensures specs[i].name in g && (IsLast(specs, i) ==> g[specs[i].name] == specs[i])
    {
      GraphHolds(specs, i);
    }
  }

  /** The in-degrees agree with `read`, the part of each `after` list seen so far. */
  ghost predicate DegreesAgree(g: Services, inDegree: map<Name, int>, read: map<Name, seq<Name>>) {
    forall n :: n in g ==> n in inDegree && n in read && inDegree[n] == Pending(read[n], g.Keys, {})
  }

  /** The adjacency lists hold each dependent as often as `read` lists the dependency. */
  ghost predicate EdgesAgree(g: Services, adj: map<Name, seq<Name>>, read: map<Name, seq<Name>>) {
    && (forall d :: d in g ==> d in adj && d in read)
    && (forall d, n {:trigger Count(adj[d], n)} {:trigger Count(read[n], d)} ::
          d in g && n in g ==> Count(adj[d], n) == Count(read[n], d))
    && (forall d, i {:trigger adj[d][i]} :: d in g && 0 <= i < |adj[d]| ==> adj[d][i] in g)
  }

  lemma DegreeStep(g: Services, inDegree: map<Name, int>, read: map<Name, seq<Name>>, name: Name, dep: Name)
    requires name in g && DegreesAgree(g, inDegree, read)
    ensures DegreesAgree(g, if dep in g then inDegree[name := inDegree[name] + 1] else inDegree,
                         read[name := read[name] + [dep]])
  {
  }

  lemma EdgeStep(g: Services, adj: map<Name, seq<Name>>, read: map<Name, seq<Name>>, name: Name, dep: Name)
    requires name in g && EdgesAgree(g, adj, read)
    ensures EdgesAgree(g, if dep in g then adj[dep := adj[dep] + [name]] else adj, read[name := read[name] + [dep]])
  {
  }

  /** The inner counting loop: all of one service's `after` list. */
  method CountAfter(g: Services, name: Name, inDegree0: map<Name, int>, adj0: map<Name, seq<Name>>,
                    ghost read: map<Name, seq<Name>>)
    returns (inDegree: map<Name, int>, adj: map<Name, seq<Name>>)
    requires name in g && DegreesAgree(g, inDegree0, read) && EdgesAgree(g, adj0, read) && read[name] == []
    ensures DegreesAgree(g, inDegree, read[name := g[name].after]) && EdgesAgree(g, adj, read[name := g[name].after])
  {
    inDegree, adj := inDegree0, adj0;
    var after := g[name].after;
    ghost var now := read;
    assert read == read[name := after[..0]];
    var i := 0;
    while i < |after|
      invariant 0 <= i <= |after|
      invariant now == read[name := after[..i]]
      invariant DegreesAgree(g, inDegree, now)
      invariant EdgesAgree(g, adj, now)
    {
      var dep := after[i];
      DegreeStep(g, inDegree, now, name, dep);
      EdgeStep(g, adj, now, name, dep);
      if dep in g {
        adj := adj[dep := adj[dep] + [name]];
        inDegree := inDegree[name := inDegree[name] + 1];
      }
      assert after[..i + 1] == after[..i] + [dep];
      now := now[name := now[name] + [dep]];
      i := i + 1;
    }
    assert after[..i] == after;
  }

  /** The `after` lists of the services outside `todo`. */
  ghost function ReadOutside(g: Services, todo: set<Name>): (m: map<Name, seq<Name>>)
    ensures m.Keys == g.Keys && forall n :: n in g ==> m[n] == if n in todo then [] else g[n].after
  {
    map n | n in g :: if n in todo then [] else g[n].after
  }

  ghost function AfterLists(g: Services): (m: map<Name, seq<Name>>)
    ensures m.Keys == g.Keys && forall n :: n in g ==> m[n] == g[n].after
  {
    ReadOutside(g, {})
  }

  lemma ReadOne(g: Services, todo: set<Name>, name: Name)
    requires name in todo && name in g
    ensures ReadOutside(g, todo)[name := g[name].after] == ReadOutside(g, todo - {name})
  {
  }

  lemma NothingRead(g: Services, inDegree: map<Name, int>, adj: map<Name, seq<Name>>)
    requires inDegree == map n | n in g :: 0
    requires adj == map n | n in g :: []
    ensures DegreesAgree(g, inDegree, ReadOutside(g, g.Keys)) && EdgesAgree(g, adj, ReadOutside(g, g.Keys))
  {
  }

  /** The two counting loops of ResolveTopologicalSort. */
  method CountEdges(g: Services) returns (inDegree: map<Name, int>, adj: map<Name, seq<Name>>)
    ensures DegreesAgree(g, inDegree, AfterLists(g))
    ensures EdgesAgree(g, adj, AfterLists(g))
  {
    inDegree := map n | n in g :: 0;
    adj := map n | n in g :: [];
    NothingRead(g, inDegree, adj);
    var todo := g.Keys;
    while todo != {}
      invariant todo <= g.Keys
      invariant DegreesAgree(g, inDegree, ReadOutside(g, todo))
      invariant EdgesAgree(g, adj, ReadOutside(g, todo))
      decreases todo
    {
      var name :| name in todo;
      inDegree, adj := CountAfter(g, name, inDegree, adj, ReadOutside(g, todo));
      ReadOne(g, todo, name);
      todo := todo - {name};
    }
  }

  // -------------------------------------------------------- Kahn's algorithm

  /** The in-degrees count the dependencies outside `done`; the queue holds the services that have none left. */
  ghost predicate Ready(g: Services, done: set<Name>, inDegree: map<Name, int>, queue: seq<Name>) {
    && (forall n :: n in g ==> n in inDegree && inDegree[n] == Pending(g[n].after, g.Keys, done))
    && Distinct(queue)
    && (forall n :: n in queue <==> n in g && n !in done && inDegree[n] == 0)
  }

  /** Midway through the dependents of `curr`: `seen` of them have been decremented. */
  ghost predicate Releasing(g: Services, done: set<Name>, inDegree: map<Name, int>, queue: seq<Name>,
                            dependents: seq<Name>, seen: nat)
    requires seen <= |dependents|
  {
    && (forall n :: n in g ==>
          && n in inDegree
          && inDegree[n] == Pending(g[n].after, g.Keys, done) + Count(dependents, n) - Count(dependents[..seen], n))
    && Distinct(queue)
    && (forall n :: n in queue <==> n in g && n !in done && inDegree[n] == 0)
  }

  lemma {:induction false} CountPrefix(s: seq<Name>, k: nat, x: Name)
    requires k <= |s|
    ensures Count(s[..k], x) <= Count(s, x)
    ensures k < |s| && s[k] == x ==> Count(s[..k], x) < Count(s, x)
    decreases |s|
  {
    var n := |s| - 1;
    if k < n {
      assert s[..n][..k] == s[..k];
      CountPrefix(s[..n], k, x);
    } else if k == |s| {
      assert s[..k] == s;
    }
  }

  lemma ReleaseStart(g: Services, done: set<Name>, inDegree: map<Name, int>, queue: seq<Name>, adj: map<Name, seq<Name>>,
                     read: map<Name, seq<Name>>)
    requires read == AfterLists(g)
    requires queue != [] && Ready(g, done, inDegree, queue) && EdgesAgree(g, adj, read)
    ensures var curr := queue[0];
      && curr in g && curr !in done
      && Releasing(g, done + {curr}, inDegree, queue[1..], adj[curr], 0)
  {
    var curr := queue[0];
    assert curr in queue;
    forall n | n in g
      ensures Pending(g[n].after, g.Keys, done) == Pending(g[n].after, g.Keys, done + {curr}) + Count(adj[curr], n)
    {
      PendingDone(g[n].after, g.Keys, done, curr);
      assert Count(adj[curr], n) == Count(read[n], curr);
    }
    assert adj[curr][..0] == [];
    forall n
      ensures n in queue[1..] <==> n in queue && n != curr
    {
      assert queue == [curr] + queue[1..];
    }
  }

  lemma ReleaseStep(g: Services, done: set<Name>, inDegree: map<Name, int>, queue: seq<Name>, dependents: seq<Name>, i: nat)
    requires i < |dependents| && dependents[i] in g
    requires Releasing(g, done, inDegree, queue, dependents, i)
    requires forall n :: n in done && n in g ==> inDegree[n] == 0
    ensures var n := dependents[i];
      && n !in done && inDegree[n] > 0
      && Releasing(g, done, inDegree[n := inDegree[n] - 1],
                   if inDegree[n] == 1 then queue + [n] else queue, dependents, i + 1)
  {
    var m := dependents[i];
    CountPrefix(dependents, i, m);
    assert dependents[..i + 1] == dependents[..i] + [m];
    forall n | n in g
      ensures Count(dependents[..i + 1], n) == Count(dependents[..i], n) + (if n == m then 1 else 0)
    {
      CountSnoc(dependents[..i], m, n);
    }
  }

  /** The inner loop of Kahn's algorithm: every dependent of `curr` loses one dependency. */
  method Release(g: Services, ghost done: set<Name>, inDegree0: map<Name, int>, queue0: seq<Name>, dependents: seq<Name>)
    returns (inDegree: map<Name, int>, queue: seq<Name>)
    requires Releasing(g, done, inDegree0, queue0, dependents, 0)
    requires forall i :: 0 <= i < |dependents| ==> dependents[i] in g
    requires forall n :: n in done && n in g ==> inDegree0[n] == 0
    ensures Ready(g, done, inDegree, queue)
    ensures forall n :: n in done && n in g ==> inDegree[n] == 0
  {
    inDegree, queue := inDegree0, queue0;
    var i := 0;
    while i < |dependents|
      invariant 0 <= i <= |dependents|
      invariant Releasing(g, done, inDegree, queue, dependents, i)
      invariant forall n :: n in done && n in g ==> inDegree[n] == 0
    {
      ReleaseStep(g, done, inDegree, queue, dependents, i);
      var neighbor := dependents[i];
      inDegree := inDegree[neighbor := inDegree[neighbor] - 1];
      if inDegree[neighbor] == 0 {
        queue := queue + [neighbor];
      }
      i := i + 1;
    }
    assert dependents[..i] == dependents;
  }

  /** What has been ordered so far is a start order of the services in `done`. */
  ghost predicate OrderedSoFar(g: Services, ordered: seq<Spec>, done: set<Name>) {
    && done <= g.Keys && |ordered| == |done|
    && (forall i :: 0 <= i < |ordered| ==> ordered[i].name in done && g[ordered[i].name] == ordered[i])
    && (forall i, j :: 0 <= i < j < |ordered| ==> ordered[i].name != ordered[j].name)
    && (forall n :: n in done ==> Placed(g, ordered, n, |ordered|))
    && (forall i, d :: 0 <= i < |ordered| && DependsOn(g, ordered[i].name, d) ==> Placed(g, ordered, d, i))
  }

  /** Service `n` stands among the first `k` of the order. */
  ghost predicate Placed(g: Services, ordered: seq<Spec>, n: Name, k: int)
    requires k <= |ordered|
  {
    n in g && exists j :: 0 <= j < k && ordered[j] == g[n]
  }

  lemma PlacedLater(g: Services, ordered: seq<Spec>, n: Name, k: nat, s: Spec)
    requires k <= |ordered| && Placed(g, ordered, n, k)
    ensures Placed(g, ordered + [s], n, k)
  {
    var j :| 0 <= j < k && ordered[j] == g[n];
    assert (ordered + [s])[j] == g[n];
  }

  lemma DependenciesPlaced(g: Services, ordered: seq<Spec>, done: set<Name>, curr: Name, i: nat, d: Name)
    requires OrderedSoFar(g, ordered, done) && i <= |ordered|
    requires curr in g && Pending(g[curr].after, g.Keys, done) == 0
    requires DependsOn(g, if i < |ordered| then ordered[i].name else curr, d)
    ensures Placed(g, ordered + [g[curr]], d, i)
  {
    if i == |ordered| {
      PendingZero(g[curr].after, g.Keys, done);
    }
    PlacedLater(g, ordered, d, i, g[curr]);
  }

  lemma OrderedStep(g: Services, ordered: seq<Spec>, done: set<Name>, curr: Name)
    requires Keyed(g) && OrderedSoFar(g, ordered, done)
    requires curr in g && curr !in done && Pending(g[curr].after, g.Keys, done) == 0
    ensures OrderedSoFar(g, ordered + [g[curr]], done + {curr})
  {
    var longer := ordered + [g[curr]];
    assert longer[|ordered|] == g[curr];
    forall n | n in done + {curr}
      ensures Placed(g, longer, n, |longer|)
    {
      if n in done {
        PlacedLater(g, ordered, n, |ordered|, g[curr]);
      }
    }
    forall i, d | 0 <= i < |longer| && DependsOn(g, longer[i].name, d)
      ensures Placed(g, longer, d, i)
    {
      DependenciesPlaced(g, ordered, done, curr, i, d);
    }
  }

  lemma OrderedAll(g: Services, ordered: seq<Spec>, done: set<Name>)
    requires Keyed(g) && OrderedSoFar(g, ordered, done) && |ordered| == |g|
    ensures IsStartOrder(g, ordered)
  {
    SubsetFull(done, g.Keys);
    forall i, d | 0 <= i < |ordered| && DependsOn(g, ordered[i].name, d)
      ensures exists j :: 0 <= j < i && ordered[j].name == d
    {
      assert Placed(g, ordered, d, i);
      var j :| 0 <= j < i && ordered[j] == g[d];
      assert ordered[j].name == d;
    }
    forall n | n in g
      ensures exists i :: 0 <= i < |ordered| && ordered[i] == g[n]
    {
      assert Placed(g, ordered, n, |ordered|);
    }
  }

  lemma SubsetFull(a: set<Name>, b: set<Name>)
    requires a <= b && |a| == |b|
    ensures a == b
  {
    if a != b {
      var x :| x in b && x !in a;
      SubsetSize(a, b - {x});
    }
  }

  /** With the queue empty and services left over, those services are blocked, so there is a cycle. */
  lemma LeftoversHaveCycle(g: Services, done: set<Name>, inDegree: map<Name, int>) returns (cycle: seq<Name>)
    requires Ready(g, done, inDegree, []) && done <= g.Keys && done != g.Keys
    requires forall n :: n in g ==> inDegree[n] >= 0
    ensures IsCycle(g, cycle)
  {
    var r := g.Keys - done;
    assert forall n :: n in r ==> n !in [] && Pending(g[n].after, g.Keys, done) != 0;
    var next := map n | n in r :: PickDependency(g, done, n);
    assert Blocked(g, r, next);
    var start :| start in g.Keys && start !in done;
    cycle := BlockedHasCycle(g, r, next, [start]);
  }

  ghost function PickDependency(g: Services, done: set<Name>, n: Name): (d: Name)
    requires n in g && Pending(g[n].after, g.Keys, done) != 0
    ensures d in g.Keys - done && DependsOn(g, n, d)
  {
    PendingZero(g[n].after, g.Keys, done);
    var d :| d in g[n].after && d in g.Keys && d !in done;
    d
  }

  datatype Resolution = Ordered(specs: seq<Spec>) | CyclicDependency(resolved: nat, total: nat)

  /** The queue's first fill: all services with in-degree zero, in any order. */
  method Roots(g: Services, inDegree: map<Name, int>) returns (queue: seq<Name>)
    requires forall n :: n in g ==> n in inDegree
    ensures Distinct(queue)
    ensures forall n :: n in queue <==> n in g && inDegree[n] == 0
  {
    queue := [];
    var todo := g.Keys;
    while todo != {}
      invariant todo <= g.Keys && Distinct(queue)
      invariant forall n :: n in queue <==> n in g && n !in todo && inDegree[n] == 0
      decreases todo
    {
      var name :| name in todo;
      todo := todo - {name};
      if inDegree[name] == 0 {
        queue := queue + [name];
      }
    }
  }

  /**
   ResolveTopologicalSort: it succeeds exactly on acyclic relations, with a
   start order of all services; otherwise a real cycle exists.
   */
  method ResolveTopologicalSort(g: Services) returns (r: Resolution)
    requires Keyed(g)
    ensures r.Ordered? <==> Acyclic(g)
    ensures r.Ordered? ==> IsStartOrder(g, r.specs)
    ensures r.CyclicDependency? ==> (exists c :: IsCycle(g, c)) && r.resolved < r.total == |g|
  {
    var inDegree, adj := CountEdges(g);
    var queue := Roots(g, inDegree);
    ghost var done;
    var ordered;
    ordered, done := Drain(g, inDegree, adj, queue);
    if |ordered| != |g| {
      SubsetSize(done, g.Keys);
      return CyclicDependency(|ordered|, |g|);
    }
    OrderedAll(g, ordered, done);
    OrderIsAcyclic(g, ordered);
    return Ordered(ordered);
  }

  /** The queue loop: what it leaves out is blocked by a cycle. */
  method Drain(g: Services, inDegree0: map<Name, int>, adj: map<Name, seq<Name>>, queue0: seq<Name>)
    returns (ordered: seq<Spec>, ghost done: set<Name>)
    requires Keyed(g) && Ready(g, {}, inDegree0, queue0)
    requires EdgesAgree(g, adj, AfterLists(g))
    ensures OrderedSoFar(g, ordered, done)
    ensures done != g.Keys ==> exists c :: IsCycle(g, c)
  {
    var inDegree, queue := inDegree0, queue0;
    ghost var read := AfterLists(g);
    ordered := [];
    done := {};
    while queue != []
      invariant Ready(g, done, inDegree, queue)
      invariant OrderedSoFar(g, ordered, done)
      invariant forall n :: n in done && n in g ==> inDegree[n] == 0
      decreases g.Keys - done
    {
      var curr := queue[0];
      ReleaseStart(g, done, inDegree, queue, adj, read);
      assert curr in queue;
      OrderedStep(g, ordered, done, curr);
      ordered := ordered + [g[curr]];
      done := done + {curr};
      inDegree, queue := Release(g, done, inDegree, queue[1..], adj[curr]);
    }
    if done != g.Keys {
      ghost var cycle := LeftoversHaveCycle(g, done, inDegree);
    }
  }
}
