/**
 Root linking (internal/stored/stored.go): the lower tree is exposed under the
 running root by symbolic links and fresh directories, standing in for an
 overlay mount. Both trees are maps from component paths; the lower tree holds
 directories and files, the root holds directories, other nodes, and the links
 this code creates. Every filesystem call is taken to succeed.
 */
module Linking {
  import opened Common

  datatype LowerNode = LDir | LFile(id: int)

  /** `Other` is any pre-existing non-directory; `Link(p)` points at path `p` of the lower tree. */
  datatype RootNode = Dir | Other(id: int) | Link(target: Path)

  type Lower = map<Path, LowerNode>
  type Root = map<Path, RootNode>

  ghost predicate LowerOk(lower: Lower) {
    && [] in lower && lower[[]] == LDir
    && forall p, k :: p in lower && 0 <= k < |p| ==> p[..k] in lower && lower[p[..k]] == LDir
  }

  ghost predicate RootOk(root: Root) {
    && [] in root && root[[]] == Dir
    && forall p, k :: p in root && 0 <= k < |p| ==> p[..k] in root && root[p[..k]] == Dir
  }

  predicate Skipped(name: string) {
    name == "proc" || name == "sys" || name == "dev" || name == "mnt" || name == "run"
  }

  // ---------------------------------------------------- what a user sees

  /** What resolving a path shows, links followed. */
  datatype Seen = Nothing | Directory | RootObject(id: int) | LowerFile(id: int)

  function LowerSeen(lower: Lower, p: Path): Seen {
    if p !in lower then Nothing
    else match lower[p] case LDir => Directory case LFile(id) => LowerFile(id)
  }

  /** The shortest prefix of `p` that is a link in `root`, if any, continues in the lower tree. */
  function Resolve(root: Root, lower: Lower, p: Path, k: nat): Seen
    requires k <= |p|
    decreases |p| - k
  {
    var q := p[..k];
    if q !in root then Nothing
    else
      match root[q]
      case Link(target) => LowerSeen(lower, target + p[k..])
      case Other(id) => if k == |p| then RootObject(id) else Nothing
      case Dir => if k == |p| then Directory else Resolve(root, lower, p, k + 1)
  }

  function View(root: Root, lower: Lower, p: Path): Seen {
    Resolve(root, lower, p, 0)
  }

  /** The root holds a non-directory at a proper prefix of `p`. */
  ghost predicate Shadowed(root: Root, p: Path) {
    exists k :: 0 <= k < |p| && p[..k] in root && root[p[..k]] != Dir
  }

  /** The overlay union: the root's own node, nothing below its non-directories, else the lower tree's node. */
  ghost function Union(root: Root, lower: Lower, p: Path): Seen {
    if p in root then View(root, lower, p)
    else if Shadowed(root, p) then View(root, lower, p)
    else LowerSeen(lower, p)
  }

  // -------------------------------------------------- the result in closed form

  /** Some prefix of `p` of length at least `from` and below |p| is a non-directory of the root. */
  ghost predicate Blocked(root: Root, p: Path, from: nat) {
    exists k :: from <= k < |p| && p[..k] in root && root[p[..k]] != Dir
  }

  /** Linking the contents of directory `d` gives the root a node at `p`. */
  ghost predicate AddsBelow(root: Root, lower: Lower, d: Path, p: Path) {
    d < p && p in lower && p !in root && !Blocked(root, p, |d|)
  }

  /** Below an existing directory: real directories, and a link for every file. */
  function NodeBelow(lower: Lower, p: Path): RootNode
    requires p in lower
  {
    if lower[p] == LDir then Dir else Link(p)
  }

  /** linkDirectoryContents of `d`, restricted to the children of `d` in `done`. */
  ghost function LinkedIn(root: Root, lower: Lower, d: Path, done: set<Path>): Root {
    map p | p in root.Keys + lower.Keys && (p in root || (AddsBelow(root, lower, d, p) && p[..|d| + 1] in done)) ::
      if p in root then root[p] else NodeBelow(lower, p)
  }

  ghost function LinkedBelow(root: Root, lower: Lower, d: Path): Root {
    map p | p in root.Keys + lower.Keys && (p in root || AddsBelow(root, lower, d, p)) ::
      if p in root then root[p] else NodeBelow(lower, p)
  }

  /** LinkLowerDirToRoot gives the root a node at `p`. */
  ghost predicate Adds(root: Root, lower: Lower, p: Path) {
    && p != [] && p in lower && p !in root && !Skipped(p[0])
    && (|p| == 1 || (p[..1] in root && !Blocked(root, p, 1)))
  }

  /** A missing top-level entry becomes one link, even when it is a directory. */
  function NodeFor(lower: Lower, p: Path): RootNode
    requires p in lower
  {
    if |p| == 1 then Link(p) else NodeBelow(lower, p)
  }

  ghost function Linked(root: Root, lower: Lower): Root {
    map p | p in root.Keys + lower.Keys && (p in root || Adds(root, lower, p)) ::
      if p in root then root[p] else NodeFor(lower, p)
  }

  /** LinkLowerDirToRoot, restricted to the top-level entries in `done`. */
  ghost function LinkedTop(root: Root, lower: Lower, done: set<Path>): Root {
    map p | p in root.Keys + lower.Keys && (p in root || (Adds(root, lower, p) && p[..1] in done)) ::
      if p in root then root[p] else NodeFor(lower, p)
  }

  // ------------------------------------------------------------ the program

  function Children(lower: Lower, d: Path): set<Path> {
    set q | q in lower && |q| == |d| + 1 && d < q :: q
  }

  function Subtree(lower: Lower, d: Path): set<Path> {
    set p | p in lower && d <= p :: p
  }

  lemma SubtreeShrinks(lower: Lower, d: Path, c: Path)
    requires d in lower && d < c
    ensures Subtree(lower, c) < Subtree(lower, d)
  {
    assert d in Subtree(lower, d) && d !in Subtree(lower, c);
  }

  /** The root tree, changed in place. */
  class RootTree {
    var nodes: Root

    constructor (initial: Root)
      ensures nodes == initial
    {
      nodes := initial;
    }

    /** linkDirectoryContents for the directory both trees have at `d`. */
    method LinkDirectoryContents(lower: Lower, d: Path)
      requires LowerOk(lower) && d in lower && d in nodes && nodes[d] == Dir
      modifies this
      ensures nodes == LinkedBelow(old(nodes), lower, d)
      decreases Subtree(lower, d)
    {
      var children := Children(lower, d);
      var rest := children;
      NoneDone(nodes, lower, d);
      while rest != {}
        invariant rest <= children
        invariant nodes == LinkedIn(old(nodes), lower, d, children - rest)
        decreases rest
      {
        var c :| c in rest;
        ghost var before := nodes;
        ghost var done := children - rest;
        SubtreeShrinks(lower, d, c);
        if c !in nodes {
          if lower[c] == LDir {
            nodes := nodes[c := Dir];
            LinkDirectoryContents(lower, c);
            NewDirectory(old(nodes), lower, d, done, c);
          } else {
            nodes := nodes[c := Link(c)];
            NewLink(old(nodes), lower, d, done, c);
          }
        } else if nodes[c] == Dir && lower[c] == LDir {
          LinkDirectoryContents(lower, c);
          OldDirectory(old(nodes), lower, d, done, c);
        } else {
          NothingToDo(old(nodes), lower, d, done, c);
        }
        rest := rest - {c};
        assert children - rest == done + {c};
      }
      assert children - rest == children;
      AllDone(old(nodes), lower, d);
    }

    /** LinkLowerDirToRoot: the top level, with its skipped names. */
    method LinkLowerDirToRoot(lower: Lower)
      requires LowerOk(lower)
      modifies this
      ensures nodes == Linked(old(nodes), lower)
    {
      var children := Children(lower, []);
      var rest := children;
      assert LinkedTop(nodes, lower, {}) == nodes;
      while rest != {}
        invariant rest <= children
        invariant nodes == LinkedTop(old(nodes), lower, children - rest)
        decreases rest
      {
        var c :| c in rest;
        ghost var done := children - rest;
        if Skipped(c[0]) {
          TopNothing(old(nodes), lower, done, c);
        } else if c !in nodes {
          nodes := nodes[c := Link(c)];
          TopLink(old(nodes), lower, done, c);
        } else if nodes[c] == Dir && lower[c] == LDir {
          LinkDirectoryContents(lower, c);
          TopDirectory(old(nodes), lower, done, c);
        } else {
          TopNothing(old(nodes), lower, done, c);
        }
        rest := rest - {c};
        assert children - rest == done + {c};
      }
      assert children - rest == children;
      TopDone(old(nodes), lower);
    }
  }

  lemma NoneDone(root: Root, lower: Lower, d: Path)
    ensures LinkedIn(root, lower, d, {}) == root
  {
  }

  lemma AllDone(root: Root, lower: Lower, d: Path)
    requires LowerOk(lower)
    ensures LinkedIn(root, lower, d, Children(lower, d)) == LinkedBelow(root, lower, d)
  {
    forall p | AddsBelow(root, lower, d, p)
      ensures p[..|d| + 1] in Children(lower, d)
    {
      ChildOf(lower, d, p);
    }
  }

  lemma ChildOf(lower: Lower, d: Path, p: Path)
    requires LowerOk(lower) && p in lower && d < p
    ensures p[..|d| + 1] in Children(lower, d)
  {
    var c := p[..|d| + 1];
    if |p| == |d| + 1 {
      assert c == p;
    }
    assert d < c;
  }

  /** The child of `d` on the way to `p`. */
  lemma SameChild(d: Path, c: Path, p: Path)
    requires d < c && |c| == |d| + 1 && d < p
    ensures p[..|d| + 1] == c <==> c <= p
  {
  }

  /** Nothing lies below a file. */
  lemma LeafAlone(lower: Lower, c: Path, p: Path)
    requires LowerOk(lower) && p in lower && c <= p && c in lower && lower[c] != LDir
    ensures p == c
  {
    assert p[..|c|] == c;
  }

  lemma NewLink(root: Root, lower: Lower, d: Path, done: set<Path>, c: Path)
    requires LowerOk(lower) && d in root && root[d] == Dir && c in Children(lower, d) && c !in done
    requires c !in LinkedIn(root, lower, d, done) && lower[c] != LDir
    ensures LinkedIn(root, lower, d, done)[c := Link(c)] == LinkedIn(root, lower, d, done + {c})
  {
    assert c[..|d| + 1] == c && c[..|d|] == d;
    forall p | AddsBelow(root, lower, d, p) && p[..|d| + 1] == c
      ensures p == c
    {
      LeafAlone(lower, c, p);
    }
    assert AddsBelow(root, lower, d, c);
  }

  lemma NothingToDo(root: Root, lower: Lower, d: Path, done: set<Path>, c: Path)
    requires LowerOk(lower) && c in Children(lower, d) && c !in done
    requires c in LinkedIn(root, lower, d, done)
    requires LinkedIn(root, lower, d, done)[c] != Dir || lower[c] != LDir
    ensures LinkedIn(root, lower, d, done) == LinkedIn(root, lower, d, done + {c})
  {
    assert c[..|d| + 1] == c;
    assert c in root;
    forall p | p in lower && d < p && p[..|d| + 1] == c
      ensures !AddsBelow(root, lower, d, p)
    {
      assert p[..|c|] == c;
      if lower[c] != LDir {
        LeafAlone(lower, c, p);
      } else if p != c {
        assert |d| <= |c| < |p| && p[..|c|] in root && root[p[..|c|]] != Dir;
      }
    }
  }

  /** Seen from a child that is, or becomes, a directory, the same paths below it are blocked. */
  lemma BlockedFromChild(root: Root, mid: Root, d: Path, c: Path, p: Path)
    requires d in root && root[d] == Dir && d < c && |c| == |d| + 1 && c < p
    requires c in root ==> root[c] == Dir
    requires c in mid && mid[c] == Dir
    requires forall q :: c < q ==> (q in mid <==> q in root) && (q in root ==> mid[q] == root[q])
    ensures Blocked(mid, p, |c|) <==> Blocked(root, p, |d|)
  {
    assert p[..|d|] == d && p[..|c|] == c;
    if Blocked(mid, p, |c|) {
      var k :| |c| <= k < |p| && p[..k] in mid && mid[p[..k]] != Dir;
      assert c < p[..k];
    }
    if Blocked(root, p, |d|) {
      var k :| |d| <= k < |p| && p[..k] in root && root[p[..k]] != Dir;
      assert k != |d| && k != |c|;
      assert c < p[..k];
    }
  }

  /** Recursing into a child directory, fresh or old, handles exactly what lies below it. */
  lemma ChildDirectory(root: Root, lower: Lower, d: Path, done: set<Path>, c: Path, mid: Root)
    requires d in root && root[d] == Dir && c in Children(lower, d) && c !in done && lower[c] == LDir
    requires c in root ==> root[c] == Dir
    requires mid == LinkedIn(root, lower, d, done)[c := Dir]
    ensures LinkedBelow(mid, lower, c) == LinkedIn(root, lower, d, done + {c})
  {
    assert c[..|d| + 1] == c && c[..|d|] == d;
    assert !Blocked(root, c, |d|);
    forall q | c < q
      ensures (q in mid <==> q in root) && (q in root ==> mid[q] == root[q])
    {
      SameChild(d, c, q);
    }
    var l, r := LinkedBelow(mid, lower, c), LinkedIn(root, lower, d, done + {c});
    forall p
      ensures p in l <==> p in r
      ensures p in l ==> l[p] == r[p]
    {
      if c < p {
        BlockedFromChild(root, mid, d, c, p);
        SameChild(d, c, p);
      } else if p == c {
        assert AddsBelow(root, lower, d, c) || c in root;
      } else if d < p {
        SameChild(d, c, p);
      }
    }
    assert l == r;
  }

  lemma NewDirectory(root: Root, lower: Lower, d: Path, done: set<Path>, c: Path)
    requires d in root && root[d] == Dir && c in Children(lower, d) && c !in done && lower[c] == LDir
    requires c !in LinkedIn(root, lower, d, done)
    ensures LinkedBelow(LinkedIn(root, lower, d, done)[c := Dir], lower, c) == LinkedIn(root, lower, d, done + {c})
  {
    ChildDirectory(root, lower, d, done, c, LinkedIn(root, lower, d, done)[c := Dir]);
  }

  lemma OldDirectory(root: Root, lower: Lower, d: Path, done: set<Path>, c: Path)
    requires d in root && root[d] == Dir && c in Children(lower, d) && c !in done && lower[c] == LDir
    requires c in LinkedIn(root, lower, d, done) && LinkedIn(root, lower, d, done)[c] == Dir
    ensures LinkedBelow(LinkedIn(root, lower, d, done), lower, c) == LinkedIn(root, lower, d, done + {c})
  {
    var before := LinkedIn(root, lower, d, done);
    assert c[..|d| + 1] == c;
    assert before[c := Dir] == before;
    ChildDirectory(root, lower, d, done, c, before);
  }

  // ------------------------------------------------------ the top-level loop

  lemma TopDone(root: Root, lower: Lower)
    requires LowerOk(lower)
    ensures LinkedTop(root, lower, Children(lower, [])) == Linked(root, lower)
  {
    forall p | Adds(root, lower, p)
      ensures p[..1] in Children(lower, [])
    {
      ChildOf(lower, [], p);
    }
  }

  lemma TopNothing(root: Root, lower: Lower, done: set<Path>, c: Path)
    requires LowerOk(lower) && c in Children(lower, []) && c !in done
    requires Skipped(c[0])
      || (c in LinkedTop(root, lower, done) && (LinkedTop(root, lower, done)[c] != Dir || lower[c] != LDir))
    ensures LinkedTop(root, lower, done) == LinkedTop(root, lower, done + {c})
  {
    assert c[..1] == c;
    forall p | p in lower && p != [] && p[..1] == c
      ensures !Adds(root, lower, p)
    {
      assert p[0] == c[0];
      if !Skipped(c[0]) {
        if lower[c] != LDir {
          LeafAlone(lower, c, p);
        } else if p != c {
          assert 1 <= 1 < |p| && p[..1] in root && root[p[..1]] != Dir;
        }
      }
    }
  }

  lemma TopLink(root: Root, lower: Lower, done: set<Path>, c: Path)
    requires LowerOk(lower) && c in Children(lower, []) && c !in done && !Skipped(c[0])
    requires c !in LinkedTop(root, lower, done)
    ensures LinkedTop(root, lower, done)[c := Link(c)] == LinkedTop(root, lower, done + {c})
  {
    assert c[..1] == c;
    assert Adds(root, lower, c);
    forall p | Adds(root, lower, p) && p[..1] == c
      ensures p == c
    {
      assert |p| == 1;
      assert p[..1] == p;
    }
  }

  lemma TopDirectory(root: Root, lower: Lower, done: set<Path>, c: Path)
    requires LowerOk(lower) && c in Children(lower, []) && c !in done && !Skipped(c[0])
    requires c in LinkedTop(root, lower, done) && LinkedTop(root, lower, done)[c] == Dir
    ensures LinkedBelow(LinkedTop(root, lower, done), lower, c) == LinkedTop(root, lower, done + {c})
  {
    var mid := LinkedTop(root, lower, done);
    assert c[..1] == c && c in root;
    var l, r := LinkedBelow(mid, lower, c), LinkedTop(root, lower, done + {c});
    forall p
      ensures p in l <==> p in r
      ensures p in l ==> l[p] == r[p]
    {
      if c < p {
        assert p[..1] == c && p[0] == c[0];
        BlockedBelowTop(root, mid, c, p, done, lower);
      } else if p != [] {
        assert p[..1] == c ==> p == c;
      }
    }
    assert l == r;
  }

  lemma BlockedBelowTop(root: Root, mid: Root, c: Path, p: Path, done: set<Path>, lower: Lower)
    requires |c| == 1 && c < p && c !in done && mid == LinkedTop(root, lower, done)
    ensures Blocked(mid, p, 1) <==> Blocked(root, p, 1)
  {
    forall k | 1 <= k < |p|
      ensures (p[..k] in mid <==> p[..k] in root) && (p[..k] in root ==> mid[p[..k]] == root[p[..k]])
    {
      assert p[..k][..1] == c;
    }
  }

  // ---------------------------------------------------------------- theorems

  /** Resolution walks through directories of the root. */
  lemma {:induction false} ResolveSkips(root: Root, lower: Lower, p: Path, j: nat, k: nat)
    requires j <= k <= |p|
    requires forall i :: j <= i < k ==> p[..i] in root && root[p[..i]] == Dir
    ensures Resolve(root, lower, p, j) == Resolve(root, lower, p, k)
    decreases k - j
  {
    if j < k {
      ResolveSkips(root, lower, p, j + 1, k);
    }
  }

  /** A node of the root is met where it stands. */
  lemma ViewOfNode(root: Root, lower: Lower, p: Path)
    requires RootOk(root) && p in root
    ensures View(root, lower, p) ==
      match root[p] case Dir => Directory case Other(id) => RootObject(id) case Link(t) => LowerSeen(lower, t)
  {
    ResolveSkips(root, lower, p, 0, |p|);
    assert p[..|p|] == p && p[|p|..] == [];
    if root[p].Link? {
      assert root[p].target + [] == root[p].target;
    }
  }

  /** Below a non-directory of the root, only a link leads anywhere. */
  lemma ViewOfShadowed(root: Root, lower: Lower, p: Path, k: nat)
    requires RootOk(root) && k < |p| && p[..k] in root && root[p[..k]] != Dir
    ensures View(root, lower, p) ==
      match root[p[..k]] case Link(t) => LowerSeen(lower, t + p[k..]) case _ => Nothing
  {
    var q := p[..k];
    forall i | 0 <= i < k
      ensures p[..i] in root && root[p[..i]] == Dir
    {
      assert q[..i] == p[..i];
    }
    ResolveSkips(root, lower, p, 0, k);
  }

  /** A path the root neither holds nor shadows is not found. */
  lemma {:induction false} ViewOfMissing(root: Root, lower: Lower, p: Path, k: nat)
    requires RootOk(root) && p !in root && !Shadowed(root, p) && k <= |p|
    ensures Resolve(root, lower, p, k) == Nothing
    decreases |p| - k
  {
    if k < |p| {
      ViewOfMissing(root, lower, p, k + 1);
    } else {
      assert p[..k] == p;
    }
  }

  /** Linking keeps the root a tree. */
  lemma LinkedIsTree(root: Root, lower: Lower)
    requires RootOk(root) && LowerOk(lower)
    ensures RootOk(Linked(root, lower))
  {
    var l := Linked(root, lower);
    forall p, k | p in l && 0 <= k < |p|
      ensures p[..k] in l && l[p[..k]] == Dir
    {
      if p !in root && 0 < k {
        AncestorLinked(root, lower, p, k);
      }
    }
  }

  lemma AncestorLinked(root: Root, lower: Lower, p: Path, k: nat)
    requires RootOk(root) && LowerOk(lower) && Adds(root, lower, p) && 0 < k < |p|
    ensures p[..k] in Linked(root, lower) && Linked(root, lower)[p[..k]] == Dir
  {
    var q := p[..k];
    assert q[0] == p[0] && q[..1] == p[..1];
    if q !in root {
      assert !Blocked(root, q, 1) by {
        assert forall i :: 1 <= i < k ==> q[..i] == p[..i];
      }
      assert Adds(root, lower, q);
    }
  }

  /** Added nodes show what the lower tree has at the same path. */
  lemma AddedShowsLower(root: Root, lower: Lower, p: Path)
    requires RootOk(root) && LowerOk(lower) && Adds(root, lower, p)
    ensures View(Linked(root, lower), lower, p) == LowerSeen(lower, p)
  {
    LinkedIsTree(root, lower);
    ViewOfNode(Linked(root, lower), lower, p);
  }

  /** So does any path below a link that linking created. */
  lemma BelowLinkShowsLower(root: Root, lower: Lower, p: Path, k: nat)
    requires RootOk(root) && LowerOk(lower) && k < |p| && Adds(root, lower, p[..k])
    requires Linked(root, lower)[p[..k]] != Dir
    ensures View(Linked(root, lower), lower, p) == LowerSeen(lower, p)
  {
    LinkedIsTree(root, lower);
    ViewOfShadowed(Linked(root, lower), lower, p, k);
    assert p[..k] + p[k..] == p;
  }

  /** A lower path with no node of its own after linking lies below a top-level link. */
  lemma OnlyBelowTopLinks(root: Root, lower: Lower, p: Path)
    requires RootOk(root) && LowerOk(lower) && p != [] && !Skipped(p[0])
    requires p in lower && p !in root && !Shadowed(root, p) && !Adds(root, lower, p)
    ensures |p| > 1 && Adds(root, lower, p[..1])
  {
  }

  /**
   After linking, resolving any path outside the skipped top-level names gives
   the overlay union: what the root showed if it had the path or shadowed it,
   and the lower tree's node otherwise.
   */
  lemma LinkedShowsUnion(root: Root, lower: Lower, p: Path)
    requires RootOk(root) && LowerOk(lower) && (p == [] || p[0] !in ["proc", "sys", "dev", "mnt", "run"])
    ensures View(Linked(root, lower), lower, p) == Union(root, lower, p)
  {
    var l := Linked(root, lower);
    LinkedIsTree(root, lower);
    if p in root {
      ViewOfNode(root, lower, p);
      ViewOfNode(l, lower, p);
    } else if Shadowed(root, p) {
      var k :| 0 <= k < |p| && p[..k] in root && root[p[..k]] != Dir;
      ViewOfShadowed(root, lower, p, k);
      ViewOfShadowed(l, lower, p, k);
    } else if Adds(root, lower, p) {
      AddedShowsLower(root, lower, p);
    } else if Shadowed(l, p) {
      var k :| 0 <= k < |p| && p[..k] in l && l[p[..k]] != Dir;
      assert p[..k] !in root;
      BelowLinkShowsLower(root, lower, p, k);
    } else {
      if p in lower {
        OnlyBelowTopLinks(root, lower, p);
      }
      ViewOfMissing(l, lower, p, 0);
    }
  }

  /**
   On a root that held no links, spelled out: the root's own node if it had
   one, nothing below its non-directories, and otherwise the lower tree's node.
   */
  lemma FreshRootShowsUnion(root: Root, lower: Lower, p: Path)
    requires RootOk(root) && LowerOk(lower) && (p == [] || p[0] !in ["proc", "sys", "dev", "mnt", "run"])
    requires forall q :: q in root ==> !root[q].Link?
    ensures View(Linked(root, lower), lower, p) ==
      if p in root then (match root[p] case Other(id) => RootObject(id) case _ => Directory)
      else if Shadowed(root, p) then Nothing
      else LowerSeen(lower, p)
  {
    LinkedShowsUnion(root, lower, p);
    if p in root {
      ViewOfNode(root, lower, p);
    } else if Shadowed(root, p) {
      var k :| 0 <= k < |p| && p[..k] in root && root[p[..k]] != Dir;
      ViewOfShadowed(root, lower, p, k);
    }
  }

  /** Below a skipped top-level name nothing changes. */
  lemma SkippedUnchanged(root: Root, lower: Lower, p: Path)
    requires RootOk(root) && LowerOk(lower) && p != [] && p[0] in ["proc", "sys", "dev", "mnt", "run"]
    ensures View(Linked(root, lower), lower, p) == View(root, lower, p)
  {
    SkippedSame(root, lower, p, 0);
  }

  lemma {:induction false} SkippedSame(root: Root, lower: Lower, p: Path, k: nat)
    requires p != [] && Skipped(p[0]) && k <= |p|
    ensures Resolve(Linked(root, lower), lower, p, k) == Resolve(root, lower, p, k)
    decreases |p| - k
  {
    assert k > 0 ==> p[..k][0] == p[0];
    if k < |p| {
      SkippedSame(root, lower, p, k + 1);
    }
  }

  /**
   What is added: one link for a missing top-level entry, and further down a real
   directory for every directory, so that it can be written to, and a link to the
   same path of the lower tree for every file.
   */
  lemma AddedNodes(root: Root, lower: Lower, p: Path)
    requires RootOk(root) && LowerOk(lower) && p in Linked(root, lower) && p !in root
    ensures p in lower && p != []
    ensures Linked(root, lower)[p] == if |p| > 1 && lower[p] == LDir then Dir else Link(p)
    ensures forall k :: 1 <= k < |p| ==> p[..k] in Linked(root, lower) && Linked(root, lower)[p[..k]] == Dir
  {
    LinkedIsTree(root, lower);
  }

  /** Nothing that was there changes, and a second run does nothing. */
  lemma LinkingIsIdempotent(root: Root, lower: Lower)
    requires RootOk(root) && LowerOk(lower)
    ensures forall p :: p in root ==> p in Linked(root, lower) && Linked(root, lower)[p] == root[p]
    ensures Linked(Linked(root, lower), lower) == Linked(root, lower)
  {
  }
}
