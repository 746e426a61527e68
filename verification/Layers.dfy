/**
 Layer extraction with whiteouts (internal/pkgd/oci.go, internal/pkgd/merger.go).

 A root filesystem is a map from component paths, relative to the destination
 directory, to nodes. The destination itself is the path [], which need not
 exist yet. Layers hold directories, regular files, whiteouts and entries of
 kinds that extraction ignores; symbolic and hard links are not modelled.
 */
module Layers {
  import opened Common
  import opened Strings
  import opened Paths

  datatype Node = Dir | File(data: bytes, exec: bool)

  type Tree = map<Path, Node>

  datatype Kind = DirKind | RegKind(data: bytes, exec: bool) | IgnoredKind

  /** One tar entry: its raw header name and what it holds. */
  datatype Entry = Entry(name: string, kind: Kind)

  /** What an accepted entry asks for, with names already resolved below the destination. */
  datatype Op =
    | Whiteout(path: Path)
    | Opaque(path: Path)
    | MakeDir(path: Path)
    | WriteFile(path: Path, data: bytes, exec: bool)
    | Ignore

  const WHITEOUT_PREFIX := ".wh."
  const OPAQUE_WHITEOUT := ".wh..wh..opq"

  /** An entry whose names were accepted: where its own name points, and what it asks for. */
  datatype Request = Request(own: Path, op: Op)

  // ------------------------------------------------------ reading an entry

  /** The lexical half of one turn of the extraction loop; None when a name is refused. */
  function Parse(e: Entry): Option<Request> {
    match Resolve(e.name)
    case None => None
    case Some(own) =>
      var base := BaseOf(e.name);
      if base == OPAQUE_WHITEOUT then
        (match Resolve(DirOf(e.name))
         case None => None
         case Some(q) => Some(Request(own, Opaque(q))))
      else if HasPrefix(base, WHITEOUT_PREFIX) then
        (match Resolve(JoinClean(DirOf(e.name), base[|WHITEOUT_PREFIX|..]))
         case None => None
         case Some(q) => Some(Request(own, Whiteout(q))))
      else
        match e.kind
        case DirKind => Some(Request(own, MakeDir(own)))
        case RegKind(data, exec) => Some(Request(own, WriteFile(own, data, exec)))
        case IgnoredKind => Some(Request(own, Ignore))
  }

  // --------------------------------------------------------- the file tree

  predicate IsFile(t: Tree, p: Path) {
    p in t && t[p].File?
  }

  /** Every ancestor of a node is present and is a directory. */
  ghost predicate WellFormed(t: Tree) {
    forall p, k :: p in t && 0 <= k < |p| ==> p[..k] in t && t[p[..k]] == Dir
  }

  /** Some path among p[..0], ..., p[..n - 1] holds a regular file. */
  predicate FileAmong(t: Tree, p: Path, n: int)
    requires n <= |p| + 1
  {
    exists k :: 0 <= k < n && IsFile(t, p[..k])
  }

  /** lstat in a tree without links: ENOTDIR when an ancestor is a file. */
  function Lstat(t: Tree, p: Path): Stat {
    if p in t then Present else if FileAmong(t, p, |p|) then Unreadable else Missing
  }

  /** The parent loop of SafePathClean from the i-th ancestor of `p` on. */
  predicate ParentLoop(t: Tree, p: Path, i: nat)
    requires i <= |p|
    decreases |p| - i
  {
    i >= |p| || Lstat(t, p[..i]) == Missing || (Lstat(t, p[..i]) == Present && ParentLoop(t, p, i + 1))
  }

  /** SafePathClean accepts the resolved path in this tree. */
  predicate ParentsOk(t: Tree, p: Path) {
    p == [] || ParentLoop(t, p, 1)
  }

  /** It does so exactly when no ancestor other than the immediate parent is a regular file. */
  lemma ParentsOkExact(t: Tree, p: Path)
    requires WellFormed(t)
    ensures ParentsOk(t, p) <==> !FileAmong(t, p, |p| - 1)
  {
    if p != [] {
      ParentLoopExact(t, p, 1);
      if |p| > 1 && IsFile(t, p[..0]) {
        assert p[..1][..0] == p[..0];
        assert IsFile(t, p[..1][..0]);
        assert p[..1] !in t;
      }
    }
  }

  lemma {:induction false} ParentLoopExact(t: Tree, p: Path, i: nat)
    requires WellFormed(t) && 1 <= i <= |p|
    requires !FileAmong(t, p[..i], i - 1)
    ensures ParentLoop(t, p, i) <==> !FileAmong(t, p, |p| - 1)
    decreases |p| - i
  {
    assert forall k :: 0 <= k <= i ==> p[..i][..k] == p[..k];
    if i >= |p| {
      assert p[..i] == p;
    } else {
      var q := p[..i];
      if q in t && t[q] == Dir {
        var next := p[..i + 1];
        forall k | 0 <= k < i
          ensures !IsFile(t, next[..k])
        {
          assert next[..k] == q[..k];
        }
        ParentLoopExact(t, p, i + 1);
      } else if q in t {
        assert IsFile(t, p[..i]);
        if i + 1 < |p| {
          assert p[..i + 1][..i] == q;
          assert p[..i + 1] !in t;
          assert IsFile(t, p[..i + 1][..i]);
        }
      } else if FileAmong(t, q, i) {
        assert IsFile(t, q[..i - 1]);
        assert q[..i - 1] == p[..i - 1];
      } else {
        forall k | i <= k <= |p|
          ensures p[..k] !in t
        {
          assert p[..k][..i] == q;
        }
        forall k | 0 <= k < |p| - 1
          ensures !IsFile(t, p[..k])
        {
          assert k < i ==> p[..k] == q[..k];
        }
      }
    }
  }

  lemma {:induction false} ParentLoopFrom(t: Tree, dest: string, p: Path, lstat: string -> Stat, i: nat)
    requires 1 <= i <= |p|
    requires forall k :: 1 <= k < |p| ==> lstat(Ancestor(dest, p, k)) == Lstat(t, p[..k])
    requires forall k :: 1 <= k < i ==> Lstat(t, p[..k]) == Present
    ensures ParentLoop(t, p, i) <==> ParentsInspectable(dest, p, lstat)
    decreases |p| - i
  {
    if i < |p| {
      assert lstat(Ancestor(dest, p, i)) == Lstat(t, p[..i]);
      if Lstat(t, p[..i]) == Present {
        ParentLoopFrom(t, dest, p, lstat, i + 1);
      }
    }
  }

  /** SafePathClean's verdict on a real destination is the one used here for its tree. */
  lemma SafePathVerdict(t: Tree, dest: string, p: Path, lstat: string -> Stat)
    requires forall k :: 1 <= k < |p| ==> lstat(Ancestor(dest, p, k)) == Lstat(t, p[..k])
    ensures ParentsOk(t, p) <==> ParentsInspectable(dest, p, lstat)
  {
    if p != [] {
      ParentLoopFrom(t, dest, p, lstat, 1);
    }
  }

  /** os.RemoveAll of `q`. */
  function Removed(t: Tree, q: Path): Tree {
    map p | p in t && !(q <= p) :: t[p]
  }

  /** What clearDirectoryContents leaves: everything but the strict descendants of `q`. */
  function Cleared(t: Tree, q: Path): Tree {
    map p | p in t && !(q < p) :: t[p]
  }

  function Prefixes(q: Path): set<Path> {
    set k | 0 <= k <= |q| :: q[..k]
  }

  /** os.MkdirAll of `q` where no ancestor stands in the way. */
  function WithDirs(t: Tree, q: Path): Tree {
    map p | p in t.Keys + Prefixes(q) :: if p in t then t[p] else Dir
  }

  /** Opening with O_CREATE|O_TRUNC: an existing file keeps its mode. */
  function WithFile(t: Tree, q: Path, data: bytes, exec: bool): Tree {
    t[q := File(data, if IsFile(t, q) then t[q].exec else exec)]
  }

  /** The parents of a regular file, created first. */
  function WithParents(t: Tree, q: Path): Tree {
    if q == [] then t else WithDirs(t, q[..|q| - 1])
  }

  /** The filesystem calls of an operation succeed. */
  predicate Feasible(t: Tree, op: Op) {
    match op
    case Whiteout(q) => ParentsOk(t, q)
    case Opaque(q) => ParentsOk(t, q) && !FileAmong(t, q, |q| + 1)
    case MakeDir(q) => !FileAmong(t, q, |q| + 1)
    case WriteFile(q, _, _) => !FileAmong(t, q, |q|) && !(q in t && t[q] == Dir)
    case Ignore => true
  }

  function Perform(t: Tree, op: Op): Tree {
    match op
    case Whiteout(q) => Removed(t, q)
    case Opaque(q) => Cleared(t, q)
    case MakeDir(q) => WithDirs(t, q)
    case WriteFile(q, data, exec) => WithFile(WithParents(t, q), q, data, exec)
    case Ignore => t
  }

  /** One turn of the loop in ExtractLayerTarball goes through. */
  predicate Accepts(t: Tree, e: Request) {
    ParentsOk(t, e.own) && Feasible(t, e.op)
  }

  datatype Outcome = Outcome(tree: Tree, ok: bool)

  /** The entries applied in order; the first refused one ends the run and changes nothing. */
  function Run(t: Tree, es: seq<Request>): Outcome
    decreases |es|
  {
    if es == [] then Outcome(t, true)
    else if !Accepts(t, es[0]) then Outcome(t, false)
    else Run(Perform(t, es[0].op), es[1..])
  }

  // -------------------------------------- the declarative view of one entry

  /** The entry leaves a node at `p`: its own, or an implied parent directory. */
  predicate Provides(e: Request, p: Path) {
    match e.op
    case MakeDir(q) => p <= q
    case WriteFile(q, _, _) => p <= q
    case _ => false
  }

  predicate ProvidesFile(e: Request, p: Path) {
    match e.op
    case WriteFile(q, _, _) => p == q
    case _ => false
  }

  /** The entry hides what lies at `p`: a whiteout of `p` or an ancestor, or an opaque ancestor. */
  predicate Hides(e: Request, p: Path) {
    match e.op
    case Whiteout(q) => q <= p
    case Opaque(q) => q < p
    case _ => false
  }

  function FileData(e: Request): bytes
    requires e.op.WriteFile?
  {
    e.op.data
  }

  function FileExec(e: Request): bool
    requires e.op.WriteFile?
  {
    e.op.exec
  }

  ghost predicate HiddenAfter(es: seq<Request>, k: int, p: Path)
    requires -1 <= k
  {
    exists j :: k < j < |es| && Hides(es[j], p)
  }

  /** Entry `k` provides `p` and nothing after it hides `p`. */
  ghost predicate Live(es: seq<Request>, k: int, p: Path) {
    0 <= k < |es| && Provides(es[k], p) && !HiddenAfter(es, k, p)
  }

  /** Node `p` of the starting tree is still there after all entries. */
  ghost predicate Survives(t: Tree, es: seq<Request>, p: Path) {
    p in t && !HiddenAfter(es, -1, p)
  }

  /** The last live writer of `p`: its data is what `p` must hold. */
  ghost predicate LastWriter(es: seq<Request>, k: int, p: Path) {
    Live(es, k, p) && ProvidesFile(es[k], p) && forall j :: k < j < |es| ==> !ProvidesFile(es[j], p)
  }

  /** The first live writer of `p`: its permission is what `p` keeps. */
  ghost predicate FirstWriter(es: seq<Request>, k: int, p: Path) {
    Live(es, k, p) && ProvidesFile(es[k], p) && forall j :: 0 <= j < k && ProvidesFile(es[j], p) ==> !Live(es, j, p)
  }

  /** What the entries say about `p`, independently of how they are applied. */
  ghost predicate Resolved(t0: Tree, es: seq<Request>, t: Tree, p: Path) {
    && (p in t <==> Survives(t0, es, p) || exists k :: Live(es, k, p))
    && (forall k :: Live(es, k, p) && !ProvidesFile(es[k], p) ==> t[p] == Dir)
    && (forall k :: LastWriter(es, k, p) ==> t[p].File? && t[p].data == FileData(es[k]))
    && (forall k :: FirstWriter(es, k, p) && !Survives(t0, es, p) ==> t[p].File? && t[p].exec == FileExec(es[k]))
    && (Survives(t0, es, p) && t0[p] == Dir ==> t[p] == Dir)
    && (Survives(t0, es, p) && t0[p].File? ==> t[p].File? && t[p].exec == t0[p].exec)
    && (Survives(t0, es, p) && !(exists k :: Live(es, k, p)) ==> t[p] == t0[p])
  }

  // ---------------------------------------------------------------- proofs

  lemma PrefixFacts(p: Path, q: Path)
    ensures p in Prefixes(q) <==> p <= q
    ensures p <= q ==> p == q[..|p|]
  {
    if p <= q {
      assert p == q[..|p|];
    }
  }

  lemma StepNode(t: Tree, e: Request, p: Path)
    requires Accepts(t, e)
    ensures var u := Perform(t, e.op);
      && (p in u <==> (p in t && !Hides(e, p)) || Provides(e, p))
      && (ProvidesFile(e, p) ==>
            u[p] == File(FileData(e), if IsFile(t, p) then t[p].exec else FileExec(e)) && (p in t ==> t[p].File?))
      && (Provides(e, p) && !ProvidesFile(e, p) ==> u[p] == Dir && (p in t ==> t[p] == Dir))
      && (p in t && !Hides(e, p) && !Provides(e, p) ==> u[p] == t[p])
  {
    match e.op {
      case Whiteout(q) =>
      case Opaque(q) =>
      case Ignore =>
      case MakeDir(q) =>
        PrefixFacts(p, q);
        if p <= q {
          assert !IsFile(t, q[..|p|]);
        }
      case WriteFile(q, data, exec) =>
        if q != [] {
          PrefixFacts(p, q[..|q| - 1]);
          PrefixFacts(q, q[..|q| - 1]);
          assert p <= q[..|q| - 1] <==> p < q;
        } else {
          assert p <= q <==> p == [];
        }
        assert p <= q <==> p == q || p < q;
        if p < q {
          assert p == q[..|p|];
          assert !IsFile(t, q[..|p|]);
        }
    }
  }

  lemma StepWellFormed(t: Tree, e: Request)
    requires WellFormed(t) && Accepts(t, e)
    ensures WellFormed(Perform(t, e.op))
  {
    var u := Perform(t, e.op);
    forall p, k | p in u && 0 <= k < |p|
      ensures p[..k] in u && u[p[..k]] == Dir
    {
      StepNode(t, e, p);
      StepNode(t, e, p[..k]);
      AncestorOfNode(t, e, p, k);
    }
  }

  lemma AncestorOfNode(t: Tree, e: Request, p: Path, k: nat)
    requires WellFormed(t) && Accepts(t, e) && k < |p|
    ensures Provides(e, p) ==> Provides(e, p[..k]) && !ProvidesFile(e, p[..k])
    ensures Hides(e, p[..k]) ==> Hides(e, p)
    ensures ProvidesFile(e, p[..k]) ==> p !in t
  {
  }

  lemma HiddenSnoc(es: seq<Request>, e: Request, k: int, p: Path)
    requires -1 <= k < |es|
    ensures HiddenAfter(es + [e], k, p) <==> HiddenAfter(es, k, p) || Hides(e, p)
  {
    var all := es + [e];
    if HiddenAfter(es, k, p) {
      var j :| k < j < |es| && Hides(es[j], p);
      assert Hides(all[j], p);
    }
    assert all[|es|] == e;
    if HiddenAfter(all, k, p) {
      var j :| k < j < |all| && Hides(all[j], p);
      assert j < |es| ==> all[j] == es[j];
    }
  }

  lemma LiveSnoc(es: seq<Request>, e: Request, k: int, p: Path)
    requires 0 <= k <= |es|
    ensures Live(es + [e], k, p) <==> if k == |es| then Provides(e, p) else Live(es, k, p) && !Hides(e, p)
  {
    if k < |es| {
      HiddenSnoc(es, e, k, p);
      assert (es + [e])[k] == es[k];
    } else {
      assert (es + [e])[k] == e;
      assert !HiddenAfter(es + [e], k, p);
    }
  }

  lemma {:induction false} RunSnoc(t: Tree, es: seq<Request>, e: Request)
    ensures Run(t, es).ok ==>
      Run(t, es + [e]) == if Accepts(Run(t, es).tree, e)
                          then Outcome(Perform(Run(t, es).tree, e.op), true)
                          else Outcome(Run(t, es).tree, false)
    ensures !Run(t, es).ok ==> Run(t, es + [e]) == Run(t, es)
    decreases |es|
  {
    var all := es + [e];
    if es == [] {
      assert all == [e] && all[1..] == [];
      if Accepts(t, e) {
        assert Run(Perform(t, e.op), []) == Outcome(Perform(t, e.op), true);
      }
    } else {
      assert all[0] == es[0] && all[1..] == es[1..] + [e];
      if Accepts(t, es[0]) {
        RunSnoc(Perform(t, es[0].op), es[1..], e);
      }
    }
  }

  /**
   Whatever the order of the entries, when extraction succeeds every path holds
   what the declarative reading of the entries says.
   */
  lemma {:induction false} ExtractionResolves(t0: Tree, es: seq<Request>, p: Path)
    requires Run(t0, es).ok
    ensures Resolved(t0, es, Run(t0, es).tree, p)
    decreases |es|
  {
    if es == [] {
      NothingResolved(t0, p);
    } else {
      var n := |es| - 1;
      var init, e := es[..n], es[n];
      assert es == init + [e];
      RunSnoc(t0, init, e);
      var t := Run(t0, init).tree;
      ExtractionResolves(t0, init, p);
      ResolvedSnoc(t0, init, e, t, p);
      assert Run(t0, es) == Outcome(Perform(t, e.op), true);
    }
  }

  lemma NothingResolved(t: Tree, p: Path)
    ensures Resolved(t, [], t, p)
  {
  }

  lemma LiveSnocs(es: seq<Request>, e: Request, p: Path)
    ensures forall k :: 0 <= k <= |es| ==>
      (Live(es + [e], k, p) <==> if k == |es| then Provides(e, p) else Live(es, k, p) && !Hides(e, p))
    ensures (exists k :: Live(es + [e], k, p)) <==> Provides(e, p) || (!Hides(e, p) && exists k :: Live(es, k, p))
  {
    var all := es + [e];
    forall k | 0 <= k <= |es|
      ensures Live(all, k, p) <==> if k == |es| then Provides(e, p) else Live(es, k, p) && !Hides(e, p)
    {
      LiveSnoc(es, e, k, p);
    }
    if Provides(e, p) {
      assert Live(all, |es|, p);
    } else if !Hides(e, p) && exists k :: Live(es, k, p) {
      var k :| Live(es, k, p);
      assert Live(all, k, p);
    }
  }

  /** The last writer after one more entry is that entry, or the old one left alone. */
  lemma LastWriterSnoc(es: seq<Request>, e: Request, k: int, p: Path)
    requires LastWriter(es + [e], k, p)
    ensures if k == |es| then ProvidesFile(e, p) else LastWriter(es, k, p) && !Hides(e, p) && !ProvidesFile(e, p)
  {
    var all := es + [e];
    LiveSnoc(es, e, k, p);
    assert all[|es|] == e;
    assert forall j :: 0 <= j < |es| ==> all[j] == es[j];
  }

  /** The first writer after one more entry is the old one if it is still live, else that entry. */
  lemma FirstWriterSnoc(es: seq<Request>, e: Request, k: int, p: Path)
    requires FirstWriter(es + [e], k, p)
    ensures if k == |es|
      then ProvidesFile(e, p) && forall j :: 0 <= j < |es| && ProvidesFile(es[j], p) ==> !Live(es, j, p)
      else FirstWriter(es, k, p) && !Hides(e, p)
  {
    var all := es + [e];
    LiveSnocs(es, e, p);
    assert all[|es|] == e;
    assert forall j :: 0 <= j < |es| ==> all[j] == es[j];
  }

  lemma ResolvedSnoc(t0: Tree, es: seq<Request>, e: Request, t: Tree, p: Path)
    requires Accepts(t, e) && Resolved(t0, es, t, p)
    ensures Resolved(t0, es + [e], Perform(t, e.op), p)
  {
    var all := es + [e];
    var u := Perform(t, e.op);
    StepNode(t, e, p);
    HiddenSnoc(es, e, -1, p);
    LiveSnocs(es, e, p);
    assert all[|es|] == e && forall j :: 0 <= j < |es| ==> all[j] == es[j];
    forall k | LastWriter(all, k, p)
      ensures u[p].File? && u[p].data == FileData(all[k])
    {
      LastWriterSnoc(es, e, k, p);
    }
    forall k | FirstWriter(all, k, p) && !Survives(t0, all, p)
      ensures u[p].File? && u[p].exec == FileExec(all[k])
    {
      FirstWriterSnoc(es, e, k, p);
    }
  }

  /** Extraction keeps the tree well-formed, whether or not it succeeds. */
  lemma {:induction false} RunWellFormed(t: Tree, es: seq<Request>)
    requires WellFormed(t)
    ensures WellFormed(Run(t, es).tree)
    decreases |es|
  {
    if es != [] && Accepts(t, es[0]) {
      StepWellFormed(t, es[0]);
      RunWellFormed(Perform(t, es[0].op), es[1..]);
    }
  }

  // ------------------------------------------------------------ one layer

  ghost predicate LayerProvides(l: seq<Request>, p: Path) {
    exists i :: 0 <= i < |l| && Provides(l[i], p)
  }

  ghost predicate LayerWrites(l: seq<Request>, p: Path) {
    exists i :: 0 <= i < |l| && ProvidesFile(l[i], p)
  }

  ghost predicate LayerHides(l: seq<Request>, p: Path) {
    exists i :: 0 <= i < |l| && Hides(l[i], p)
  }

  /** The data the layer gives `p`: that of its last entry writing `p`. */
  function LayerData(l: seq<Request>, p: Path): bytes {
    if l == [] then []
    else
      var e := l[|l| - 1];
      if ProvidesFile(e, p) then FileData(e) else LayerData(l[..|l| - 1], p)
  }

  predicate IsWhiteout(e: Request) {
    (e.op.Whiteout? || e.op.Opaque?)
  }

  /** Whiteouts come before everything else in the layer. */
  ghost predicate WhiteoutsFirst(l: seq<Request>) {
    forall i, j :: 0 <= i < j < |l| && IsWhiteout(l[j]) ==> IsWhiteout(l[i])
  }

  /** No whiteout hides what an earlier entry of its own layer provided. */
  ghost predicate NoSelfHiding(l: seq<Request>) {
    forall i, j, p :: 0 <= i < j < |l| && Provides(l[i], p) ==> !Hides(l[j], p)
  }

  lemma WhiteoutsFirstSuffices(l: seq<Request>)
    requires WhiteoutsFirst(l)
    ensures NoSelfHiding(l)
  {
  }

  /** What one layer says about one path. */
  datatype View = View(gives: bool, writes: bool, hides: bool, data: bytes)

  ghost function ViewOf(l: seq<Request>, p: Path): View {
    View(LayerProvides(l, p), LayerWrites(l, p), LayerHides(l, p), LayerData(l, p))
  }

  /** A layer laid over `t`, declaratively. */
  ghost predicate LaidOver(t: Tree, v: View, u: Tree, p: Path) {
    && (p in u <==> v.gives || (p in t && !v.hides))
    && (v.writes ==> v.gives && u[p].File? && u[p].data == v.data)
    && (v.gives && !v.writes ==> u[p] == Dir)
    && (p in t && !v.hides ==> t[p].File? == u[p].File?)
    && (p in t && !v.hides && !v.gives ==> u[p] == t[p])
  }

  lemma {:induction false} LastWriterOf(l: seq<Request>, p: Path) returns (k: nat)
    requires LayerWrites(l, p)
    ensures k < |l| && ProvidesFile(l[k], p) && LayerData(l, p) == FileData(l[k])
    ensures forall j :: k < j < |l| ==> !ProvidesFile(l[j], p)
    decreases |l|
  {
    k := |l| - 1;
    if !ProvidesFile(l[k], p) {
      var init := l[..k];
      var i :| 0 <= i < |l| && ProvidesFile(l[i], p);
      assert ProvidesFile(init[i], p);
      k := LastWriterOf(init, p);
    }
  }

  /**
   What the layer gives `p` it still gives after its own whiteouts, and when it
   writes `p`, its last writing survives them.
   */
  ghost predicate KeepsOwn(l: seq<Request>, p: Path) {
    && (LayerProvides(l, p) ==> exists k :: Live(l, k, p))
    && (LayerWrites(l, p) ==> exists k :: LastWriter(l, k, p))
  }

  lemma NoSelfHidingSuffices(l: seq<Request>, p: Path)
    requires NoSelfHiding(l)
    ensures KeepsOwn(l, p)
  {
    forall k | 0 <= k < |l| && Provides(l[k], p)
      ensures Live(l, k, p)
    {
    }
    if LayerWrites(l, p) {
      var k := LastWriterOf(l, p);
      assert LastWriter(l, k, p);
    }
  }

  lemma LayerLaidOver(t: Tree, l: seq<Request>, p: Path)
    requires Run(t, l).ok && NoSelfHiding(l)
    ensures LaidOver(t, ViewOf(l, p), Run(t, l).tree, p)
  {
    NoSelfHidingSuffices(l, p);
    LayerLaidOverExact(t, l, p);
  }

  // ------------------------------------------------------- a stack of layers

  /** Layers extracted one after the other; the first failure ends the run. */
  function RunLayers(t: Tree, ls: seq<seq<Request>>): Outcome
    decreases |ls|
  {
    if ls == [] then Outcome(t, true)
    else
      var o := Run(t, ls[0]);
      if !o.ok then o else RunLayers(o.tree, ls[1..])
  }

  ghost function ViewsOf(ls: seq<seq<Request>>, p: Path): (vs: seq<View>)
    ensures |vs| == |ls| && forall i :: 0 <= i < |ls| ==> vs[i] == ViewOf(ls[i], p)
  {
    seq(|ls|, i requires 0 <= i < |ls| => ViewOf(ls[i], p))
  }

  ghost predicate HiddenAbove(vs: seq<View>, k: int)
    requires -1 <= k
  {
    exists j :: k < j < |vs| && vs[j].hides
  }

  /** Layer `k` provides the path and no layer above it hides the path. */
  ghost predicate Visible(vs: seq<View>, k: int) {
    0 <= k < |vs| && vs[k].gives && !HiddenAbove(vs, k)
  }

  /** The highest visible layer writing the path as a file. */
  ghost predicate TopWriter(vs: seq<View>, k: int) {
    Visible(vs, k) && vs[k].writes && forall j :: k < j < |vs| ==> !vs[j].writes
  }

  /** The overlay of the "Whiteouts" section of the OCI image layer specification, at one path. */
  ghost predicate Overlay(t0: Tree, vs: seq<View>, t: Tree, p: Path) {
    && (p in t <==> (exists k :: Visible(vs, k)) || (p in t0 && !HiddenAbove(vs, -1)))
    && (forall k :: TopWriter(vs, k) ==> t[p].File? && t[p].data == vs[k].data)
    && (forall k :: Visible(vs, k) && !vs[k].writes ==> t[p] == Dir)
    && (p in t0 && !HiddenAbove(vs, -1) && !(exists k :: Visible(vs, k)) ==> t[p] == t0[p])
  }

  lemma {:induction false} RunLayersSnoc(t: Tree, ls: seq<seq<Request>>, l: seq<Request>)
    ensures RunLayers(t, ls).ok ==> RunLayers(t, ls + [l]) == Run(RunLayers(t, ls).tree, l)
    ensures !RunLayers(t, ls).ok ==> RunLayers(t, ls + [l]) == RunLayers(t, ls)
    decreases |ls|
  {
    var all := ls + [l];
    if ls == [] {
      assert all == [l] && all[1..] == [];
      var o := Run(t, l);
      assert RunLayers(o.tree, []) == Outcome(o.tree, true);
    } else {
      assert all[0] == ls[0] && all[1..] == ls[1..] + [l];
      if Run(t, ls[0]).ok {
        RunLayersSnoc(Run(t, ls[0]).tree, ls[1..], l);
      }
    }
  }

  lemma HiddenAboveSnoc(vs: seq<View>, v: View, k: int)
    requires -1 <= k < |vs|
    ensures HiddenAbove(vs + [v], k) <==> HiddenAbove(vs, k) || v.hides
  {
    var all := vs + [v];
    assert all[|vs|] == v;
    if HiddenAbove(vs, k) {
      var j :| k < j < |vs| && vs[j].hides;
      assert all[j].hides;
    }
  }

  lemma VisibleSnoc(vs: seq<View>, v: View, k: int)
    requires 0 <= k <= |vs|
    ensures Visible(vs + [v], k) <==> if k == |vs| then v.gives else Visible(vs, k) && !v.hides
  {
    if k < |vs| {
      HiddenAboveSnoc(vs, v, k);
    }
  }

  lemma OverlaySnoc(t0: Tree, vs: seq<View>, v: View, t: Tree, u: Tree, p: Path)
    requires Overlay(t0, vs, t, p) && LaidOver(t, v, u, p)
    ensures Overlay(t0, vs + [v], u, p)
  {
    var all := vs + [v];
    HiddenAboveSnoc(vs, v, -1);
    forall k | 0 <= k <= |vs|
      ensures Visible(all, k) <==> if k == |vs| then v.gives else Visible(vs, k) && !v.hides
    {
      VisibleSnoc(vs, v, k);
    }
    assert all[|vs|] == v && forall k :: 0 <= k < |vs| ==> all[k] == vs[k];
    assert forall k :: TopWriter(all, k) ==>
      if k == |vs| then v.writes else TopWriter(vs, k) && !v.hides && !v.writes;
    if v.gives {
      assert Visible(all, |vs|);
    } else if !v.hides && exists k :: Visible(vs, k) {
      var k :| Visible(vs, k);
      assert Visible(all, k);
    }
  }

  /**
   Whenever a stack of layers unpacks, the resulting tree is their overlay at
   every path where no layer's own whiteouts undo what it gives (in particular
   everywhere when whiteouts come first).
   */
  lemma {:induction false} StackIsOverlay(t0: Tree, ls: seq<seq<Request>>, p: Path)
    requires RunLayers(t0, ls).ok
    requires forall i :: 0 <= i < |ls| ==> KeepsOwn(ls[i], p)
    ensures Overlay(t0, ViewsOf(ls, p), RunLayers(t0, ls).tree, p)
    decreases |ls|
  {
    if ls == [] {
      assert !HiddenAbove([], -1);
    } else {
      var n := |ls| - 1;
      var init, l := ls[..n], ls[n];
      assert ls == init + [l];
      RunLayersSnoc(t0, init, l);
      var t := RunLayers(t0, init).tree;
      StackIsOverlay(t0, init, p);
      LayerLaidOverExact(t, l, p);
      OverlaySnoc(t0, ViewsOf(init, p), ViewOf(l, p), t, Run(t, l).tree, p);
      assert ViewsOf(ls, p) == ViewsOf(init, p) + [ViewOf(l, p)];
    }
  }

  /**
   For one layer the overlay reading of presence is exact: it holds at `p` if
   and only if the layer, when it gives `p` at all, gives it again after the
   last of its own whiteouts that hide `p`.
   */
  lemma LayerPresenceExact(t: Tree, l: seq<Request>, p: Path)
    requires Run(t, l).ok
    ensures (p in Run(t, l).tree <==> LayerProvides(l, p) || (p in t && !LayerHides(l, p)))
       <==> (LayerProvides(l, p) ==> exists k :: Live(l, k, p))
  {
    ExtractionResolves(t, l, p);
    assert HiddenAfter(l, -1, p) <==> LayerHides(l, p);
    if LayerProvides(l, p) {
      var i :| 0 <= i < |l| && Provides(l[i], p);
      if !LayerHides(l, p) {
        assert Live(l, i, p);
      }
    }
  }

  /** A whiteout written after the file it names deletes the layer's own file. */
  lemma LateWhiteoutDeletesOwnFile()
    ensures var l := [Request(["a"], WriteFile(["a"], [], false)), Request([".wh.a"], Whiteout(["a"]))];
      LayerProvides(l, ["a"]) && Run(map[], l).ok && ["a"] !in Run(map[], l).tree
  {
    var w, h := Request(["a"], WriteFile(["a"], [], false)), Request([".wh.a"], Whiteout(["a"]));
    var l := [w, h];
    assert Provides(l[0], ["a"]);
    RunSnoc(map[], [w], h);
    assert [w] + [h] == l && [w][1..] == [];
    StepNode(Perform(map[], w.op), h, ["a"]);
  }

  lemma LastWriterIsLast(l: seq<Request>, p: Path, k: nat)
    requires LastWriter(l, k, p)
    ensures LayerWrites(l, p) && LayerData(l, p) == FileData(l[k])
  {
    assert ProvidesFile(l[k], p);
    var i := LastWriterOf(l, p);
  }

  /** A layer writes `p` last but hides it again: no file is left there. */
  lemma HiddenWriterLeavesNoFile(t: Tree, l: seq<Request>, p: Path)
    requires Run(t, l).ok && LayerWrites(l, p) && !exists k :: LastWriter(l, k, p)
    ensures !IsFile(Run(t, l).tree, p)
  {
    ExtractionResolves(t, l, p);
    var i := LastWriterOf(l, p);
    assert HiddenAfter(l, i, p);
    assert HiddenAfter(l, -1, p);
    assert forall k :: Live(l, k, p) ==> k > i;
  }

  /**
   For one layer the overlay reading is exact, presence and content: it holds at
   `p` if and only if the layer's own whiteouts do not undo what it gives there.
   */
  lemma LayerLaidOverExact(t: Tree, l: seq<Request>, p: Path)
    requires Run(t, l).ok
    ensures LaidOver(t, ViewOf(l, p), Run(t, l).tree, p) <==> KeepsOwn(l, p)
  {
    LayerPresenceExact(t, l, p);
    ExtractionResolves(t, l, p);
    assert HiddenAfter(l, -1, p) <==> LayerHides(l, p);
    if LayerWrites(l, p) {
      if k :| LastWriter(l, k, p) {
        LastWriterIsLast(l, p, k);
      } else {
        HiddenWriterLeavesNoFile(t, l, p);
      }
    }
  }

  /** Presence is not enough: a file hidden and replaced by a directory is present, and not the file. */
  lemma HiddenFileBecomesDirectory()
    ensures var l := [Request(["a"], WriteFile(["a"], [], false)), Request([".wh.a"], Whiteout(["a"])),
                      Request(["a"], MakeDir(["a"]))];
      && Run(map[], l).ok && (exists k :: Live(l, k, ["a"]))
      && !LaidOver(map[], ViewOf(l, ["a"]), Run(map[], l).tree, ["a"])
  {
    var w, h := Request(["a"], WriteFile(["a"], [], false)), Request([".wh.a"], Whiteout(["a"]));
    var d := Request(["a"], MakeDir(["a"]));
    var l := [w, h, d];
    LateWhiteoutDeletesOwnFile();
    RunSnoc(map[], [w, h], d);
    assert [w, h] + [d] == l;
    assert Live(l, 2, ["a"]);
    assert ProvidesFile(l[0], ["a"]);
    ExtractionResolves(map[], l, ["a"]);
  }

  // ------------------------------------------------- permissions of a stack

  /** All entries of a stack, lowest layer first. */
  function Flatten(ls: seq<seq<Request>>): seq<Request> {
    if ls == [] then [] else ls[0] + Flatten(ls[1..])
  }

  lemma {:induction false} RunConcat(t: Tree, a: seq<Request>, b: seq<Request>)
    ensures Run(t, a + b) == if Run(t, a).ok then Run(Run(t, a).tree, b) else Run(t, a)
    decreases |a|
  {
    if a == [] {
      assert a + b == b;
    } else {
      assert (a + b)[0] == a[0] && (a + b)[1..] == a[1..] + b;
      if Accepts(t, a[0]) {
        RunConcat(Perform(t, a[0].op), a[1..], b);
      }
    }
  }

  /** Unpacking layer after layer is one run over all their entries. */
  lemma {:induction false} StackIsFlat(t: Tree, ls: seq<seq<Request>>)
    ensures RunLayers(t, ls) == Run(t, Flatten(ls))
    decreases |ls|
  {
    if ls != [] {
      RunConcat(t, ls[0], Flatten(ls[1..]));
      if Run(t, ls[0]).ok {
        StackIsFlat(Run(t, ls[0]).tree, ls[1..]);
      }
    }
  }

  /** The permission `p` keeps: that of the surviving node, or of the first writer never hidden. */
  ghost predicate KeepsMode(t0: Tree, es: seq<Request>, p: Path, exec: bool) {
    if Survives(t0, es, p) then IsFile(t0, p) && t0[p].exec == exec
    else exists k :: FirstWriter(es, k, p) && FileExec(es[k]) == exec
  }

  /** Where there is a live writer there is a first one. */
  lemma {:induction false} FirstWriterOf(es: seq<Request>, p: Path, k: nat) returns (first: nat)
    requires Live(es, k, p) && ProvidesFile(es[k], p)
    ensures FirstWriter(es, first, p)
    decreases k
  {
    first := k;
    if j :| 0 <= j < k && ProvidesFile(es[j], p) && Live(es, j, p) {
      first := FirstWriterOf(es, p, j);
    }
  }

  /**
   Permission bits do not follow the highest layer. Over any stack of layers a
   file has the data of its last writer and keeps the permission it first had,
   so the permission is the last writer's if and only if the two agree.
   */
  lemma PermissionExact(t0: Tree, ls: seq<seq<Request>>, p: Path, last: nat)
    requires RunLayers(t0, ls).ok && LastWriter(Flatten(ls), last, p)
    ensures var es, t := Flatten(ls), RunLayers(t0, ls).tree;
      && IsFile(t, p) && t[p].data == FileData(es[last]) && KeepsMode(t0, es, p, t[p].exec)
      && (t[p].exec == FileExec(es[last]) <==> KeepsMode(t0, es, p, FileExec(es[last])))
  {
    var es := Flatten(ls);
    StackIsFlat(t0, ls);
    ExtractionResolves(t0, es, p);
    if !Survives(t0, es, p) {
      var first := FirstWriterOf(es, p, last);
    }
  }

  /** A second layer makes a file executable: its data arrives, its permission does not. */
  lemma UpperPermissionLost(below: bytes, above: bytes)
    ensures var ls := [[Request(["a"], WriteFile(["a"], below, false))], [Request(["a"], WriteFile(["a"], above, true))]];
      && RunLayers(map[], ls).ok
      && ["a"] in RunLayers(map[], ls).tree && RunLayers(map[], ls).tree[["a"]] == File(above, false)
  {
    var lower, upper := Request(["a"], WriteFile(["a"], below, false)), Request(["a"], WriteFile(["a"], above, true));
    var ls := [[lower], [upper]];
    var top := [[upper]];
    assert ls[1..] == top && top[1..] == [];
    assert Flatten(top) == [upper] + Flatten([]) == [upper];
    assert Flatten(ls) == [lower] + [upper] == [lower, upper];
    StackIsFlat(map[], ls);
    RunSnoc(map[], [lower], upper);
    assert [lower] + [upper] == [lower, upper] && [lower][1..] == [];
    StepNode(map[], lower, ["a"]);
    StepNode(Perform(map[], lower.op), upper, ["a"]);
  }

  // ------------------------------------------------------- names of markers

  lemma JoinedName(cs: Path)
    requires cs != [] && AllOrdinary(cs)
    ensures Join(cs) != "" && !Rooted(Join(cs)) && Split(Join(cs)) == cs
    ensures Resolve(Join(cs)) == Some(cs) && BaseOf(Join(cs)) == cs[|cs| - 1]
    ensures Clean(Join(cs)) == Join(cs)
  {
    JoinedText(cs);
    WalkVerbatim(START, cs, false);
    assert [] + cs == cs;
    assert WalkOf(Join(cs)) == Walk(0, cs);
    assert Ups(0) + cs == cs;
    assert cs[|cs| - 1] != "";
  }

  /** filepath.Dir of a joined name. */
  lemma DirName(d: Path, c: string)
    requires AllOrdinary(d) && Ordinary(c)
    ensures DirOf(Join(d + [c])) == if d == [] then "." else Join(d)
  {
    var cs := d + [c];
    JoinedName(cs);
    assert cs[..|cs| - 1] == d;
    if d != [] {
      TrailingSlash(d);
    }
  }

  lemma TrailingSlash(d: Path)
    requires d != [] && AllOrdinary(d)
    ensures Clean(Join(d) + "/") == Join(d)
  {
    JoinedName(d);
    var text := Join(d) + "/";
    assert text == Join(d) + "/" + "";
    SplitConcat(Join(d), "");
    WalkConcat(START, d, [""], false);
    assert [""][1..] == [];
    assert WalkFrom(Walk(0, d), [""], false) == Walk(0, d);
    assert Ups(0) + d == d;
  }

  lemma ParentName(d: Path, c: string)
    requires AllOrdinary(d) && Ordinary(c)
    ensures Resolve(DirOf(Join(d + [c]))) == Some(d)
  {
    DirName(d, c);
    if d == [] {
      SplitOfComponent(".", "");
      assert ["."][1..] == [];
      assert WalkFrom(START, ["."], false) == START;
    } else {
      JoinedName(d);
    }
  }

  /** filepath.Join of "." and one ordinary component. */
  lemma DotSibling(x: string)
    requires Ordinary(x)
    ensures JoinClean(".", x) == x
  {
    SplitConcat(".", x);
    SplitOfComponent(".", "");
    SplitOfComponent(x, "");
    var parts := ["."] + [x];
    assert parts[1..] == [x] && [x][1..] == [];
    assert WalkFrom(START, parts, false) == WalkFrom(START, [x], false) == Walk(0, [x]);
    assert Ups(0) + [x] == [x];
  }

  lemma SiblingName(d: Path, x: string)
    requires AllOrdinary(d) && Ordinary(x)
    ensures Resolve(JoinClean(if d == [] then "." else Join(d), x)) == Some(d + [x])
  {
    JoinedName(d + [x]);
    if d == [] {
      DotSibling(x);
      assert d + [x] == [x];
    } else {
      JoinConcat(d, [x]);
    }
  }

  /** `.wh..wh..opq` in a directory is an opaque whiteout of that directory. */
  lemma OpaqueMarkerName(d: Path, kind: Kind)
    requires AllOrdinary(d)
    ensures OPAQUE_WHITEOUT == ".wh..wh..opq"
    ensures Parse(Entry(Join(d + [OPAQUE_WHITEOUT]), kind)) == Some(Request(d + [OPAQUE_WHITEOUT], Opaque(d)))
  {
    JoinedName(d + [OPAQUE_WHITEOUT]);
    ParentName(d, OPAQUE_WHITEOUT);
  }

  /** `.wh.x` in a directory is a whiteout of its sibling `x`. */
  lemma WhiteoutMarkerName(d: Path, x: string, kind: Kind)
    requires AllOrdinary(d) && Ordinary(x) && WHITEOUT_PREFIX + x != OPAQUE_WHITEOUT
    ensures WHITEOUT_PREFIX == ".wh."
    ensures Parse(Entry(Join(d + [WHITEOUT_PREFIX + x]), kind))
      == Some(Request(d + [WHITEOUT_PREFIX + x], Whiteout(d + [x])))
  {
    var m := WHITEOUT_PREFIX + x;
    MarkerOrdinary(x);
    JoinedName(d + [m]);
    DirName(d, m);
    SiblingName(d, x);
  }

  lemma MarkerOrdinary(x: string)
    requires Ordinary(x)
    ensures var m := WHITEOUT_PREFIX + x;
      Ordinary(m) && HasPrefix(m, WHITEOUT_PREFIX) && m[|WHITEOUT_PREFIX|..] == x
  {
    assert |WHITEOUT_PREFIX + x| > 4 && '/' !in WHITEOUT_PREFIX;
  }

  /** Any other name stands for itself, and the entry's kind says what to do there. */
  lemma PlainName(cs: Path, kind: Kind)
    requires cs != [] && AllOrdinary(cs) && !HasPrefix(cs[|cs| - 1], WHITEOUT_PREFIX)
    ensures Parse(Entry(Join(cs), kind)) == Some(Request(cs,
      match kind
      case DirKind => MakeDir(cs)
      case RegKind(data, exec) => WriteFile(cs, data, exec)
      case IgnoredKind => Ignore))
  {
    JoinedName(cs);
    assert WHITEOUT_PREFIX <= OPAQUE_WHITEOUT;
  }

  // ------------------------------------------------------------- the program

  /** A layer tarball as its reader delivers it; `complete` is false when reading fails at the end. */
  datatype Tarball = Tarball(entries: seq<Entry>, complete: bool)

  /** ExtractLayerTarball, as a function of the tree it starts from. */
  function Extract(t: Tree, es: seq<Entry>, complete: bool): Outcome
    decreases |es|
  {
    if es == [] then Outcome(t, complete)
    else
      match Parse(es[0])
      case None => Outcome(t, false)
      case Some(r) => if Accepts(t, r) then Extract(Perform(t, r.op), es[1..], complete) else Outcome(t, false)
  }

  ghost function Requests(es: seq<Entry>): (rs: seq<Request>)
    requires forall i :: 0 <= i < |es| ==> Parse(es[i]).Some?
    ensures |rs| == |es| && forall i :: 0 <= i < |es| ==> rs[i] == Parse(es[i]).value
  {
    seq(|es|, i requires 0 <= i < |es| => Parse(es[i]).value)
  }

  /** Extraction succeeds exactly when all was read, every name was accepted and the requests run through. */
  lemma {:induction false} ExtractIsRun(t: Tree, es: seq<Entry>, complete: bool)
    ensures Extract(t, es, complete).ok <==>
      complete && (forall i :: 0 <= i < |es| ==> Parse(es[i]).Some?) && Run(t, Requests(es)).ok
    ensures Extract(t, es, complete).ok ==> Run(t, Requests(es)) == Extract(t, es, complete)
    decreases |es|
  {
    if es != [] && Parse(es[0]).Some? {
      var r := Parse(es[0]).value;
      ExtractIsRun(Perform(t, r.op), es[1..], complete);
      if forall i :: 0 <= i < |es| ==> Parse(es[i]).Some? {
        assert Requests(es)[0] == r;
        assert Requests(es)[1..] == Requests(es[1..]);
      } else {
        assert Accepts(t, r) ==> !Extract(Perform(t, r.op), es[1..], complete).ok;
      }
    }
  }

  /** One blob of the outer archive. */
  datatype Blob = Blob(name: string, data: bytes)

  /** The layer payloads collected from the outer archive: the last blob of each wanted name. */
  function Collect(wanted: set<string>, blobs: seq<Blob>): map<string, bytes> {
    if blobs == [] then map[]
    else
      var b := blobs[|blobs| - 1];
      var m := Collect(wanted, blobs[..|blobs| - 1]);
      if Clean(b.name) in wanted then m[Clean(b.name) := b.data] else m
  }

  /** Decompression and tar reading of a layer payload, which may refuse it. */
  type Opener = (string, bytes) -> Option<Tarball>

  function ExtractInOrder(t: Tree, open: Opener, manifest: seq<string>, payloads: map<string, bytes>): Outcome
    decreases |manifest|
  {
    if manifest == [] then Outcome(t, true)
    else if Clean(manifest[0]) !in payloads then Outcome(t, false)
    else
      match open(manifest[0], payloads[Clean(manifest[0])])
      case None => Outcome(t, false)
      case Some(ball) =>
        var o := Extract(t, ball.entries, ball.complete);
        if o.ok then ExtractInOrder(o.tree, open, manifest[1..], payloads) else o
  }

  function Wanted(manifest: seq<string>): set<string> {
    set i | 0 <= i < |manifest| :: Clean(manifest[i])
  }

  /** UnpackOCIArchive, as a function of the tree it starts from. */
  function Unpack(t: Tree, open: Opener, manifest: seq<string>, blobs: seq<Blob>): Outcome {
    if manifest == [] then Outcome(t, false)
    else ExtractInOrder(t, open, manifest, Collect(Wanted(manifest), blobs))
  }

  ghost predicate DistinctNames(blobs: seq<Blob>) {
    forall i, j :: 0 <= i < j < |blobs| ==> Clean(blobs[i].name) != Clean(blobs[j].name)
  }

  /** With distinct names, the payload collected for a wanted blob is its own. */
  lemma {:induction false} CollectKeeps(wanted: set<string>, blobs: seq<Blob>, i: nat)
    requires DistinctNames(blobs) && i < |blobs| && Clean(blobs[i].name) in wanted
    ensures var m := Collect(wanted, blobs); Clean(blobs[i].name) in m && m[Clean(blobs[i].name)] == blobs[i].data
    decreases |blobs|
  {
    var k := |blobs| - 1;
    if i < k {
      CollectKeeps(wanted, blobs[..k], i);
      assert Clean(blobs[i].name) != Clean(blobs[k].name);
    }
  }

  /** Every collected payload comes from some blob. */
  lemma {:induction false} CollectFrom(wanted: set<string>, blobs: seq<Blob>, n: string) returns (i: nat)
    requires n in Collect(wanted, blobs)
    ensures i < |blobs| && Clean(blobs[i].name) == n && n in wanted
    decreases |blobs|
  {
    var k := |blobs| - 1;
    if Clean(blobs[k].name) == n && n in wanted {
      i := k;
    } else {
      i := CollectFrom(wanted, blobs[..k], n);
    }
  }

  lemma CollectSubset(wanted: set<string>, a: seq<Blob>, b: seq<Blob>, n: string)
    requires DistinctNames(a) && DistinctNames(b) && (forall x :: x in a ==> x in b)
    requires n in Collect(wanted, a)
    ensures n in Collect(wanted, b) && Collect(wanted, b)[n] == Collect(wanted, a)[n]
  {
    var i := CollectFrom(wanted, a, n);
    assert a[i] in b;
    var j :| 0 <= j < |b| && b[j] == a[i];
    CollectKeeps(wanted, a, i);
    CollectKeeps(wanted, b, j);
  }

  /** The result depends on the manifest's order, not on the order of blobs in the outer archive. */
  lemma BlobOrderIrrelevant(t: Tree, open: Opener, manifest: seq<string>, a: seq<Blob>, b: seq<Blob>)
    requires DistinctNames(a) && DistinctNames(b)
    requires forall x :: x in a <==> x in b
    ensures Unpack(t, open, manifest, a) == Unpack(t, open, manifest, b)
  {
    var w := Wanted(manifest);
    var ca, cb := Collect(w, a), Collect(w, b);
    forall n
      ensures n in ca <==> n in cb
      ensures n in ca ==> ca[n] == cb[n]
    {
      if n in ca {
        CollectSubset(w, a, b, n);
      }
      if n in cb {
        CollectSubset(w, b, a, n);
      }
    }
    assert ca == cb;
  }

  /** The layers a successful unpack went through, in manifest order. */
  ghost predicate IsStack(open: Opener, manifest: seq<string>, payloads: map<string, bytes>, ls: seq<seq<Request>>) {
    && |ls| == |manifest|
    && forall i :: 0 <= i < |ls| ==>
      && Clean(manifest[i]) in payloads
      && var ball := open(manifest[i], payloads[Clean(manifest[i])]);
        ball.Some? && Reads(ball.value, ls[i])
  }

  /** A layer read to its end whose names are all accepted, and the requests they stand for. */
  ghost predicate Reads(ball: Tarball, l: seq<Request>) {
    && ball.complete
    && (forall j :: 0 <= j < |ball.entries| ==> Parse(ball.entries[j]).Some?)
    && l == Requests(ball.entries)
  }

  lemma {:induction false} UnpackIsStack(t: Tree, open: Opener, manifest: seq<string>, payloads: map<string, bytes>)
    returns (ls: seq<seq<Request>>)
    requires ExtractInOrder(t, open, manifest, payloads).ok
    ensures IsStack(open, manifest, payloads, ls)
    ensures RunLayers(t, ls) == ExtractInOrder(t, open, manifest, payloads)
    decreases |manifest|
  {
    if manifest == [] {
      ls := [];
    } else {
      var ball := open(manifest[0], payloads[Clean(manifest[0])]).value;
      ExtractIsRun(t, ball.entries, ball.complete);
      var o := Extract(t, ball.entries, ball.complete);
      var rest := UnpackIsStack(o.tree, open, manifest[1..], payloads);
      ls := [Requests(ball.entries)] + rest;
      assert ls[1..] == rest;
      forall i | 1 <= i < |ls|
        ensures ls[i] == rest[i - 1] && manifest[i] == manifest[1..][i - 1]
      {
      }
    }
  }

  /** Layers that are readable and run through are unpacked. */
  lemma {:induction false} StackUnpacks(t: Tree, open: Opener, manifest: seq<string>, payloads: map<string, bytes>,
                                        ls: seq<seq<Request>>)
    requires IsStack(open, manifest, payloads, ls) && RunLayers(t, ls).ok
    ensures ExtractInOrder(t, open, manifest, payloads) == RunLayers(t, ls)
    decreases |manifest|
  {
    if manifest != [] {
      var ball := open(manifest[0], payloads[Clean(manifest[0])]).value;
      assert Reads(ball, ls[0]);
      ExtractIsRun(t, ball.entries, ball.complete);
      assert IsStack(open, manifest[1..], payloads, ls[1..]);
      StackUnpacks(Run(t, ls[0]).tree, open, manifest[1..], payloads, ls[1..]);
    }
  }

  /** The payload of a name: the data of the last blob whose clean name it is. */
  ghost predicate IsPayload(blobs: seq<Blob>, name: string, data: bytes) {
    exists j :: IsLastBlob(blobs, name, j) && blobs[j].data == data
  }

  ghost predicate IsLastBlob(blobs: seq<Blob>, name: string, j: int) {
    0 <= j < |blobs| && Clean(blobs[j].name) == name && forall k :: j < k < |blobs| ==> Clean(blobs[k].name) != name
  }

  lemma PayloadSnoc(init: seq<Blob>, b: Blob, n: string, data: bytes, same: bool)
    requires same == (Clean(b.name) == n)
    ensures IsPayload(init + [b], n, data) <==> if same then b.data == data else IsPayload(init, n, data)
  {
    var all, k := init + [b], |init|;
    if same {
      assert IsLastBlob(all, n, k);
      assert forall j :: IsLastBlob(all, n, j) ==> j == k;
    } else {
      forall j
        ensures IsLastBlob(all, n, j) <==> IsLastBlob(init, n, j)
      {
        LastBlobSnoc(init, b, n, j);
      }
    }
  }

  lemma LastBlobSnoc(init: seq<Blob>, b: Blob, n: string, j: int)
    requires Clean(b.name) != n
    ensures IsLastBlob(init + [b], n, j) <==> IsLastBlob(init, n, j)
  {
    var all := init + [b];
    assert all[|init|] == b && forall k :: 0 <= k < |init| ==> all[k] == init[k];
  }

  /** What is collected for a wanted name is its payload. */
  lemma {:induction false} CollectExact(wanted: set<string>, blobs: seq<Blob>, n: string, data: bytes)
    requires n in wanted
    ensures n in Collect(wanted, blobs) && Collect(wanted, blobs)[n] == data <==> IsPayload(blobs, n, data)
    decreases |blobs|
  {
    if blobs != [] {
      var k := |blobs| - 1;
      assert blobs == blobs[..k] + [blobs[k]];
      CollectExact(wanted, blobs[..k], n, data);
      PayloadSnoc(blobs[..k], blobs[k], n, data, Clean(blobs[k].name) == n);
    }
  }

  /** Every layer the manifest names is in the archive and readable; `ls` are their requests. */
  ghost predicate Readable(open: Opener, manifest: seq<string>, blobs: seq<Blob>, ls: seq<seq<Request>>) {
    |ls| == |manifest| && forall i :: 0 <= i < |manifest| ==> LayerReadable(open, manifest[i], blobs, ls[i])
  }

  ghost predicate LayerReadable(open: Opener, name: string, blobs: seq<Blob>, l: seq<Request>) {
    exists data :: IsPayload(blobs, Clean(name), data) && open(name, data).Some? && Reads(open(name, data).value, l)
  }

  lemma ReadableIsStack(open: Opener, manifest: seq<string>, blobs: seq<Blob>, ls: seq<seq<Request>>)
    ensures Readable(open, manifest, blobs, ls) <==> IsStack(open, manifest, Collect(Wanted(manifest), blobs), ls)
  {
    var payloads := Collect(Wanted(manifest), blobs);
    if |ls| == |manifest| {
      forall i | 0 <= i < |manifest|
        ensures LayerReadable(open, manifest[i], blobs, ls[i]) <==>
          && Clean(manifest[i]) in payloads
          && var ball := open(manifest[i], payloads[Clean(manifest[i])]);
            ball.Some? && Reads(ball.value, ls[i])
      {
        var n := Clean(manifest[i]);
        assert n in Wanted(manifest);
        forall data
          ensures n in payloads && payloads[n] == data <==> IsPayload(blobs, n, data)
        {
          CollectExact(Wanted(manifest), blobs, n, data);
        }
      }
    }
  }

  // ------------------------------------------------------ when a run goes through

  /** No regular file among the first `n` prefixes of the path. */
  ghost predicate WayClear(t: Tree, p: Path, n: int) {
    forall k :: 0 <= k < n && k <= |p| && p[..k] in t ==> t[p[..k]] == Dir
  }

  /**
   From the nodes alone: no regular file is in the way of the entry's own name or
   of what it asks for, where a name's immediate parent is not looked at and a
   whiteout's target may itself be a file; and a file does not land on a directory.
   */
  ghost predicate Passable(t: Tree, r: Request) {
    && WayClear(t, r.own, |r.own| - 1)
    && match r.op
       case Whiteout(q) => WayClear(t, q, |q| - 1)
       case Opaque(q) => WayClear(t, q, |q| + 1)
       case MakeDir(q) => WayClear(t, q, |q| + 1)
       case WriteFile(q, _, _) => WayClear(t, q, |q|) && (q in t ==> t[q] != Dir)
       case Ignore => true
  }

  lemma WayClearExact(t: Tree, p: Path, n: int)
    requires n <= |p| + 1
    ensures FileAmong(t, p, n) <==> !WayClear(t, p, n)
  {
  }

  /** An entry is accepted exactly when it is passable. */
  lemma AcceptsExact(t: Tree, r: Request)
    requires WellFormed(t)
    ensures Accepts(t, r) <==> Passable(t, r)
  {
    ParentsOkExact(t, r.own);
    WayClearExact(t, r.own, |r.own| - 1);
    match r.op {
      case Whiteout(q) =>
        ParentsOkExact(t, q);
        WayClearExact(t, q, |q| - 1);
      case Opaque(q) =>
        ParentsOkExact(t, q);
        WayClearExact(t, q, |q| - 1);
        WayClearExact(t, q, |q| + 1);
      case MakeDir(q) =>
        WayClearExact(t, q, |q| + 1);
      case WriteFile(q, _, _) =>
        WayClearExact(t, q, |q|);
      case Ignore =>
    }
  }

  /** Every request is passable in the tree its predecessors leave. */
  ghost predicate RunsThrough(t: Tree, es: seq<Request>) {
    forall i :: 0 <= i < |es| ==> Passable(Run(t, es[..i]).tree, es[i])
  }

  lemma ThroughSnoc(t: Tree, init: seq<Request>, e: Request)
    ensures RunsThrough(t, init + [e]) <==> RunsThrough(t, init) && Passable(Run(t, init).tree, e)
  {
    var es, n := init + [e], |init|;
    assert es[..n] == init && es[n] == e;
    forall i | 0 <= i < n
      ensures es[..i] == init[..i] && es[i] == init[i]
    {
    }
    if RunsThrough(t, es) {
      assert Passable(Run(t, es[..n]).tree, es[n]);
      forall i | 0 <= i < n
        ensures Passable(Run(t, init[..i]).tree, init[i])
      {
        assert Passable(Run(t, es[..i]).tree, es[i]);
      }
    }
  }

  lemma {:induction false} RunOkExact(t: Tree, es: seq<Request>)
    requires WellFormed(t)
    ensures Run(t, es).ok <==> RunsThrough(t, es)
    decreases |es|
  {
    if es != [] {
      var n := |es| - 1;
      assert es == es[..n] + [es[n]];
      RunOkExact(t, es[..n]);
      RunSnoc(t, es[..n], es[n]);
      RunWellFormed(t, es[..n]);
      AcceptsExact(Run(t, es[..n]).tree, es[n]);
      ThroughSnoc(t, es[..n], es[n]);
    }
  }

  /**
   Unpacking succeeds if and only if the manifest names a layer, every layer it
   names is in the archive and readable to its end with acceptable names, and the
   requests of the layers in manifest order, each where its predecessors leave the
   tree, meet no file in the way and put no file on a directory.
   */
  lemma UnpackOkExact(t: Tree, open: Opener, manifest: seq<string>, blobs: seq<Blob>)
    requires WellFormed(t)
    ensures Unpack(t, open, manifest, blobs).ok <==>
      manifest != [] && exists ls :: Readable(open, manifest, blobs, ls) && RunsThrough(t, Flatten(ls))
  {
    var payloads := Collect(Wanted(manifest), blobs);
    if Unpack(t, open, manifest, blobs).ok {
      var ls := UnpackIsStack(t, open, manifest, payloads);
      ReadableIsStack(open, manifest, blobs, ls);
      StackIsFlat(t, ls);
      RunOkExact(t, Flatten(ls));
      assert Readable(open, manifest, blobs, ls) && RunsThrough(t, Flatten(ls));
    }
    if ls :| manifest != [] && Readable(open, manifest, blobs, ls) && RunsThrough(t, Flatten(ls)) {
      ReadableIsStack(open, manifest, blobs, ls);
      StackIsFlat(t, ls);
      RunOkExact(t, Flatten(ls));
      StackUnpacks(t, open, manifest, payloads, ls);
    }
  }

  /**
   Where an extraction stops: every entry before the refused one, or before the
   damaged end, has been applied, and the refused one has changed nothing.
   */
  lemma {:induction false} ExtractStops(t: Tree, es: seq<Entry>, complete: bool) returns (k: nat)
    ensures k <= |es| && forall i :: 0 <= i < k ==> Parse(es[i]).Some?
    ensures Run(t, Requests(es[..k])).ok && Extract(t, es, complete).tree == Run(t, Requests(es[..k])).tree
    ensures k < |es| ==> Parse(es[k]).None? || !Accepts(Extract(t, es, complete).tree, Parse(es[k]).value)
    ensures k == |es| ==> Extract(t, es, complete).ok == complete
    decreases |es|
  {
    k := 0;
    assert Requests(es[..0]) == [];
    if es != [] && Parse(es[0]).Some? && Accepts(t, Parse(es[0]).value) {
      var r := Parse(es[0]).value;
      var j := ExtractStops(Perform(t, r.op), es[1..], complete);
      k := j + 1;
      RequestsFront(es, j);
      RunFront(t, r, Requests(es[1..][..j]));
    }
  }

  lemma RequestsFront(es: seq<Entry>, j: nat)
    requires j < |es| && Parse(es[0]).Some? && forall i :: 0 <= i < j ==> Parse(es[1..][i]).Some?
    ensures forall i :: 0 <= i < j + 1 ==> Parse(es[i]).Some?
    ensures Requests(es[..j + 1]) == [Parse(es[0]).value] + Requests(es[1..][..j])
  {
    forall i | 1 <= i < j + 1
      ensures Parse(es[i]).Some?
    {
      assert es[1..][i - 1] == es[i];
    }
  }

  lemma RunFront(t: Tree, r: Request, rs: seq<Request>)
    requires Accepts(t, r)
    ensures Run(t, [r] + rs) == Run(Perform(t, r.op), rs)
  {
    assert ([r] + rs)[1..] == rs;
  }

  /** A failed unpack leaves the whole layers before the failing one, and the entries of that one before it stopped. */
  lemma {:induction false} UnpackStops(t: Tree, open: Opener, manifest: seq<string>, payloads: map<string, bytes>)
    returns (ls: seq<seq<Request>>, part: seq<Request>)
    ensures |ls| <= |manifest| && IsStack(open, manifest[..|ls|], payloads, ls)
    ensures RunLayers(t, ls + [part]).ok
    ensures ExtractInOrder(t, open, manifest, payloads).tree == RunLayers(t, ls + [part]).tree
    decreases |manifest|
  {
    ls, part := [], [];
    NothingDone(t);
    if manifest != [] && Clean(manifest[0]) in payloads {
      var ball := open(manifest[0], payloads[Clean(manifest[0])]);
      if ball.Some? {
        var b := ball.value;
        ExtractIsRun(t, b.entries, b.complete);
        var o := Extract(t, b.entries, b.complete);
        if o.ok {
          var l := Requests(b.entries);
          var more;
          more, part := UnpackStops(o.tree, open, manifest[1..], payloads);
          ls := [l] + more;
          StackCons(open, manifest, payloads, l, more);
          assert (ls + [part])[1..] == more + [part];
        } else {
          part := FailedLayer(t, b);
        }
      }
    }
  }

  lemma FailedLayer(t: Tree, b: Tarball) returns (part: seq<Request>)
    ensures RunLayers(t, [] + [part]) == Outcome(Extract(t, b.entries, b.complete).tree, true)
  {
    var k := ExtractStops(t, b.entries, b.complete);
    part := Requests(b.entries[..k]);
    OnePart(t, part);
  }

  lemma NothingDone(t: Tree)
    ensures RunLayers(t, [] + [[]]) == Outcome(t, true)
  {
    OnePart(t, []);
  }

  lemma OnePart(t: Tree, part: seq<Request>)
    ensures RunLayers(t, [] + [part]) == Run(t, part)
  {
    var ls := [] + [part];
    assert ls == [part] && ls[1..] == [];
  }

  lemma StackCons(open: Opener, manifest: seq<string>, payloads: map<string, bytes>, l: seq<Request>,
                  more: seq<seq<Request>>)
    requires manifest != [] && Clean(manifest[0]) in payloads && |more| < |manifest|
    requires open(manifest[0], payloads[Clean(manifest[0])]).Some?
    requires Reads(open(manifest[0], payloads[Clean(manifest[0])]).value, l)
    requires IsStack(open, manifest[1..][..|more|], payloads, more)
    ensures IsStack(open, manifest[..|more| + 1], payloads, [l] + more)
  {
    var names := manifest[1..][..|more|];
    assert manifest[..|more| + 1] == [manifest[0]] + names;
    StackOneMore(open, manifest[0], names, payloads, l, more);
  }

  lemma StackOneMore(open: Opener, name: string, names: seq<string>, payloads: map<string, bytes>, l: seq<Request>,
                     more: seq<seq<Request>>)
    requires Clean(name) in payloads && open(name, payloads[Clean(name)]).Some?
    requires Reads(open(name, payloads[Clean(name)]).value, l)
    requires IsStack(open, names, payloads, more)
    ensures IsStack(open, [name] + names, payloads, [l] + more)
  {
  }

  /**
   Unpacking an archive: on success the tree is the overlay of the manifest's
   layers in manifest order, at every path where no layer's own whiteouts undo
   what it gives; so everywhere when each layer keeps its whiteouts first.
   */
  lemma UnpackIsOverlay(t: Tree, open: Opener, manifest: seq<string>, blobs: seq<Blob>, p: Path)
    returns (ls: seq<seq<Request>>)
    ensures var o := Unpack(t, open, manifest, blobs); o.ok ==>
      && IsStack(open, manifest, Collect(Wanted(manifest), blobs), ls)
      && ((forall i :: 0 <= i < |ls| ==> KeepsOwn(ls[i], p)) ==> Overlay(t, ViewsOf(ls, p), o.tree, p))
      && ((forall i :: 0 <= i < |ls| ==> WhiteoutsFirst(ls[i])) ==> Overlay(t, ViewsOf(ls, p), o.tree, p))
  {
    if !Unpack(t, open, manifest, blobs).ok {
      return [];
    }
    ls := UnpackIsStack(t, open, manifest, Collect(Wanted(manifest), blobs));
    forall i | 0 <= i < |ls| && WhiteoutsFirst(ls[i])
      ensures KeepsOwn(ls[i], p)
    {
      WhiteoutsFirstSuffices(ls[i]);
      NoSelfHidingSuffices(ls[i], p);
    }
    if forall i :: 0 <= i < |ls| ==> KeepsOwn(ls[i], p) {
      StackIsOverlay(t, ls, p);
    }
  }

  /** The destination directory, mutated in place. */
  class RootFs {
    var tree: Tree

    constructor (initial: Tree)
      ensures tree == initial
    {
      tree := initial;
    }

    /** clearDirectoryContents: an opaque whiteout empties a directory child by child. */
    method ClearDirectoryContents(dir: Path) returns (ok: bool)
      requires WellFormed(tree)
      modifies this
      ensures ok <==> !FileAmong(old(tree), dir, |dir| + 1)
      ensures tree == if ok then Cleared(old(tree), dir) else old(tree)
    {
      if exists k :: 0 <= k < |dir| + 1 && IsFile(tree, dir[..k]) {
        return false;
      }
      var children := ChildrenOf(tree, dir);
      var rest := children;
      assert Without(tree, children - rest) == tree;
      while rest != {}
        invariant rest <= children
        invariant tree == Without(old(tree), children - rest)
        decreases rest
      {
        var c :| c in rest;
        WithoutStep(old(tree), children - rest, c);
        tree := Removed(tree, c);
        rest := rest - {c};
        assert children - rest == children - (rest + {c}) + {c};
      }
      assert children - rest == children;
      WithoutChildren(old(tree), dir);
      return true;
    }

    /** os.MkdirAll: the missing directories of the path, from the top down. */
    method MkdirAll(dir: Path) returns (ok: bool)
      requires WellFormed(tree)
      modifies this
      ensures ok <==> !FileAmong(old(tree), dir, |dir| + 1)
      ensures tree == if ok then WithDirs(old(tree), dir) else old(tree)
    {
      NoDirsYet(tree, dir);
      var k := 0;
      while k <= |dir|
        invariant 0 <= k <= |dir| + 1 && !FileAmong(old(tree), dir, k)
        invariant tree == WithDirsUpTo(old(tree), dir, k)
      {
        var p := dir[..k];
        if IsFile(tree, p) {
          BelowOldDirs(old(tree), dir, k);
          return false;
        }
        if p !in tree {
          tree := tree[p := Dir];
        }
        NextDir(old(tree), dir, k);
        k := k + 1;
      }
      AllDirs(old(tree), dir);
      return true;
    }

    /** A regular file: its parents, then the file opened with O_CREATE and O_TRUNC. */
    method WriteRegular(path: Path, data: bytes, exec: bool) returns (ok: bool)
      requires WellFormed(tree)
      modifies this
      ensures ok <==> Feasible(old(tree), WriteFile(path, data, exec))
      ensures tree == if ok then Perform(old(tree), WriteFile(path, data, exec)) else old(tree)
    {
      if path != [] {
        ParentFiles(tree, path);
        var made := MkdirAll(path[..|path| - 1]);
        if !made {
          return false;
        }
        ExistingParents(old(tree), path);
      }
      if path in tree && tree[path] == Dir {
        return false;
      }
      var mode := if path in tree then tree[path].exec else exec;
      tree := tree[path := File(data, mode)];
      return true;
    }

    /** One turn of the loop in ExtractLayerTarball, once the entry's names are accepted lexically. */
    method ExtractEntry(r: Request) returns (ok: bool)
      requires WellFormed(tree)
      modifies this
      ensures ok <==> Accepts(old(tree), r)
      ensures tree == if ok then Perform(old(tree), r.op) else old(tree)
    {
      if !ParentsOk(tree, r.own) {
        return false;
      }
      match r.op {
        case Whiteout(path) =>
          ok := ParentsOk(tree, path);
          if ok {
            tree := Removed(tree, path);
          }
        case Opaque(path) =>
          ok := ParentsOk(tree, path);
          if ok {
            ok := ClearDirectoryContents(path);
          }
        case MakeDir(path) =>
          ok := MkdirAll(path);
        case WriteFile(path, data, exec) =>
          ok := WriteRegular(path, data, exec);
        case Ignore =>
          ok := true;
      }
    }

    /** ExtractLayerTarball on a tree without links. */
    method ExtractLayerTarball(ball: Tarball) returns (ok: bool)
      requires WellFormed(tree)
      modifies this
      ensures WellFormed(tree)
      ensures Outcome(tree, ok) == Extract(old(tree), ball.entries, ball.complete)
    {
      var i := 0;
      while i < |ball.entries|
        invariant 0 <= i <= |ball.entries|
        invariant WellFormed(tree)
        invariant Extract(old(tree), ball.entries, ball.complete) == Extract(tree, ball.entries[i..], ball.complete)
      {
        ghost var todo := ball.entries[i..];
        assert todo[0] == ball.entries[i] && todo[1..] == ball.entries[i + 1..];
        match Parse(ball.entries[i]) {
          case None =>
            return false;
          case Some(r) =>
            ghost var before := tree;
            var extracted := ExtractEntry(r);
            if !extracted {
              return false;
            }
            StepWellFormed(before, r);
        }
        i := i + 1;
      }
      return ball.complete;
    }

    /** The first half of UnpackOCIArchive: cache the payload of every layer the manifest names. */
    static method CacheLayers(manifest: seq<string>, blobs: seq<Blob>) returns (layerData: map<string, bytes>)
      ensures layerData == Collect(Wanted(manifest), blobs)
    {
      var layerSet: set<string> := {};
      for i := 0 to |manifest|
        invariant layerSet == Wanted(manifest[..i])
      {
        assert manifest[..i + 1] == manifest[..i] + [manifest[i]];
        WantedSnoc(manifest[..i], manifest[i]);
        layerSet := layerSet + {Clean(manifest[i])};
      }
      assert manifest[..|manifest|] == manifest;
      layerData := map[];
      for i := 0 to |blobs|
        invariant layerData == Collect(layerSet, blobs[..i])
      {
        assert blobs[..i + 1][..i] == blobs[..i];
        if Clean(blobs[i].name) in layerSet {
          layerData := layerData[Clean(blobs[i].name) := blobs[i].data];
        }
      }
      assert blobs[..|blobs|] == blobs;
    }

    /** The second half: extract the cached layers strictly in manifest order. */
    method ExtractLayers(open: Opener, manifest: seq<string>, layerData: map<string, bytes>) returns (ok: bool)
      requires WellFormed(tree)
      modifies this
      ensures WellFormed(tree)
      ensures Outcome(tree, ok) == ExtractInOrder(old(tree), open, manifest, layerData)
    {
      var i := 0;
      while i < |manifest|
        invariant 0 <= i <= |manifest| && WellFormed(tree)
        invariant ExtractInOrder(old(tree), open, manifest, layerData)
          == ExtractInOrder(tree, open, manifest[i..], layerData)
      {
        var todo := manifest[i..];
        assert todo[0] == manifest[i] && todo[1..] == manifest[i + 1..];
        if Clean(manifest[i]) !in layerData {
          return false;
        }
        var ball := open(manifest[i], layerData[Clean(manifest[i])]);
        if ball.None? {
          return false;
        }
        var extracted := ExtractLayerTarball(ball.value);
        if !extracted {
          return false;
        }
        i := i + 1;
      }
      return true;
    }

    method UnpackOCIArchive(open: Opener, manifest: seq<string>, blobs: seq<Blob>) returns (ok: bool)
      requires WellFormed(tree)
      modifies this
      ensures WellFormed(tree)
      ensures Outcome(tree, ok) == Unpack(old(tree), open, manifest, blobs)
    {
      if manifest == [] {
        return false;
      }
      var layerData := CacheLayers(manifest, blobs);
      ok := ExtractLayers(open, manifest, layerData);
    }
  }

  /** The tree once the first `k` of the path's prefixes are directories. */
  function WithDirsUpTo(t: Tree, q: Path, k: nat): Tree
    requires k <= |q| + 1
  {
    if k == 0 then t else WithDirs(t, q[..k - 1])
  }

  lemma NoDirsYet(t: Tree, q: Path)
    ensures WithDirsUpTo(t, q, 0) == t
  {
  }

  lemma AllDirs(t: Tree, q: Path)
    ensures WithDirsUpTo(t, q, |q| + 1) == WithDirs(t, q)
  {
    assert q[..|q|] == q;
  }

  lemma NextDir(t: Tree, q: Path, k: nat)
    requires k <= |q|
    ensures var u := WithDirsUpTo(t, q, k);
      WithDirsUpTo(t, q, k + 1) == if q[..k] in u then u else u[q[..k] := Dir]
    ensures IsFile(WithDirsUpTo(t, q, k), q[..k]) <==> IsFile(t, q[..k])
  {
    PrefixesGrow(q, k);
  }

  lemma PrefixesGrow(q: Path, k: nat)
    requires k <= |q|
    ensures Prefixes(q[..k]) == (if k == 0 then {} else Prefixes(q[..k - 1])) + {q[..k]}
    ensures k > 0 ==> q[..k] !in Prefixes(q[..k - 1])
  {
    forall p
      ensures p in Prefixes(q[..k]) <==> p == q[..k] || (k > 0 && p in Prefixes(q[..k - 1]))
    {
      PrefixFacts(p, q[..k]);
      if k > 0 {
        PrefixFacts(p, q[..k - 1]);
        assert p <= q[..k] <==> p == q[..k] || p <= q[..k - 1];
      }
    }
  }

  /** Above a file all directories are there already. */
  lemma BelowOldDirs(t: Tree, q: Path, k: nat)
    requires WellFormed(t) && k <= |q| && IsFile(WithDirsUpTo(t, q, k), q[..k])
    ensures WithDirsUpTo(t, q, k) == t && FileAmong(t, q, |q| + 1)
  {
    NextDir(t, q, k);
    assert IsFile(t, q[..k]);
    if k > 0 {
      forall p | p in Prefixes(q[..k - 1])
        ensures p in t
      {
        PrefixFacts(p, q[..k - 1]);
        assert p == q[..k][..|p|];
      }
    }
  }

  lemma ParentFiles(t: Tree, q: Path)
    requires q != []
    ensures FileAmong(t, q[..|q| - 1], |q|) <==> FileAmong(t, q, |q|)
  {
    var d := q[..|q| - 1];
    assert forall k :: 0 <= k < |q| ==> d[..k] == q[..k];
  }

  /** A directory in the way means its parents were there already. */
  lemma ExistingParents(t: Tree, q: Path)
    requires WellFormed(t) && q != []
    ensures q in WithParents(t, q) <==> q in t
    ensures q in t ==> WithParents(t, q) == t && WithParents(t, q)[q] == t[q]
  {
    var d := q[..|q| - 1];
    PrefixFacts(q, d);
    if q in t {
      forall p | p in Prefixes(d)
        ensures p in t
      {
        PrefixFacts(p, d);
        assert p == q[..|p|];
      }
    }
  }

  lemma WantedSnoc(manifest: seq<string>, m: string)
    ensures Wanted(manifest + [m]) == Wanted(manifest) + {Clean(m)}
  {
    var all := manifest + [m];
    forall n
      ensures n in Wanted(all) <==> n in Wanted(manifest) + {Clean(m)}
    {
      if n in Wanted(manifest) {
        var i :| 0 <= i < |manifest| && Clean(manifest[i]) == n;
        assert all[i] == manifest[i];
      }
      assert all[|manifest|] == m;
    }
  }

  function ChildrenOf(t: Tree, dir: Path): set<Path> {
    set p | p in t && |p| == |dir| + 1 && dir < p :: p
  }

  /** The tree after removing each path of `cs` and all below it. */
  function Without(t: Tree, cs: set<Path>): Tree {
    map p | p in t && (forall c :: c in cs ==> !(c <= p)) :: t[p]
  }

  lemma WithoutStep(t: Tree, cs: set<Path>, c: Path)
    ensures Removed(Without(t, cs), c) == Without(t, cs + {c})
  {
  }

  /** Removing every child of a directory clears it. */
  lemma WithoutChildren(t: Tree, dir: Path)
    requires WellFormed(t)
    ensures Without(t, ChildrenOf(t, dir)) == Cleared(t, dir)
  {
    forall p | p in t
      ensures (forall c :: c in ChildrenOf(t, dir) ==> !(c <= p)) <==> !(dir < p)
    {
      if dir < p {
        var c := p[..|dir| + 1];
        assert |p| == |dir| + 1 ==> c == p;
        assert c in t;
        assert dir < c && c in ChildrenOf(t, dir) && c <= p;
      }
    }
  }
}
