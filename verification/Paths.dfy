/**
 Lexical paths: the parts of Go's `strings` and `path/filepath` that
 internal/pkgd relies on, and the lexical and parent checks of SafePathClean.
 */
module Paths {
  import opened Common
  import opened Strings

  // ---------------------------------------------------------------- strings

  ghost predicate SlashFree(s: string) {
    '/' !in s
  }

  ghost predicate AllSlashFree(cs: seq<string>) {
    forall i :: 0 <= i < |cs| ==> SlashFree(cs[i])
  }

  /** strings.Split(s, "/"). */
  function Split(s: string): (r: seq<string>)
    ensures r != [] && AllSlashFree(r)
  {
    if s == "" then [""]
    else
      var r := Split(s[1..]);
      if s[0] == '/' then [""] + r else [[s[0]] + r[0]] + r[1..]
  }

  /** strings.Join(cs, "/"). */
  function Join(cs: seq<string>): string {
    if cs == [] then ""
    else if |cs| == 1 then cs[0]
    else cs[0] + "/" + Join(cs[1..])
  }

  lemma {:induction false} SplitOfComponent(c: string, rest: string)
    requires SlashFree(c)
    ensures Split(c + "/" + rest) == [c] + Split(rest)
    ensures Split(c) == [c]
  {
    if c == "" {
      assert c + "/" + rest == "/" + rest;
      assert ("/" + rest)[1..] == rest;
    } else {
      SplitOfComponent(c[1..], rest);
      assert c + "/" + rest == [c[0]] + (c[1..] + "/" + rest);
      assert (c + "/" + rest)[1..] == c[1..] + "/" + rest;
      assert [c[0]] + c[1..] == c;
    }
  }

  /** Splitting undoes joining on slash-free components. */
  lemma {:induction false} SplitOfJoin(cs: seq<string>)
    requires cs != [] && AllSlashFree(cs)
    ensures Split(Join(cs)) == cs
  {
    if |cs| == 1 {
      SplitOfComponent(cs[0], "");
    } else {
      SplitOfJoin(cs[1..]);
      SplitOfComponent(cs[0], Join(cs[1..]));
      assert cs == [cs[0]] + cs[1..];
    }
  }

  lemma {:induction false} JoinConcat(a: seq<string>, b: seq<string>)
    requires a != [] && b != []
    ensures Join(a + b) == Join(a) + "/" + Join(b)
  {
    if |a| == 1 {
      assert a + b == [a[0]] + b;
      assert (a + b)[1..] == b;
    } else {
      JoinConcat(a[1..], b);
      assert (a + b)[1..] == a[1..] + b;
    }
  }

  lemma PrependConcat(c: char, l: seq<string>, r: seq<string>)
    requires l != []
    ensures [[c] + (l + r)[0]] + (l + r)[1..] == ([[c] + l[0]] + l[1..]) + r
    ensures [""] + (l + r) == ([""] + l) + r
  {
  }

  lemma SplitStep(s: string, c: char, rest: string)
    requires s == [c] + rest
    ensures Split(s) == if c == '/' then [""] + Split(rest) else [[c] + Split(rest)[0]] + Split(rest)[1..]
  {
  }

  lemma {:induction false} SplitConcat(a: string, b: string)
    ensures Split(a + "/" + b) == Split(a) + Split(b)
    decreases |a|
  {
    var whole := a + "/" + b;
    if a == "" {
      assert whole == "" + "/" + b;
      SplitOfComponent("", b);
    } else {
      var rest := a[1..] + "/" + b;
      assert whole == [a[0]] + rest;
      SplitConcat(a[1..], b);
      SplitStep(whole, a[0], rest);
      SplitStep(a, a[0], a[1..]);
      PrependConcat(a[0], Split(a[1..]), Split(b));
    }
  }

  // ---------------------------------------------------------- filepath.Clean

  /** An ordinary path component: what a directory entry can be called. */
  predicate Ordinary(c: string) {
    c != "" && c != "." && c != ".." && '/' !in c
  }

  predicate AllOrdinary(p: Path) {
    forall i :: 0 <= i < |p| ==> Ordinary(p[i])
  }

  /** Where a component walk stands: `ups` steps above its start, then down `names`. */
  datatype Walk = Walk(ups: nat, names: Path)

  function StepWalk(w: Walk, part: string, rooted: bool): Walk {
    if part == "" || part == "." then w
    else if part == ".." then
      if w.names != [] then w.(names := w.names[..|w.names| - 1])
      else if rooted then w
      else w.(ups := w.ups + 1)
    else w.(names := w.names + [part])
  }

  function WalkFrom(w: Walk, parts: seq<string>, rooted: bool): Walk
    decreases |parts|
  {
    if parts == [] then w else WalkFrom(StepWalk(w, parts[0], rooted), parts[1..], rooted)
  }

  const START := Walk(0, [])

  predicate Rooted(s: string) {
    HasPrefix(s, "/")
  }

  function WalkOf(s: string): Walk {
    WalkFrom(START, Split(s), Rooted(s))
  }

  function Ups(n: nat): (r: seq<string>)
    ensures |r| == n && forall i :: 0 <= i < n ==> r[i] == ".."
  {
    seq(n, i => "..")
  }

  /** The text of a finished walk. */
  function Render(w: Walk, rooted: bool): string {
    var body := Join(Ups(w.ups) + w.names);
    if rooted then "/" + body else if body == "" then "." else body
  }

  /** filepath.Clean. */
  function Clean(s: string): string {
    Render(WalkOf(s), Rooted(s))
  }

  /** filepath.Join(a, b) for a non-empty `a`: an empty `b` is dropped. */
  function JoinClean(a: string, b: string): string {
    if b == "" then Clean(a) else Clean(a + "/" + b)
  }

  /** filepath.Dir: everything up to the last slash, cleaned. */
  function DirOf(s: string): string {
    var parts := Split(s);
    if |parts| == 1 then "." else Clean(Join(parts[..|parts| - 1]) + "/")
  }

  function DropTrailingEmpty(parts: seq<string>): seq<string> {
    if parts != [] && parts[|parts| - 1] == "" then DropTrailingEmpty(parts[..|parts| - 1]) else parts
  }

  /** filepath.Base: the last component after trailing slashes are dropped. */
  function BaseOf(s: string): string {
    if s == "" then "."
    else
      var parts := DropTrailingEmpty(Split(s));
      if parts == [] then "/" else parts[|parts| - 1]
  }

  // ------------------------------------------------------ facts about walks

  lemma {:induction false} WalkConcat(w: Walk, a: seq<string>, b: seq<string>, rooted: bool)
    ensures WalkFrom(w, a + b, rooted) == WalkFrom(WalkFrom(w, a, rooted), b, rooted)
    decreases |a|
  {
    if a == [] {
      assert a + b == b;
    } else {
      assert (a + b)[1..] == a[1..] + b;
      WalkConcat(StepWalk(w, a[0], rooted), a[1..], b, rooted);
    }
  }

  /** A walk only ever holds ordinary names, and a rooted one never climbs. */
  lemma {:induction false} WalkOrdinary(w: Walk, parts: seq<string>, rooted: bool)
    requires AllOrdinary(w.names) && AllSlashFree(parts)
    ensures AllOrdinary(WalkFrom(w, parts, rooted).names)
    ensures rooted ==> WalkFrom(w, parts, rooted).ups == w.ups
    decreases |parts|
  {
    if parts != [] {
      WalkOrdinary(StepWalk(w, parts[0], rooted), parts[1..], rooted);
    }
  }

  /** Ordinary components are walked verbatim. */
  lemma {:induction false} WalkVerbatim(w: Walk, parts: seq<string>, rooted: bool)
    requires AllOrdinary(parts)
    ensures WalkFrom(w, parts, rooted) == w.(names := w.names + parts)
    decreases |parts|
  {
    if parts == [] {
      assert w.names + parts == w.names;
    } else {
      WalkVerbatim(StepWalk(w, parts[0], rooted), parts[1..], rooted);
      assert w.names + [parts[0]] + parts[1..] == w.names + parts;
    }
  }

  /** Depth of a component walk that is allowed to go negative. */
  function Depth(parts: seq<string>): int {
    if parts == [] then 0
    else
      var c := parts[|parts| - 1];
      Depth(parts[..|parts| - 1]) + (if c == "" || c == "." then 0 else if c == ".." then -1 else 1)
  }

  /** The walk never rises above the directory it starts from. */
  ghost predicate StaysBelow(parts: seq<string>) {
    forall k :: 0 <= k <= |parts| ==> Depth(parts[..k]) >= 0
  }

  lemma WalkSnoc(init: seq<string>, c: string)
    ensures WalkFrom(START, init + [c], false) == StepWalk(WalkFrom(START, init, false), c, false)
  {
    WalkConcat(START, init, [c], false);
    assert [c][1..] == [];
  }

  lemma StaysBelowSnoc(init: seq<string>, c: string)
    ensures StaysBelow(init + [c]) <==> StaysBelow(init) && Depth(init + [c]) >= 0
  {
    var parts := init + [c];
    forall k | 0 <= k <= |init|
      ensures Depth(parts[..k]) == Depth(init[..k])
    {
      assert parts[..k] == init[..k];
    }
    assert parts[..|parts|] == parts;
    if !StaysBelow(init) {
      var k :| 0 <= k <= |init| && Depth(init[..k]) < 0;
      assert Depth(parts[..k]) < 0;
    }
  }

  lemma {:induction false} WalkDepth(parts: seq<string>)
    ensures |WalkFrom(START, parts, false).names| - WalkFrom(START, parts, false).ups == Depth(parts)
    ensures WalkFrom(START, parts, false).ups == 0 <==> StaysBelow(parts)
    decreases |parts|
  {
    if parts == [] {
      assert parts[..0] == [];
    } else {
      var init, c := parts[..|parts| - 1], parts[|parts| - 1];
      assert init + [c] == parts;
      WalkDepth(init);
      WalkSnoc(init, c);
      StaysBelowSnoc(init, c);
    }
  }

  // -------------------------------------------------- facts about Clean text

  lemma {:induction false} JoinNonEmpty(cs: seq<string>)
    requires cs != [] && forall i :: 0 <= i < |cs| ==> cs[i] != ""
    ensures Join(cs) != "" && Join(cs)[0] == cs[0][0]
  {
  }

  lemma FirstCharOrdinary(c: string)
    requires SlashFree(c) && c != ""
    ensures c[0] != '/'
  {
  }

  /** The text of a non-empty component list: relative, and split back into the list. */
  lemma JoinedText(cs: seq<string>)
    requires cs != [] && forall i :: 0 <= i < |cs| ==> cs[i] != "" && SlashFree(cs[i])
    ensures Join(cs) != "" && !Rooted(Join(cs)) && Split(Join(cs)) == cs
  {
    JoinNonEmpty(cs);
    FirstCharOrdinary(cs[0]);
    SplitOfJoin(cs);
  }

  /** Splitting a cleaned relative path gives back the walk it came from. */
  lemma CleanRelative(s: string)
    requires !Rooted(s)
    ensures var w := WalkOf(s);
      && AllOrdinary(w.names)
      && (Ups(w.ups) + w.names != [] ==> Clean(s) == Join(Ups(w.ups) + w.names) && Split(Clean(s)) == Ups(w.ups) + w.names)
      && (Ups(w.ups) + w.names == [] ==> Clean(s) == ".")
      && !Rooted(Clean(s))
  {
    var w := WalkOf(s);
    WalkOrdinary(START, Split(s), false);
    var cs := Ups(w.ups) + w.names;
    if cs != [] {
      assert forall i :: 0 <= i < |cs| ==> cs[i] != "" && SlashFree(cs[i]);
      JoinedText(cs);
    } else {
      assert Clean(s) == "." && "."[0] != "/"[0];
    }
  }

  /** An absolute path spelled by components is walked as those components. */
  lemma AbsoluteWalk(at: Path)
    requires AllOrdinary(at)
    ensures Rooted("/" + Join(at)) && WalkFrom(START, Split("/" + Join(at)), true) == Walk(0, at)
  {
    SplitStep("/" + Join(at), '/', Join(at));
    var parts := [""] + Split(Join(at));
    assert parts[1..] == Split(Join(at));
    assert WalkFrom(START, parts, true) == WalkFrom(START, Split(Join(at)), true);
    if at == [] {
      assert [""][1..] == [];
    } else {
      SplitOfJoin(at);
      WalkVerbatim(START, at, true);
      assert [] + at == at;
    }
  }

  lemma CleanRooted(s: string)
    requires Rooted(s)
    ensures AllOrdinary(WalkOf(s).names) && WalkOf(s).ups == 0
    ensures Clean(s) == "/" + Join(WalkOf(s).names)
    ensures WalkOf(Clean(s)) == WalkOf(s) && Rooted(Clean(s))
  {
    var w := WalkOf(s);
    WalkOrdinary(START, Split(s), true);
    assert Ups(0) + w.names == w.names;
    AbsoluteWalk(w.names);
  }

  /** Joining more text to an absolute path walks on from its components. */
  lemma JoinAbsolute(at: Path, tail: string, n: Path)
    requires AllOrdinary(at) && tail != "" && WalkFrom(Walk(0, at), Split(tail), true) == Walk(0, at + n)
    ensures JoinClean("/" + Join(at), tail) == "/" + Join(at + n)
  {
    var text := "/" + Join(at);
    AbsoluteWalk(at);
    SplitConcat(text, tail);
    WalkConcat(START, Split(text), Split(tail), true);
    assert Rooted(text + "/" + tail);
    assert Ups(0) + (at + n) == at + n;
  }

  // ------------------------------------------------------------ SafePathClean

  /** What lstat says about a path in a tree without symbolic links. */
  datatype Stat = Missing | Present | Unreadable

  datatype PathError = EmptyPath | Traversal | EscapesRoot | ParentUnreadable

  datatype PathResult = Target(path: string) | Rejected(error: PathError)

  /** The lexical verdict: where below the destination an entry name points, if anywhere. */
  function Resolve(rel: string): Option<Path> {
    if rel == "" || Rooted(rel) || WalkOf(rel).ups > 0 then None else Some(WalkOf(rel).names)
  }

  /** The refusals of absolute names and of names that climb, on the cleaned text. */
  predicate LooksLikeTraversal(cleanRel: string) {
    HasPrefix(cleanRel, "/") || HasPrefix(cleanRel, "../") || cleanRel == ".."
  }

  lemma TraversalTextExact(rel: string)
    requires rel != ""
    ensures LooksLikeTraversal(Clean(rel)) <==> Rooted(rel) || WalkOf(rel).ups > 0
  {
    if Rooted(rel) {
      CleanRooted(rel);
    } else {
      CleanRelative(rel);
      var w := WalkOf(rel);
      var cs := Ups(w.ups) + w.names;
      if w.ups > 0 {
        assert cs[0] == "..";
        if |cs| > 1 {
          assert Join(cs) == ".." + "/" + Join(cs[1..]);
          assert ".." + "/" + Join(cs[1..]) == "../" + Join(cs[1..]);
        }
      } else if cs != [] {
        var c := Clean(rel);
        assert cs[0] == w.names[0];
        assert Split(c)[0] != "..";
        assert HasPrefix(c, "../") ==> c == ".." + "/" + c[3..];
        if HasPrefix(c, "../") {
          SplitOfComponent("..", c[3..]);
        }
        SplitOfComponent("..", "");
      }
    }
  }

  /** filepath.Join(dest, rel) after both are cleaned, spelled by components. */
  lemma JoinedTarget(dest: string, rel: string)
    requires Rooted(dest) && Resolve(rel).Some?
    ensures JoinClean(Clean(dest), Clean(rel)) == "/" + Join(WalkOf(dest).names + Resolve(rel).value)
    ensures AllOrdinary(WalkOf(dest).names + Resolve(rel).value)
  {
    var d, n := WalkOf(dest).names, Resolve(rel).value;
    CleanRooted(dest);
    CleanedParts(rel);
    if n == [] {
      assert ["."][1..] == [];
      assert WalkFrom(Walk(0, d), ["."], true) == WalkFrom(StepWalk(Walk(0, d), ".", true), [], true);
      assert d + n == d;
    } else {
      WalkVerbatim(Walk(0, d), n, true);
    }
    JoinAbsolute(d, Clean(rel), n);
  }

  /** The containment check on the joined text. */
  predicate Contained(target: string, cleanDest: string) {
    HasPrefix(target, cleanDest + "/") || target == cleanDest
  }

  /** For a destination other than "/", the containment check never rejects a lexically accepted name. */
  lemma ContainmentIsRedundant(dest: string, rel: string)
    requires Rooted(dest) && Clean(dest) != "/" && Resolve(rel).Some?
    ensures Contained(JoinClean(Clean(dest), Clean(rel)), Clean(dest))
  {
    var d, n := WalkOf(dest).names, Resolve(rel).value;
    CleanRooted(dest);
    JoinedTarget(dest, rel);
    assert d != [];
    if n == [] {
      assert d + n == d;
    } else {
      JoinConcat(d, n);
      assert "/" + Join(d + n) == ("/" + Join(d) + "/") + Join(n);
    }
  }

  /** With destination "/" that same check turns away everything but the destination itself. */
  lemma ContainmentAtRoot(dest: string, rel: string)
    requires Rooted(dest) && Clean(dest) == "/" && Resolve(rel).Some?
    ensures Contained(JoinClean(Clean(dest), Clean(rel)), Clean(dest)) <==> Resolve(rel).value == []
  {
    var d, n := WalkOf(dest).names, Resolve(rel).value;
    CleanRooted(dest);
    JoinedTarget(dest, rel);
    assert |Join(d)| == 0;
    if d != [] {
      JoinNonEmpty(d);
    }
    assert d == [];
    assert d + n == n;
    if n != [] {
      JoinNonEmpty(n);
      FirstCharOrdinary(n[0]);
      assert ("/" + Join(n))[1] == Join(n)[0] != '/';
    }
  }

  /** With destination "/" the ordinary name "a" is turned away. */
  lemma RootRefusesOrdinary()
    ensures Resolve("a") == Some(["a"]) && !Contained(JoinClean(Clean("/"), Clean("a")), Clean("/"))
  {
    SplitOfComponent("a", "");
    WalkVerbatim(START, ["a"], false);
    assert [] + ["a"] == ["a"];
    assert Join([]) == "";
    AbsoluteWalk([]);
    assert "/" + "" == "/";
    CleanRooted("/");
    ContainmentAtRoot("/", "a");
  }

  /** Lstat of the i-th proper ancestor of the target (ancestors count from the destination down). */
  function Ancestor(dest: string, names: Path, i: nat): string
    requires i <= |names|
  {
    "/" + Join(WalkOf(dest).names + names[..i])
  }

  /** Walking the parents down stops at the first missing one; before it, none may be unreadable. */
  ghost predicate ParentsInspectable(dest: string, names: Path, lstat: string -> Stat) {
    forall i :: 1 <= i < |names| && lstat(Ancestor(dest, names, i)) == Unreadable ==>
      exists j :: 1 <= j < i && lstat(Ancestor(dest, names, j)) == Missing
  }

  /** filepath.Join of an absolute path and one ordinary component. */
  lemma JoinComponent(at: Path, c: string)
    requires AllOrdinary(at) && Ordinary(c)
    ensures JoinClean("/" + Join(at), c) == "/" + Join(at + [c])
  {
    SplitOfComponent(c, "");
    WalkVerbatim(Walk(0, at), [c], true);
    JoinAbsolute(at, c, [c]);
  }

  lemma NextAncestor(dest: string, names: Path, i: nat)
    requires Rooted(dest) && AllOrdinary(names) && i < |names|
    ensures JoinClean(Ancestor(dest, names, i), names[i]) == Ancestor(dest, names, i + 1)
  {
    CleanRooted(dest);
    var at := WalkOf(dest).names + names[..i];
    JoinComponent(at, names[i]);
    assert at + [names[i]] == WalkOf(dest).names + names[..i + 1];
  }

  lemma FirstAncestor(dest: string, names: Path)
    requires Rooted(dest)
    ensures Clean(dest) == Ancestor(dest, names, 0)
  {
    CleanRooted(dest);
    assert WalkOf(dest).names + names[..0] == WalkOf(dest).names;
  }

  /** All ancestors before the i-th are present. */
  ghost predicate PresentBefore(dest: string, names: Path, lstat: string -> Stat, i: nat) {
    forall j :: 1 <= j < i && j <= |names| ==> lstat(Ancestor(dest, names, j)) == Present
  }

  /** What the i-th ancestor decides when all before it are present. */
  lemma AncestorDecides(dest: string, names: Path, lstat: string -> Stat, i: nat)
    requires 1 <= i && PresentBefore(dest, names, lstat, i)
    ensures i < |names| && lstat(Ancestor(dest, names, i)) == Missing ==> ParentsInspectable(dest, names, lstat)
    ensures i < |names| && lstat(Ancestor(dest, names, i)) == Unreadable ==> !ParentsInspectable(dest, names, lstat)
    ensures i >= |names| ==> ParentsInspectable(dest, names, lstat)
  {
  }

  /** One step of that walk down. */
  method Descend(ghost dest: string, ghost names: Path, ghost i: nat, curr: string, part: string) returns (next: string)
    requires Rooted(dest) && AllOrdinary(names) && i < |names| && curr == Ancestor(dest, names, i) && part == names[i]
    ensures next == Ancestor(dest, names, i + 1)
  {
    NextAncestor(dest, names, i);
    next := JoinClean(curr, part);
  }

  /** The loop of SafePathClean that lstats the parents of the target from the destination down. */
  method InspectParents(dest: string, ghost names: Path, parts: seq<string>, lstat: string -> Stat) returns (ok: bool)
    requires Rooted(dest) && AllOrdinary(names)
    requires parts == if names == [] then ["."] else names
    ensures ok <==> ParentsInspectable(dest, names, lstat)
  {
    var curr := Clean(dest);
    FirstAncestor(dest, names);
    var i := 0;
    while i < |parts| - 1
      invariant 0 <= i <= |parts| - 1
      invariant i <= |names| && curr == Ancestor(dest, names, i)
      invariant PresentBefore(dest, names, lstat, i + 1)
    {
      AncestorDecides(dest, names, lstat, i + 1);
      curr := Descend(dest, names, i, curr, parts[i]);
      if lstat(curr) == Missing {
        return true;
      }
      if lstat(curr) == Unreadable {
        return false;
      }
      i := i + 1;
    }
    AncestorDecides(dest, names, lstat, i + 1);
    return true;
  }

  /**
   SafePathClean on a tree without symbolic links. `dest` is what filepath.Abs
   returned for the destination directory.
   */
  method SafePathClean(dest: string, rel: string, lstat: string -> Stat) returns (r: PathResult)
    requires Rooted(dest)
    ensures r.Target? ==> Resolve(rel).Some? && r.path == "/" + Join(WalkOf(dest).names + Resolve(rel).value)
    ensures Clean(dest) != "/" ==>
      (r.Target? <==> Resolve(rel).Some? && ParentsInspectable(dest, Resolve(rel).value, lstat))
    ensures Clean(dest) != "/" ==> r != Rejected(EscapesRoot)
    ensures Clean(dest) == "/" ==> (r.Target? <==> Resolve(rel) == Some([]))
    ensures r == Rejected(EmptyPath) <==> rel == ""
    ensures r == Rejected(Traversal) <==> rel != "" && (Rooted(rel) || !StaysBelow(Split(rel)))
  {
    if rel == "" {
      return Rejected(EmptyPath);
    }
    TraversalTextExact(rel);
    ResolveExact(rel);
    if LooksLikeTraversal(Clean(rel)) {
      return Rejected(Traversal);
    }
    ghost var names := Resolve(rel).value;
    JoinedTarget(dest, rel);
    var target := JoinClean(Clean(dest), Clean(rel));
    if Clean(dest) != "/" {
      ContainmentIsRedundant(dest, rel);
    } else {
      ContainmentAtRoot(dest, rel);
    }
    if !Contained(target, Clean(dest)) {
      return Rejected(EscapesRoot);
    }
    CleanedParts(rel);
    var ok := InspectParents(dest, names, Split(Clean(rel)), lstat);
    return if ok then Target(target) else Rejected(ParentUnreadable);
  }

  lemma CleanedParts(rel: string)
    requires Resolve(rel).Some?
    ensures AllOrdinary(Resolve(rel).value)
    ensures Split(Clean(rel)) == if Resolve(rel).value == [] then ["."] else Resolve(rel).value
    ensures Clean(rel) != ""
  {
    CleanRelative(rel);
    assert Ups(0) + Resolve(rel).value == Resolve(rel).value;
    SplitOfComponent(".", "");
    if Resolve(rel).value != [] {
      JoinNonEmpty(Resolve(rel).value);
    }
  }

  /**
   A non-empty relative name is accepted lexically exactly when its component
   walk never rises above its start.
   */
  lemma ResolveExact(rel: string)
    ensures Resolve(rel).Some? <==> rel != "" && !Rooted(rel) && StaysBelow(Split(rel))
    ensures Resolve(rel).Some? ==> AllOrdinary(Resolve(rel).value)
  {
    if rel != "" && !Rooted(rel) {
      WalkDepth(Split(rel));
      WalkOrdinary(START, Split(rel), false);
    }
  }
}
