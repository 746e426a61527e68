/**
 PackCPIOInitramfs (internal/builder/cpio.go): a directory tree, met in any
 walk order, becomes one determined archive.
 */
module Pack {
  import opened Common
  import opened Cpio

  /**
   What the walk reports about one path below the root. A regular file has the
   size the walk saw and the data found when it is copied, which may differ.
   */
  datatype Kind = Directory | Symlink(target: bytes) | Regular(size: nat, data: bytes, exec: bool)

  datatype Found = Found(rel: bytes, kind: Kind)

  // ------------------------------------------------------------ path order

  /** Go's `<` on strings: byte by byte, a proper prefix first. */
  predicate Less(a: bytes, b: bytes) {
    b != [] && (a == [] || a[0] < b[0] || (a[0] == b[0] && Less(a[1..], b[1..])))
  }

  lemma {:induction false} LessTotal(a: bytes, b: bytes)
    ensures Less(a, b) || Less(b, a) || a == b
    ensures !(Less(a, b) && Less(b, a)) && !Less(a, a)
    decreases |a|
  {
    if a != [] {
      LessTotal(a[1..], a[1..]);
      if b != [] {
        LessTotal(a[1..], b[1..]);
        assert a == [a[0]] + a[1..] && b == [b[0]] + b[1..];
      }
    }
  }

  lemma {:induction false} PrefixIsLess(a: bytes, b: bytes)
    requires a < b
    ensures Less(a, b)
  {
    if a != [] {
      assert a[1..] < b[1..];
      PrefixIsLess(a[1..], b[1..]);
    }
  }

  predicate Sorted(es: seq<Found>) {
    forall i, j :: 0 <= i < j < |es| ==> !Less(es[j].rel, es[i].rel)
  }

  ghost predicate DistinctPaths(es: seq<Found>) {
    forall i, j :: 0 <= i < j < |es| ==> es[i].rel != es[j].rel
  }

  // -------------------------------------------------------------- the sort

  function Insert(e: Found, es: seq<Found>): seq<Found> {
    if es == [] || !Less(es[0].rel, e.rel) then [e] + es else [es[0]] + Insert(e, es[1..])
  }

  lemma {:induction false} InsertKeeps(e: Found, es: seq<Found>)
    ensures multiset(Insert(e, es)) == multiset(es) + multiset{e}
    decreases |es|
  {
    if es != [] && Less(es[0].rel, e.rel) {
      InsertKeeps(e, es[1..]);
      assert es == [es[0]] + es[1..];
    }
  }

  lemma {:induction false} InsertSorted(e: Found, es: seq<Found>)
    requires Sorted(es)
    ensures Sorted(Insert(e, es))
    decreases |es|
  {
    if es == [] || !Less(es[0].rel, e.rel) {
      var r := [e] + es;
      forall i, j | 0 <= i < j < |r|
        ensures !Less(r[j].rel, r[i].rel)
      {
        if i == 0 {
          NotAbove(e.rel, es[0].rel, es[j - 1].rel, j == 1);
        }
      }
    } else {
      InsertSorted(e, es[1..]);
      var t := Insert(e, es[1..]);
      InsertKeeps(e, es[1..]);
      var r := [es[0]] + t;
      forall i, j | 0 <= i < j < |r|
        ensures !Less(r[j].rel, r[i].rel)
      {
        if i == 0 {
          assert t[j - 1] in multiset(t);
          assert t[j - 1] == e || t[j - 1] in es[1..];
          LessTotal(es[0].rel, e.rel);
        }
      }
    }
  }

  /** x is not above y and y not above z, so x is not above z. */
  lemma NotAbove(x: bytes, y: bytes, z: bytes, same: bool)
    requires !Less(y, x) && (same ==> y == z) && (!same ==> !Less(z, y))
    ensures !Less(z, x)
  {
  }

  /** sort.Slice by path: some sorted arrangement of the entries. */
  method SortByPath(es: seq<Found>) returns (r: seq<Found>)
    ensures Sorted(r) && multiset(r) == multiset(es)
  {
    r := [];
    for i := 0 to |es|
      invariant Sorted(r) && multiset(r) == multiset(es[..i])
    {
      InsertSorted(es[i], r);
      InsertKeeps(es[i], r);
      assert es[..i + 1] == es[..i] + [es[i]];
      r := Insert(es[i], r);
    }
    assert es[..|es|] == es;
  }

  /** Distinct paths have only one sorted arrangement. */
  lemma {:induction false} SortedUnique(a: seq<Found>, b: seq<Found>)
    requires Sorted(a) && Sorted(b) && multiset(a) == multiset(b) && DistinctPaths(a)
    ensures a == b
    decreases |a|
  {
    assert |multiset(a)| == |a| && |multiset(b)| == |b|;
    if a != [] {
      SameFirst(a, b);
      assert a == [a[0]] + a[1..] && b == [b[0]] + b[1..];
      assert multiset(a[1..]) == multiset(a) - multiset{a[0]};
      assert multiset(b[1..]) == multiset(b) - multiset{b[0]};
      SortedUnique(a[1..], b[1..]);
    }
  }

  lemma SameFirst(a: seq<Found>, b: seq<Found>)
    requires Sorted(a) && Sorted(b) && multiset(a) == multiset(b) && DistinctPaths(a)
    requires a != [] && b != []
    ensures a[0] == b[0]
  {
    assert b[0] in multiset(a) && a[0] in multiset(b);
    var i :| 0 <= i < |a| && a[i] == b[0];
    var j :| 0 <= j < |b| && b[j] == a[0];
    LessTotal(a[0].rel, b[0].rel);
  }

  /** In the sorted order every directory comes before everything beneath it. */
  lemma DirectoryBeforeContents(es: seq<Found>, d: nat, c: nat)
    requires Sorted(es) && d < |es| && c < |es| && es[d].rel < es[c].rel
    ensures d < c
  {
    PrefixIsLess(es[d].rel, es[c].rel);
    LessTotal(es[d].rel, es[c].rel);
  }

  // ---------------------------------------------------------- the archive

  /** The normalised mode: only the kind and executability matter. */
  function ModeOf(k: Kind): (m: uint32)
    ensures m / 0x1000 == (match k case Directory => 4 case Symlink(_) => 10 case Regular(_, _, _) => 8)
    ensures m % 0x1000 == (match k case Symlink(_) => 511 case Regular(_, _, false) => 420 case _ => 493)
  {
    match k
    case Directory => 0x41ED                 // 0040755
    case Symlink(_) => 0xA1FF                // 0120777
    case Regular(_, _, true) => 0x81ED       // 0100755
    case Regular(_, _, false) => 0x81A4      // 0100644
  }

  function BodyOf(k: Kind): bytes {
    match k
    case Directory => []
    case Symlink(target) => target
    case Regular(_, data, _) => data
  }

  /** The size the header declares, before it is cut to 32 bits. */
  function SizeOf(k: Kind): nat {
    match k
    case Directory => 0
    case Symlink(target) => |target|
    case Regular(size, _, _) => size
  }

  function HeaderOf(f: Found, ino: uint32, mtime: uint32): Header {
    Header(ino, ModeOf(f.kind), 0, 0, if f.kind.Directory? then 2 else 1, mtime, Uint32(SizeOf(f.kind)),
           0, 0, 0, 0, f.rel)
  }

  /** Copying the entry reports no size mismatch. */
  predicate Copied(k: Kind) {
    Uint32(SizeOf(k)) > 0 ==> Uint32(|BodyOf(k)|) == Uint32(SizeOf(k))
  }

  function MemberOf(f: Found, ino: uint32, mtime: uint32): Entry {
    Entry(HeaderOf(f, ino, mtime), BodyOf(f.kind))
  }

  /** The members of the archive of a sorted list: inode numbers count from 1. */
  function Members(es: seq<Found>, mtime: uint32): (ms: seq<Entry>)
    ensures |ms| == |es| && forall i :: 0 <= i < |es| ==> ms[i] == MemberOf(es[i], Uint32(i + 1), mtime)
  {
    seq(|es|, i requires 0 <= i < |es| => MemberOf(es[i], Uint32(i + 1), mtime))
  }

  lemma EncodeAllSnoc(ms: seq<Entry>, m: Entry)
    ensures EncodeAll(ms + [m]) == EncodeAll(ms) + EncodeEntry(m)
  {
  }

  lemma NextInode(n: nat)
    ensures Uint32(Uint32(n) + 1) == Uint32(n + 1)
  {
  }

  /** One turn of the writing loop. */
  method WriteMember(w: Writer, f: Found, ino: uint32, mtime: uint32) returns (ok: bool)
    modifies w
    ensures w.out == old(w.out) + EncodeEntry(MemberOf(f, ino, mtime))
    ensures ok <==> Copied(f.kind)
  {
    var h := HeaderOf(f, ino, mtime);
    ok := w.WriteEntry(h, if f.kind.Directory? then None else Some(BodyOf(f.kind)));
  }

  /** What the first `k` turns of the writing loop have written. */
  ghost function Written(es: seq<Found>, mtime: uint32, k: nat): bytes
    requires k <= |es|
  {
    EncodeAll(Members(es, mtime)[..k])
  }

  lemma WrittenStep(es: seq<Found>, mtime: uint32, k: nat)
    requires k < |es|
    ensures Written(es, mtime, k + 1) == Written(es, mtime, k) + EncodeEntry(MemberOf(es[k], Uint32(k + 1), mtime))
  {
    var ms := Members(es, mtime);
    assert ms[..k + 1] == ms[..k] + [ms[k]];
    EncodeAllSnoc(ms[..k], ms[k]);
  }

  lemma WrittenEnds(es: seq<Found>, mtime: uint32)
    ensures Written(es, mtime, 0) == []
    ensures Written(es, mtime, |es|) == EncodeAll(Members(es, mtime))
  {
    var ms := Members(es, mtime);
    assert ms[..0] == [] && ms[..|es|] == ms;
  }

  /** One turn, with the inode number it leaves for the next one. */
  method WriteNext(w: Writer, sorted: seq<Found>, k: nat, ino: uint32, mtime: uint32) returns (ok: bool, next: uint32)
    requires k < |sorted| && w.out == Written(sorted, mtime, k) && ino == Uint32(k + 1)
    modifies w
    ensures w.out == Written(sorted, mtime, k + 1) && next == Uint32(k + 2)
    ensures ok <==> Copied(sorted[k].kind)
  {
    WrittenStep(sorted, mtime, k);
    ok := WriteMember(w, sorted[k], ino, mtime);
    NextInode(k + 1);
    next := Uint32(ino + 1);
  }

  /** How many entries are copied before the first mismatch. */
  function Matching(es: seq<Found>): (n: nat)
    ensures n <= |es|
  {
    if es == [] || !Copied(es[0].kind) then 0 else 1 + Matching(es[1..])
  }

  lemma {:induction false} MatchingExact(es: seq<Found>)
    ensures var n := Matching(es);
      (forall i :: 0 <= i < n ==> Copied(es[i].kind)) && (n < |es| ==> !Copied(es[n].kind))
  {
    if es != [] && Copied(es[0].kind) {
      MatchingExact(es[1..]);
    }
  }

  lemma MatchingStep(es: seq<Found>, n: nat)
    requires n < |es|
    ensures Matching(es[n..]) == if Copied(es[n].kind) then 1 + Matching(es[n + 1..]) else 0
  {
    assert es[n..][1..] == es[n + 1..];
  }

  /** The writing loop over the sorted entries, through the first mismatch. */
  method WriteMembers(w: Writer, sorted: seq<Found>, mtime: uint32) returns (ok: bool)
    requires w.out == []
    modifies w
    ensures ok <==> Matching(sorted) == |sorted|
    ensures w.out == Written(sorted, mtime, if ok then |sorted| else Matching(sorted) + 1)
  {
    var inoCounter: uint32 := 1;
    WrittenEnds(sorted, mtime);
    var n := 0;
    while n < |sorted|
      invariant n <= |sorted| && Matching(sorted) == n + Matching(sorted[n..])
      invariant inoCounter == Uint32(n + 1)
      invariant w.out == Written(sorted, mtime, n)
    {
      MatchingStep(sorted, n);
      ok, inoCounter := WriteNext(w, sorted, n, inoCounter, mtime);
      if !ok {
        return;
      }
      n := n + 1;
    }
    ok := true;
  }

  /**
   Packing the entries of a walk; `sorted` is the order they were written in. It
   succeeds if and only if no file's copy mismatches its size, and otherwise
   stops after the first that does. What it writes is read back as the walk.
   */
  method PackCPIOInitramfs(walk: seq<Found>, mtime: uint32) returns (out: bytes, sorted: seq<Found>, ok: bool)
    ensures Sorted(sorted) && multiset(sorted) == multiset(walk)
    ensures ok <==> forall i :: 0 <= i < |sorted| ==> Copied(sorted[i].kind)
    ensures ok <==> Matching(sorted) == |sorted|
    ensures out == if ok then Archive(Members(sorted, mtime), TRAILER_HEADER)
                   else Written(sorted, mtime, Matching(sorted) + 1)
    ensures AllPackable(sorted) ==> ok && ReadsBackAs(out, sorted, mtime)
  {
    sorted := SortByPath(walk);
    var w := new Writer();
    ok := WriteMembers(w, sorted, mtime);
    MatchingExact(sorted);
    if ok {
      WrittenEnds(sorted, mtime);
      w.WriteTrailer();
    }
    out := w.out;
    PackedOutcome(sorted, mtime, out, ok);
  }

  lemma PackedOutcome(es: seq<Found>, mtime: uint32, out: bytes, ok: bool)
    requires ok <==> forall i :: 0 <= i < |es| ==> Copied(es[i].kind)
    requires ok ==> out == Archive(Members(es, mtime), TRAILER_HEADER)
    ensures AllPackable(es) ==> ok && ReadsBackAs(out, es, mtime)
  {
    if AllPackable(es) {
      PackableCopied(es);
      PackedMeaning(es, mtime, TRAILER_HEADER, []);
      assert out + [] == out;
    }
  }

  // ------------------------------------------------------ what the archive holds

  /**
   An entry the archive can carry: a name that fits and is not the trailer's, a link
   target or file below 4 GiB, and a file that still has its walked size when
   copied, or was empty when walked.
   */
  predicate Packable(f: Found) {
    && NameFits(f.rel) && f.rel != TRAILER
    && match f.kind
       case Directory => true
       case Symlink(target) => |target| < TWO_32
       case Regular(size, data, _) => size < TWO_32 && (size == 0 || |data| == size)
  }

  predicate AllPackable(es: seq<Found>) {
    forall i :: 0 <= i < |es| ==> Packable(es[i])
  }

  /** What a reader must find for one walk entry. */
  predicate IsReadOf(e: Entry, f: Found, ino: nat, mtime: uint32) {
    && e.header.name == f.rel && e.header.ino == ino && e.header.mtime == mtime
    && e.header.uid == 0 && e.header.gid == 0
    && match f.kind
       case Directory => e.body == [] && e.header.nlink == 2 && e.header.mode == 0x41ED
       case Symlink(target) => e.body == target && e.header.nlink == 1 && e.header.mode == 0xA1FF
       case Regular(size, data, exec) =>
         && e.body == (if size == 0 then [] else data)
         && e.header.nlink == 1 && e.header.mode == (if exec then 0x81ED else 0x81A4)
  }

  /** Reading the bytes gives one entry per walk entry, in order, numbered from 1. */
  ghost predicate ReadsBackAs(s: bytes, es: seq<Found>, mtime: uint32) {
    match ReadArchive(s)
    case None => false
    case Some(rs) =>
      |rs| == |es| && forall i :: 0 <= i < |es| ==> IsReadOf(rs[i], es[i], Uint32(i + 1), mtime)
  }

  lemma PackableCopied(es: seq<Found>)
    requires AllPackable(es)
    ensures forall i :: 0 <= i < |es| ==> Copied(es[i].kind)
  {
    forall i | 0 <= i < |es|
      ensures Copied(es[i].kind)
    {
      assert Packable(es[i]);
    }
  }

  /** What of an entry reaches the archive: nothing is copied when the declared size is 0. */
  function Carried(e: Entry): Entry {
    if e.header.filesize == 0 then Entry(e.header, []) else e
  }

  function AllCarried(es: seq<Entry>): (cs: seq<Entry>)
    ensures |cs| == |es| && forall i :: 0 <= i < |es| ==> cs[i] == Carried(es[i])
  {
    seq(|es|, i requires 0 <= i < |es| => Carried(es[i]))
  }

  lemma {:induction false} CarriedSameBytes(es: seq<Entry>)
    ensures EncodeAll(AllCarried(es)) == EncodeAll(es)
    decreases |es|
  {
    if es != [] {
      var n := |es| - 1;
      CarriedSameBytes(es[..n]);
      assert AllCarried(es)[..n] == AllCarried(es[..n]);
      assert EncodeEntry(Carried(es[n])) == EncodeEntry(es[n]);
    }
  }

  lemma CarriedMeaning(f: Found, ino: uint32, mtime: uint32)
    requires Packable(f)
    ensures var e := Carried(MemberOf(f, ino, mtime)); Encodable(e) && IsReadOf(e, f, ino, mtime)
  {
  }

  /** A packable walk is read back from its archive, each entry with its own path, number, mode and contents. */
  lemma PackedMeaning(es: seq<Found>, mtime: uint32, t: Header, junk: bytes)
    requires IsTrailer(t) && AllPackable(es)
    ensures ReadsBackAs(Archive(Members(es, mtime), t) + junk, es, mtime)
  {
    var ms := Members(es, mtime);
    var cs := AllCarried(ms);
    forall i | 0 <= i < |es|
      ensures Encodable(cs[i]) && IsReadOf(cs[i], es[i], Uint32(i + 1), mtime) && cs[i].header.name != TRAILER
    {
      assert Packable(es[i]);
      CarriedMeaning(es[i], Uint32(i + 1), mtime);
    }
    CarriedSameBytes(ms);
    ArchiveReadsBack(cs, t, junk);
    BeforeTrailerAll(cs);
  }

  /** Two walks over the same tree give the same bytes. */
  lemma WalkOrderIrrelevant(a: seq<Found>, b: seq<Found>, sa: seq<Found>, sb: seq<Found>, mtime: uint32, t: Header)
    requires multiset(a) == multiset(b) && DistinctPaths(a)
    requires Sorted(sa) && multiset(sa) == multiset(a)
    requires Sorted(sb) && multiset(sb) == multiset(b)
    ensures Archive(Members(sa, mtime), t) == Archive(Members(sb, mtime), t)
  {
    DistinctTransfers(a, sa);
    SortedUnique(sa, sb);
  }

  lemma DistinctTransfers(a: seq<Found>, b: seq<Found>)
    requires DistinctPaths(a) && multiset(a) == multiset(b)
    ensures DistinctPaths(b)
  {
    forall i, j | 0 <= i < j < |b|
      ensures b[i].rel != b[j].rel
    {
      TwoPlaces(a, b, i, j);
    }
  }

  lemma TwoPlaces(a: seq<Found>, b: seq<Found>, i: nat, j: nat)
    requires DistinctPaths(a) && multiset(a) == multiset(b) && i < j < |b|
    ensures b[i].rel != b[j].rel
  {
    assert b[i] in multiset(a) && b[j] in multiset(a);
    var k :| 0 <= k < |a| && a[k] == b[i];
    var l :| 0 <= l < |a| && a[l] == b[j];
    if k == l {
      assert b[i] == b[j];
      assert b == b[..j] + [b[j]] + b[j + 1..];
      assert b[i] in b[..j];
      assert multiset(b)[b[i]] >= 2;
      assert a == a[..k] + [a[k]] + a[k + 1..];
      assert multiset(a)[a[k]] >= 2;
      Elsewhere(a, k);
    }
  }

  /** Distinct entries occur once. */
  lemma Elsewhere(a: seq<Found>, k: nat)
    requires DistinctPaths(a) && k < |a|
    ensures multiset(a)[a[k]] == 1
  {
    assert a == a[..k] + [a[k]] + a[k + 1..];
    assert a[k] !in a[..k] && a[k] !in a[k + 1..];
  }

  /**
   Packing and reading back recovers every path, mode, inode number and copied
   body, in path order, if and only if no path is named like the trailer and each
   body has the size the walk saw, cut to 32 bits.
   */
  lemma PackedTreeReadsBack(es: seq<Found>, mtime: uint32, t: Header, junk: bytes)
    requires IsTrailer(t) && forall i :: 0 <= i < |es| ==> NameFits(es[i].rel)
    ensures ReadArchive(Archive(Members(es, mtime), t) + junk) == Some(Members(es, mtime)) <==>
      forall i :: 0 <= i < |es| ==> es[i].rel != TRAILER && |BodyOf(es[i].kind)| == Uint32(SizeOf(es[i].kind))
  {
    var ms := Members(es, mtime);
    assert forall i :: 0 <= i < |es| ==>
      ms[i].header.name == es[i].rel && (SizeDeclared(ms[i]) <==> |BodyOf(es[i].kind)| == Uint32(SizeOf(es[i].kind)));
    RoundTrip(ms, t, junk);
  }

  /** A file that was empty when walked is packed as empty, without complaint, whatever it holds when copied. */
  lemma GrownFileIsDropped(rel: bytes, data: bytes, exec: bool, ino: uint32, mtime: uint32, rest: bytes)
    requires NameFits(rel)
    ensures var f := Found(rel, Regular(0, data, exec));
      && Copied(f.kind)
      && ReadEntry(EncodeEntry(MemberOf(f, ino, mtime)) + rest)
           == Some(Read(Entry(HeaderOf(f, ino, mtime), []), rest))
  {
    var f := Found(rel, Regular(0, data, exec));
    var h := HeaderOf(f, ino, mtime);
    assert BodyField(h, Some(data)) == BodyField(h, Some([])) == [];
    ReadWritten(Entry(h, []), rest);
  }
}
