/**
 The newc CPIO writer (internal/builder/cpio.go), against a reader written
 from the Linux kernel's "initramfs buffer format" document.
 */
module Cpio {
  import opened Common

  const MAGIC: bytes := [48, 55, 48, 55, 48, 49]                          // "070701"
  const TRAILER: bytes := [84, 82, 65, 73, 76, 69, 82, 33, 33, 33]        // "TRAILER!!!"
  const HEADER_SIZE: nat := 110

  datatype Header = Header(
    ino: uint32, mode: uint32, uid: uint32, gid: uint32, nlink: uint32, mtime: uint32, filesize: uint32,
    devMaj: uint32, devMin: uint32, rdevMaj: uint32, rdevMin: uint32, name: bytes)

  // -------------------------------------------------------------- hex fields

  function Digit(d: nat): byte
    requires d < 16
  {
    if d < 10 then 48 + d else 55 + d
  }

  /** `k` upper-case hexadecimal digits of `n`, most significant first. */
  function Hex(n: nat, k: nat): (r: bytes)
    ensures |r| == k
  {
    if k == 0 then [] else Hex(n / 16, k - 1) + [Digit(n % 16)]
  }

  /** The digits are decimal or upper-case letters. */
  lemma {:induction false} HexUpper(n: nat, k: nat, i: nat)
    requires i < k
    ensures 48 <= Hex(n, k)[i] <= 57 || 65 <= Hex(n, k)[i] <= 70
    decreases k
  {
    if i < k - 1 {
      HexUpper(n / 16, k - 1, i);
    }
  }

  function Undigit(b: byte): Option<nat> {
    if 48 <= b <= 57 then Some(b - 48)
    else if 65 <= b <= 70 then Some(b - 55)
    else if 97 <= b <= 102 then Some(b - 87)
    else None
  }

  function Unhex(s: bytes): Option<nat> {
    if s == [] then Some(0)
    else
      match (Unhex(s[..|s| - 1]), Undigit(s[|s| - 1]))
      case (Some(hi), Some(lo)) => Some(16 * hi + lo)
      case _ => None
  }

  function Pow16(k: nat): nat {
    if k == 0 then 1 else 16 * Pow16(k - 1)
  }

  lemma {:induction false} HexRoundTrip(n: nat, k: nat)
    requires n < Pow16(k)
    ensures Unhex(Hex(n, k)) == Some(n)
  {
    if k > 0 {
      HexRoundTrip(n / 16, k - 1);
      var s := Hex(n, k);
      assert s[..k - 1] == Hex(n / 16, k - 1);
    }
  }

  function HexAll(fs: seq<uint32>): (r: bytes)
    ensures |r| == 8 * |fs|
  {
    if fs == [] then [] else Hex(fs[0], 8) + HexAll(fs[1..])
  }

  function UnhexAll(s: bytes): Option<seq<nat>> {
    if |s| < 8 then Some([])
    else
      match (Unhex(s[..8]), UnhexAll(s[8..]))
      case (Some(n), Some(rest)) => Some([n] + rest)
      case _ => None
  }

  lemma {:induction false} HexAllRoundTrip(fs: seq<uint32>)
    ensures UnhexAll(HexAll(fs)) == Some(fs)
  {
    if fs != [] {
      assert Pow16(8) == 0x1_0000_0000 by { assert Pow16(4) == 0x1_0000; }
      HexRoundTrip(fs[0], 8);
      HexAllRoundTrip(fs[1..]);
      var s := HexAll(fs);
      assert s[..8] == Hex(fs[0], 8) && s[8..] == HexAll(fs[1..]);
      assert [fs[0]] + fs[1..] == fs;
    }
  }

  // ------------------------------------------------------------------ writer

  function Zeros(n: nat): (r: bytes)
    ensures |r| == n
  {
    seq(n, i => 0)
  }

  /** Bytes needed to bring `n` to a multiple of four. */
  function Pad(n: nat): (p: nat)
    ensures p < 4 && (n + p) % 4 == 0
  {
    (4 - n % 4) % 4
  }

  /** The thirteen numbers of a header; the last one, the checksum, is always zero. */
  function Fields(h: Header): (fs: seq<uint32>)
    ensures |fs| == 13
  {
    [h.ino, h.mode, h.uid, h.gid, h.nlink, h.mtime, h.filesize, h.devMaj, h.devMin, h.rdevMaj, h.rdevMin,
     Uint32(|h.name| + 1), 0]
  }

  /** The fixed part of a header. */
  function Fixed(h: Header): (r: bytes)
    ensures |r| == HEADER_SIZE
  {
    MAGIC + HexAll(Fields(h))
  }

  /** The name with its NUL, padded together with the fixed part. */
  function NameField(name: bytes): bytes {
    name + [0] + Zeros(Pad(HEADER_SIZE + |name| + 1))
  }

  function EncodeHeader(h: Header): bytes {
    Fixed(h) + NameField(h.name)
  }

  /** What follows a header: nothing, or the data padded by the declared size. */
  function BodyField(h: Header, data: Option<bytes>): bytes {
    if h.filesize > 0 && data.Some?
    then data.value + (if Uint32(|data.value|) == h.filesize then Zeros(Pad(h.filesize)) else [])
    else []
  }

  predicate SizeMatches(h: Header, data: Option<bytes>) {
    h.filesize > 0 && data.Some? ==> Uint32(|data.value|) == h.filesize
  }

  const TRAILER_HEADER := Header(0, 0, 0, 0, 1, 0, 0, 0, 0, 0, 0, TRAILER)

  /** One archive member. */
  datatype Entry = Entry(header: Header, body: bytes)

  function EncodeEntry(e: Entry): bytes {
    EncodeHeader(e.header) + BodyField(e.header, Some(e.body))
  }

  function EncodeAll(es: seq<Entry>): bytes {
    if es == [] then [] else EncodeAll(es[..|es| - 1]) + EncodeEntry(es[|es| - 1])
  }

  /** A header that ends an archive; the writer's is TRAILER_HEADER. */
  predicate IsTrailer(t: Header) {
    t.name == TRAILER && t.filesize == 0
  }

  /** A complete archive: the members, then a trailer. */
  function Archive(es: seq<Entry>, t: Header): bytes {
    EncodeAll(es) + EncodeHeader(t)
  }

  /** The output stream and the operations that append to it. */
  class Writer {
    var out: bytes

    constructor ()
      ensures out == []
    {
      out := [];
    }

    method WriteHeader(h: Header)
      modifies this
      ensures out == old(out) + EncodeHeader(h)
    {
      out := out + Fixed(h);
      var nameBytes := h.name + [0];
      out := out + nameBytes;
      var pad := (4 - (HEADER_SIZE + |nameBytes|) % 4) % 4;
      if pad > 0 {
        out := out + Zeros(pad);
      }
      assert pad == Pad(HEADER_SIZE + |h.name| + 1);
    }

    method WriteEntry(h: Header, data: Option<bytes>) returns (ok: bool)
      modifies this
      ensures out == old(out) + EncodeHeader(h) + BodyField(h, data)
      ensures ok <==> SizeMatches(h, data)
    {
      WriteHeader(h);
      if h.filesize > 0 && data.Some? {
        out := out + data.value;
        if Uint32(|data.value|) != h.filesize {
          return false;
        }
        var pad := (4 - h.filesize % 4) % 4;
        if pad > 0 {
          out := out + Zeros(pad);
        }
        assert pad == Pad(h.filesize);
      }
      return true;
    }

    method WriteTrailer()
      modifies this
      ensures out == old(out) + EncodeHeader(TRAILER_HEADER)
    {
      var ok := WriteEntry(TRAILER_HEADER, None);
    }
  }

  // ------------------------------------------------------------------ reader

  datatype Read = Read(entry: Entry, rest: bytes)

  /** One member at the start of `s`, as the format document describes it. */
  function ReadEntry(s: bytes): Option<Read> {
    if |s| < HEADER_SIZE || s[..6] != MAGIC then None
    else
      match UnhexAll(s[6..HEADER_SIZE])
      case None => None
      case Some(fs) => if |fs| == 13 then ReadRest(fs, s[HEADER_SIZE..]) else None
  }

  /** The name and body that the thirteen numbers announce. */
  function ReadRest(fs: seq<nat>, s: bytes): Option<Read>
    requires |fs| == 13
  {
    var nameSize, fileSize := fs[11], fs[6];
    var nameEnd := nameSize + Pad(HEADER_SIZE + nameSize);
    var end := nameEnd + fileSize + Pad(fileSize);
    if nameSize == 0 || |s| < end || s[nameSize - 1] != 0 || 0 in s[..nameSize - 1]
       || exists i :: 0 <= i < 11 && fs[i] >= 0x1_0000_0000
    then None
    else
      var h := Header(fs[0], fs[1], fs[2], fs[3], fs[4], fs[5], fs[6], fs[7], fs[8], fs[9], fs[10], s[..nameSize - 1]);
      Some(Read(Entry(h, s[nameEnd..nameEnd + fileSize]), s[end..]))
  }

  /** All members up to the trailer; None when the archive is damaged before it. */
  function ReadArchive(s: bytes): Option<seq<Entry>>
    decreases |s|
  {
    match ReadEntry(s)
    case None => None
    case Some(r) =>
      if r.entry.header.name == TRAILER then Some([])
      else if |r.rest| >= |s| then None
      else
        match ReadArchive(r.rest)
        case None => None
        case Some(es) => Some([r.entry] + es)
  }

  // -------------------------------------------------------------- round trip

  /** A name the format can carry: free of NUL, and below 4 GiB with its own. */
  predicate NameFits(name: bytes) {
    0 !in name && |name| + 1 < TWO_32
  }

  /** A member the format can carry: its declared size is the size of its body. */
  predicate Encodable(e: Entry) {
    |e.body| == e.header.filesize && NameFits(e.header.name)
  }

  lemma ReadRestOfWritten(e: Entry, rest: bytes)
    requires Encodable(e)
    ensures ReadRest(Fields(e.header), NameField(e.header.name) + BodyField(e.header, Some(e.body)) + rest)
         == Some(Read(e, rest))
  {
    var h := e.header;
    var nameSize := |h.name| + 1;
    var nf, bf := NameField(h.name), BodyField(h, Some(e.body));
    var s := nf + bf + rest;
    var nameEnd := nameSize + Pad(HEADER_SIZE + nameSize);
    assert |nf| == nameEnd;
    assert bf == e.body + Zeros(Pad(h.filesize)) by {
      if h.filesize == 0 {
        assert e.body == [] && Zeros(Pad(0)) == [];
      }
    }
    assert s[..nameSize - 1] == h.name;
    assert s[nameEnd..] == bf + rest;
    assert s[nameEnd..nameEnd + h.filesize] == e.body;
    assert s[nameEnd + |bf|..] == rest;
  }

  lemma ReadWritten(e: Entry, rest: bytes)
    requires Encodable(e)
    ensures ReadEntry(EncodeEntry(e) + rest) == Some(Read(e, rest))
  {
    var h := e.header;
    var s := EncodeEntry(e) + rest;
    var tail := NameField(h.name) + BodyField(h, Some(e.body)) + rest;
    assert s == Fixed(h) + tail;
    assert s[..6] == MAGIC;
    assert s[6..HEADER_SIZE] == HexAll(Fields(h));
    assert s[HEADER_SIZE..] == tail;
    HexAllRoundTrip(Fields(h));
    ReadRestOfWritten(e, rest);
  }

  lemma ReadBodySize(s: bytes)
    ensures ReadEntry(s).Some? ==> |ReadEntry(s).value.entry.body| == ReadEntry(s).value.entry.header.filesize
  {
  }

  /**
   The writer declares the body's size modulo 2^32 and checks it the same way,
   so it never complains; the member comes back if and only if the body is
   smaller than 4 GiB.
   */
  lemma SizeLimitExact(e: Entry, rest: bytes)
    requires e.header.filesize == Uint32(|e.body|) && NameFits(e.header.name)
    ensures SizeMatches(e.header, Some(e.body))
    ensures ReadEntry(EncodeEntry(e) + rest) == Some(Read(e, rest)) <==> |e.body| < TWO_32
  {
    if |e.body| < TWO_32 {
      ReadWritten(e, rest);
    } else {
      ReadBodySize(EncodeEntry(e) + rest);
    }
  }

  lemma {:induction false} EncodeAllFront(e: Entry, es: seq<Entry>)
    ensures EncodeAll([e] + es) == EncodeEntry(e) + EncodeAll(es)
    decreases |es|
  {
    var all := [e] + es;
    var n := |es|;
    assert all[..n] == if n == 0 then [] else [e] + es[..n - 1];
    if n > 0 {
      EncodeAllFront(e, es[..n - 1]);
    } else {
      assert EncodeAll([]) == [];
    }
  }

  /** What a reader keeps: the members before the first one that bears the trailer's name. */
  function BeforeTrailer(es: seq<Entry>): seq<Entry> {
    if es == [] || es[0].header.name == TRAILER then [] else [es[0]] + BeforeTrailer(es[1..])
  }

  lemma {:induction false} BeforeTrailerExact(es: seq<Entry>)
    ensures var k := |BeforeTrailer(es)|;
      && k <= |es| && BeforeTrailer(es) == es[..k]
      && (forall i :: 0 <= i < k ==> es[i].header.name != TRAILER)
      && (k < |es| ==> es[k].header.name == TRAILER)
  {
    if es != [] && es[0].header.name != TRAILER {
      BeforeTrailerExact(es[1..]);
    }
  }

  lemma BeforeTrailerAll(es: seq<Entry>)
    ensures BeforeTrailer(es) == es <==> forall i :: 0 <= i < |es| ==> es[i].header.name != TRAILER
  {
    BeforeTrailerExact(es);
    assert es[..|es|] == es;
  }

  lemma ReadOn(e: Entry, rest: bytes)
    requires Encodable(e)
    ensures ReadArchive(EncodeEntry(e) + rest) ==
      if e.header.name == TRAILER then Some([])
      else match ReadArchive(rest) case None => None case Some(es) => Some([e] + es)
  {
    ReadWritten(e, rest);
    assert |EncodeEntry(e)| >= HEADER_SIZE;
  }

  lemma ArchiveFront(es: seq<Entry>, t: Header, junk: bytes)
    requires es != []
    ensures Archive(es, t) + junk == EncodeEntry(es[0]) + (Archive(es[1..], t) + junk)
  {
    assert es == [es[0]] + es[1..];
    EncodeAllFront(es[0], es[1..]);
    Reassociate(EncodeEntry(es[0]), EncodeAll(es[1..]), EncodeHeader(t), junk);
  }

  lemma Reassociate(a: bytes, b: bytes, c: bytes, d: bytes)
    ensures ((a + b) + c) + d == a + ((b + c) + d)
  {
  }

  lemma EmptyArchive(t: Header, junk: bytes)
    requires IsTrailer(t)
    ensures Archive([], t) + junk == EncodeEntry(Entry(t, [])) + junk
  {
  }

  /** All of a list of members can be carried. */
  ghost predicate AllEncodable(es: seq<Entry>) {
    forall i :: 0 <= i < |es| ==> Encodable(es[i])
  }

  /**
   Reading back a written archive, with anything after its trailer, gives
   exactly the members before the first one named like the trailer.
   */
  lemma {:induction false} ArchiveReadsBack(es: seq<Entry>, t: Header, junk: bytes)
    requires AllEncodable(es) && IsTrailer(t)
    ensures ReadArchive(Archive(es, t) + junk) == Some(BeforeTrailer(es))
    decreases |es|
  {
    if es == [] {
      EmptyArchive(t, junk);
      ReadOn(Entry(t, []), junk);
    } else {
      var e, rest := es[0], es[1..];
      assert es == [e] + rest;
      ArchiveReadsBack(rest, t, junk);
      ReadsBackOneMore(e, rest, t, junk);
      BeforeTrailerCons(e, rest);
    }
  }

  lemma BeforeTrailerCons(e: Entry, es: seq<Entry>)
    ensures BeforeTrailer([e] + es) == if e.header.name == TRAILER then [] else [e] + BeforeTrailer(es)
  {
    assert ([e] + es)[1..] == es;
  }

  lemma ReadsBackOneMore(e: Entry, es: seq<Entry>, t: Header, junk: bytes)
    requires Encodable(e)
    ensures ReadArchive(Archive([e] + es, t) + junk) ==
      if e.header.name == TRAILER then Some([])
      else match ReadArchive(Archive(es, t) + junk) case None => None case Some(tail) => Some([e] + tail)
  {
    ArchiveFront([e] + es, t, junk);
    assert ([e] + es)[1..] == es;
    ReadOn(e, Archive(es, t) + junk);
  }

  /** Whatever the archive, every member a reader returns has a body of its declared size. */
  lemma {:induction false} ReadSizesAgree(s: bytes)
    ensures ReadArchive(s).Some? ==>
      forall i :: 0 <= i < |ReadArchive(s).value| ==> SizeDeclared(ReadArchive(s).value[i])
    decreases |s|
  {
    ReadBodySize(s);
    var r := ReadEntry(s);
    if r.Some? && r.value.entry.header.name != TRAILER && |r.value.rest| < |s| {
      ReadSizesAgree(r.value.rest);
    }
  }

  predicate SizeDeclared(e: Entry) {
    |e.body| == e.header.filesize
  }

  /**
   The round trip proper: all members come back if and only if none is named like
   the trailer and each declares the size of its body.
   */
  lemma RoundTrip(es: seq<Entry>, t: Header, junk: bytes)
    requires IsTrailer(t) && forall i :: 0 <= i < |es| ==> NameFits(es[i].header.name)
    ensures ReadArchive(Archive(es, t) + junk) == Some(es) <==>
      forall i :: 0 <= i < |es| ==> es[i].header.name != TRAILER && SizeDeclared(es[i])
  {
    if forall i :: 0 <= i < |es| ==> SizeDeclared(es[i]) {
      ArchiveReadsBack(es, t, junk);
      BeforeTrailerAll(es);
    } else {
      ReadSizesAgree(Archive(es, t) + junk);
    }
  }

  /** A body of exactly 4 GiB is declared as empty, and the reader does not return the member. */
  lemma FourGibFileLost(e: Entry, rest: bytes)
    requires e.header.filesize == 0 && |e.body| == TWO_32 && NameFits(e.header.name)
    ensures SizeMatches(e.header, Some(e.body)) && ReadEntry(EncodeEntry(e) + rest) != Some(Read(e, rest))
  {
    SizeLimitExact(e, rest);
  }

  /** A member named like the trailer hides itself and all that follow. */
  lemma TrailerNameHidesRest(e: Entry, es: seq<Entry>, t: Header)
    requires e.header.name == TRAILER && AllEncodable([e] + es) && IsTrailer(t)
    ensures ReadArchive(Archive([e] + es, t)) == Some([])
  {
    ArchiveReadsBack([e] + es, t, []);
    BeforeTrailerCons(e, es);
    assert Archive([e] + es, t) + [] == Archive([e] + es, t);
  }

  lemma EntryAligned(e: Entry)
    requires Encodable(e)
    ensures |EncodeEntry(e)| % 4 == 0
  {
  }

  lemma {:induction false} AllAligned(es: seq<Entry>)
    requires AllEncodable(es)
    ensures |EncodeAll(es)| % 4 == 0
    decreases |es|
  {
    if es != [] {
      var init, last := es[..|es| - 1], es[|es| - 1];
      AllAligned(init);
      EntryAligned(last);
      AlignedConcat(EncodeAll(init), EncodeEntry(last));
    }
  }

  lemma AlignedConcat(a: bytes, b: bytes)
    requires |a| % 4 == 0 && |b| % 4 == 0
    ensures |a + b| % 4 == 0
  {
  }

  /** Every member, and so the trailer too, starts on a four-byte boundary. */
  lemma MembersAligned(es: seq<Entry>, k: nat)
    requires AllEncodable(es) && k <= |es|
    ensures |EncodeAll(es[..k])| % 4 == 0
  {
    AllAligned(es[..k]);
  }
}
