/**
  The Xcursor file loader: header, table of contents, and the images nearest to a requested size.
  A file is its bytes and a read position; numbers are little-endian 32-bit.
 */
module XcursorFormat {
  import opened Basics

  type Byte = x: int | 0 <= x < 256

  const MAGIC := 0x72756358
  const FILE_HEADER_LEN := 16
  const FILE_VERSION := 0x10000
  const TOC_LEN := 12
  const MAX_TOC := 0x10000
  const IMAGE_TYPE := 0xfffd0002
  const IMAGE_VERSION := 1
  const IMAGE_HEADER_LEN := 36
  const TWO32 := 0x1_0000_0000

  datatype Toc = Toc(kind: nat, subtype: nat, position: nat)

  datatype Image = Image(
    version: nat, size: nat, width: nat, height: nat, xhot: nat, yhot: nat, delay: nat, pixels: seq<nat>)

  /** "Xcur", and the four weights. */
  lemma LittleEndian(b0: Byte, b1: Byte, b2: Byte, b3: Byte)
    ensures U32([0x58, 0x63, 0x75, 0x72], 0) == MAGIC
    ensures U32([b0, b1, b2, b3], 0) == ((b3 * 256 + b2) * 256 + b1) * 256 + b0
  {
  }

  function U32(b: seq<Byte>, off: nat): (u: nat)
    requires off + 4 <= |b|
    ensures u < TWO32
  {
    var b0: int, b1: int, b2: int, b3: int := b[off], b[off + 1], b[off + 2], b[off + 3];
    b0 + 0x100 * b1 + 0x1_0000 * b2 + 0x100_0000 * b3
  }

  // ------------------------------------------------------------------------- what the bytes say

  function TocAt(b: seq<Byte>, off: nat): Toc
    requires off + TOC_LEN <= |b|
  {
    Toc(U32(b, off), U32(b, off + 4), U32(b, off + 8))
  }

  /** Where the table of contents starts: the header length is a 32-bit field, so the skip wraps. */
  function TocStart(b: seq<Byte>): nat
    requires FILE_HEADER_LEN <= |b|
  {
    FILE_HEADER_LEN + (U32(b, 4) - FILE_HEADER_LEN) % TWO32
  }

  predicate HeaderFits(b: seq<Byte>)
  {
    && FILE_HEADER_LEN <= |b| && U32(b, 0) == MAGIC && U32(b, 12) <= MAX_TOC
    && (U32(b, 12) > 0 ==> TocStart(b) + TOC_LEN * U32(b, 12) <= |b|)
  }

  function Tocs(b: seq<Byte>): (ts: seq<Toc>)
    requires HeaderFits(b)
    ensures |ts| == U32(b, 12)
  {
    seq(U32(b, 12), i requires 0 <= i < U32(b, 12) => TocAt(b, TocStart(b) + TOC_LEN * i))
  }

  function Pixels(b: seq<Byte>, off: nat, n: nat): (ps: seq<nat>)
    requires off + 4 * n <= |b|
    ensures |ps| == n
  {
    seq(n, k requires 0 <= k < n => U32(b, off + 4 * k))
  }

  /** The image chunk a table entry points to is all there and sane. */
  predicate ImageFits(b: seq<Byte>, t: Toc)
  {
    var p := t.position;
    && p + IMAGE_HEADER_LEN <= |b|
    && U32(b, p + 4) == t.kind && U32(b, p + 8) == t.subtype
    && 0 < U32(b, p + 16) < 0x10000 && 0 < U32(b, p + 20) <= 0x10000
    && U32(b, p + 24) <= U32(b, p + 16) && U32(b, p + 28) <= U32(b, p + 20)
    && p + IMAGE_HEADER_LEN + 4 * (U32(b, p + 16) * U32(b, p + 20)) <= |b|
  }

  function ImageAt(b: seq<Byte>, t: Toc): Image
    requires ImageFits(b, t)
  {
    var p := t.position;
    Image(if U32(b, p + 12) < IMAGE_VERSION then U32(b, p + 12) else IMAGE_VERSION,
          t.subtype, U32(b, p + 16), U32(b, p + 20), U32(b, p + 24), U32(b, p + 28), U32(b, p + 32),
          Pixels(b, p + IMAGE_HEADER_LEN, U32(b, p + 16) * U32(b, p + 20)))
  }

  /** A header that is read has the magic word and at most 65536 entries. */
  lemma HeaderIsSane(b: seq<Byte>)
    requires HeaderFits(b)
    ensures U32(b, 0) == 0x72756358 && |Tocs(b)| <= 65536
  {
  }

  /** An image that is read has at most 65535 columns and 65536 rows, none of them missing, its hot spot
      inside, and a version this loader knows. */
  lemma ImageIsSane(b: seq<Byte>, t: Toc)
    requires ImageFits(b, t)
    ensures var m := ImageAt(b, t);
      && 1 <= m.width <= 65535 && 1 <= m.height <= 65536 && m.xhot <= m.width && m.yhot <= m.height
      && m.version <= 1 && m.size == t.subtype && |m.pixels| == m.width * m.height
  {
  }

  /** Dimensions a loader accepts. */
  predicate SaneSize(width: nat, height: nat)
  {
    1 <= width <= 65535 && 1 <= height <= 65536
  }

  /** A complete chunk of the right kind is refused only for its dimensions or its hot spot. */
  lemma RefusedOnlyIfInsane(b: seq<Byte>, t: Toc, width: nat, height: nat, xhot: nat, yhot: nat)
    requires var p := t.position;
      && p + 36 <= |b| && U32(b, p + 4) == t.kind && U32(b, p + 8) == t.subtype
      && U32(b, p + 16) == width && U32(b, p + 20) == height && U32(b, p + 24) == xhot && U32(b, p + 28) == yhot
      && p + 36 + 4 * (width * height) <= |b|
    ensures ImageFits(b, t) <==> SaneSize(width, height) && xhot <= width && yhot <= height
  {
  }

  // ------------------------------------------------------------------------- choosing a size

  function Dist(a: nat, b: nat): (d: nat)
    ensures a == b + d || b == a + d
  {
    if a > b then a - b else b - a
  }

  predicate IsImage(t: Toc)
  {
    t.kind == IMAGE_TYPE
  }

  /** Indices of the image entries of one size, in table order. */
  function Matches(ts: seq<Toc>, size: nat): (ms: seq<nat>)
    ensures forall k :: 0 <= k < |ms| ==> ms[k] < |ts| && IsImage(ts[ms[k]]) && ts[ms[k]].subtype == size
    ensures forall j, k :: 0 <= j < k < |ms| ==> ms[j] < ms[k]
  {
    if ts == [] then []
    else
      var n := |ts| - 1;
      var before := Matches(ts[..n], size);
      if IsImage(ts[n]) && ts[n].subtype == size then before + [n] else before
  }

  /** Only image chunks count; a comment, say, is none. */
  lemma CommentsAreNoImages(subtype: nat, position: nat)
    ensures !IsImage(Toc(0xfffe0001, subtype, position)) && IsImage(Toc(0xfffd0002, subtype, position))
  {
  }

  /** No entry of that size is missed. */
  lemma {:induction false} MatchesAll(ts: seq<Toc>, size: nat, i: nat)
    requires i < |ts| && IsImage(ts[i]) && ts[i].subtype == size
    ensures i in Matches(ts, size)
  {
    if i < |ts| - 1 {
      MatchesAll(ts[..|ts| - 1], size, i);
    }
  }

  ghost predicate HasImage(ts: seq<Toc>)
  {
    exists i :: 0 <= i < |ts| && IsImage(ts[i])
  }

  /** `best` is the size of some image; no image is nearer to the request, and every image before the
      first one of that size is strictly farther: the earliest wins a tie. */
  ghost predicate Nearest(ts: seq<Toc>, request: nat, best: nat)
  {
    exists i :: First(ts, request, best, i)
  }

  ghost predicate First(ts: seq<Toc>, request: nat, best: nat, i: int)
  {
    && 0 <= i < |ts| && IsImage(ts[i]) && ts[i].subtype == best
    && (forall j :: 0 <= j < |ts| && IsImage(ts[j]) ==> Dist(best, request) <= Dist(ts[j].subtype, request))
    && (forall j :: 0 <= j < i && IsImage(ts[j]) ==> Dist(best, request) < Dist(ts[j].subtype, request))
  }

  /** There is only one such size. */
  lemma NearestUnique(ts: seq<Toc>, request: nat, a: nat, b: nat)
    requires Nearest(ts, request, a) && Nearest(ts, request, b)
    ensures a == b
  {
    var i :| First(ts, request, a, i);
    var j :| First(ts, request, b, j);
  }

  /** The nearest size, and how many images there are of it. */
  ghost predicate Right(ts: seq<Toc>, request: nat, best: nat, count: nat)
  {
    best != 0 && Nearest(ts, request, best) && count == |Matches(ts, best)|
  }

  /** What the loop of `_XcursorFindBestSize` knows after the entries `ts`. Size zero doubles as "none yet",
      so that when zero is nearest the loop may be left with any size that is no nearer. */
  ghost predicate BestSoFar(ts: seq<Toc>, request: nat, best: nat, count: nat)
  {
    if best == 0 then !HasImage(ts) || Nearest(ts, request, 0)
    else Right(ts, request, best, count) || (Nearest(ts, request, 0) && Dist(best, request) >= request)
  }

  /** The next entry takes over the lead only if it is strictly nearer, or the first image. */
  lemma Leads(ts: seq<Toc>, t: Toc, request: nat)
    requires IsImage(t)
    requires forall i :: 0 <= i < |ts| && IsImage(ts[i]) ==> Dist(t.subtype, request) < Dist(ts[i].subtype, request)
    ensures Nearest(ts + [t], request, t.subtype) && |Matches(ts + [t], t.subtype)| == 1
  {
    var all := ts + [t];
    assert all[..|ts|] == ts;
    assert First(all, request, t.subtype, |ts|);
    NoMatches(ts, t.subtype);
  }

  /** An entry that is no image, or no nearer, leaves the lead where it is. */
  lemma Stays(ts: seq<Toc>, t: Toc, request: nat, best: nat)
    requires Nearest(ts, request, best) && (IsImage(t) ==> Dist(t.subtype, request) >= Dist(best, request))
    ensures Nearest(ts + [t], request, best)
    ensures |Matches(ts + [t], best)| == |Matches(ts, best)| + (if IsImage(t) && t.subtype == best then 1 else 0)
  {
    var all := ts + [t];
    assert all[..|ts|] == ts;
    var i :| First(ts, request, best, i);
    assert First(all, request, best, i);
  }

  /** Nothing is nearer than the nearest. */
  lemma NoneNearer(ts: seq<Toc>, request: nat, best: nat, d: nat)
    requires Nearest(ts, request, best) && d < Dist(best, request)
    ensures forall i :: 0 <= i < |ts| && IsImage(ts[i]) ==> d < Dist(ts[i].subtype, request)
  {
    var i :| First(ts, request, best, i);
  }

  /** The entry is taken as the new best. */
  lemma BestTaken(ts: seq<Toc>, t: Toc, request: nat, best: nat, count: nat)
    requires BestSoFar(ts, request, best, count) && IsImage(t)
    requires best == 0 || Dist(t.subtype, request) < Dist(best, request)
    ensures BestSoFar(ts + [t], request, t.subtype, 1)
  {
    var d := Dist(t.subtype, request);
    if !HasImage(ts) {
      Leads(ts, t, request);
    } else {
      var lead := if best != 0 && Right(ts, request, best, count) then best else 0;
      if d < Dist(lead, request) {
        NoneNearer(ts, request, lead, d);
        Leads(ts, t, request);
      } else {
        Stays(ts, t, request, 0);
      }
    }
  }

  /** The entry is passed over. */
  lemma BestKept(ts: seq<Toc>, t: Toc, request: nat, best: nat, count: nat)
    requires BestSoFar(ts, request, best, count)
    requires IsImage(t) ==> best != 0 && Dist(t.subtype, request) >= Dist(best, request)
    ensures BestSoFar(ts + [t], request, best, if IsImage(t) && t.subtype == best then count + 1 else count)
  {
    if !HasImage(ts) && best == 0 {
      assert !HasImage(ts + [t]);
    } else {
      Stays(ts, t, request, if best != 0 && Right(ts, request, best, count) then best else 0);
    }
  }

  lemma {:induction false} NoMatches(ts: seq<Toc>, size: nat)
    requires forall i :: 0 <= i < |ts| && IsImage(ts[i]) ==> ts[i].subtype != size
    ensures Matches(ts, size) == []
  {
    if ts != [] {
      NoMatches(ts[..|ts| - 1], size);
    }
  }

  /** The size `_XcursorFindBestSize` settles on and how many images of it it counted; zero doubles as
      "none yet". */
  function BestOf(ts: seq<Toc>, request: nat): (nat, nat)
  {
    if ts == [] then (0, 0)
    else
      var n := |ts| - 1;
      var (best, count) := BestOf(ts[..n], request);
      if !IsImage(ts[n]) then (best, count)
      else if best == 0 || Dist(ts[n].subtype, request) < Dist(best, request) then (ts[n].subtype, 1)
      else if ts[n].subtype == best then (best, count + 1)
      else (best, count)
  }

  lemma {:induction false} BestOfSoFar(ts: seq<Toc>, request: nat)
    ensures BestSoFar(ts, request, BestOf(ts, request).0, BestOf(ts, request).1)
  {
    if ts != [] {
      var n := |ts| - 1;
      var t := ts[n];
      BestOfSoFar(ts[..n], request);
      assert ts == ts[..n] + [t];
      var (best, count) := BestOf(ts[..n], request);
      if IsImage(t) && (best == 0 || Dist(t.subtype, request) < Dist(best, request)) {
        BestTaken(ts[..n], t, request, best, count);
      } else {
        BestKept(ts[..n], t, request, best, count);
      }
    }
  }

  /** The choice made for a request is the nearest size, with its full count. */
  ghost predicate RightFor(ts: seq<Toc>, request: nat)
  {
    Right(ts, request, BestOf(ts, request).0, BestOf(ts, request).1)
  }

  /** The choice for a request is right exactly when the nearest size is not zero. */
  lemma ChoiceRightIff(ts: seq<Toc>, request: nat)
    requires HasImage(ts)
    ensures RightFor(ts, request) <==> !Nearest(ts, request, 0)
  {
    BestOfSoFar(ts, request);
    if RightFor(ts, request) && Nearest(ts, request, 0) {
      NearestUnique(ts, request, 0, BestOf(ts, request).0);
      assert false;
    }
  }

  /** A wrong choice: for request 1 an image of size 0 is nearer than one of size 48, which is chosen. And
      no choice at all: the only image has size 0. */
  lemma ChoiceCanBeWrong(request: nat)
    ensures var ts := [Toc(IMAGE_TYPE, 0, 0), Toc(IMAGE_TYPE, 48, 0)];
      BestOf(ts, 1) == (48, 1) && Nearest(ts, 1, 0)
    ensures BestOf([Toc(IMAGE_TYPE, 0, 0)], request) == (0, 1) && Nearest([Toc(IMAGE_TYPE, 0, 0)], request, 0)
  {
    var one := [Toc(IMAGE_TYPE, 0, 0)];
    var two := [Toc(IMAGE_TYPE, 0, 0), Toc(IMAGE_TYPE, 48, 0)];
    assert one[..0] == [] && two[..1] == one;
    assert First(one, request, 0, 0);
    assert BestOf(one, 1) == (0, 1);
    assert First(two, 1, 0, 0);
  }

  /** `_XcursorFindBestSize`. */
  method FindBestSize(ts: seq<Toc>, request: nat) returns (best: nat, count: nat)
    ensures (best, count) == BestOf(ts, request)
  {
    best, count := 0, 0;
    for n := 0 to |ts|
      invariant (best, count) == BestOf(ts[..n], request)
    {
      assert ts[..n + 1][..n] == ts[..n];
      if IsImage(ts[n]) {
        var thisSize := ts[n].subtype;
        if best == 0 || Dist(thisSize, request) < Dist(best, request) {
          best, count := thisSize, 1;
        } else if thisSize == best {
          count := count + 1;
        }
      }
    }
    assert ts[..|ts|] == ts;
  }

  /** `_XcursorFindImageToc`: the `count`-th entry of the given size, if there are that many. */
  method FindImageToc(ts: seq<Toc>, size: nat, count: nat) returns (toc: Option<nat>)
    ensures toc == if count < |Matches(ts, size)| then Some(Matches(ts, size)[count]) else None
  {
    var left := count;
    for n := 0 to |ts|
      invariant 0 <= left <= count && count - left == |Matches(ts[..n], size)|
    {
      assert ts[..n + 1][..n] == ts[..n];
      if IsImage(ts[n]) && ts[n].subtype == size {
        assert Matches(ts[..n + 1], size) == Matches(ts[..n], size) + [n];
        if left == 0 {
          MatchesPrefix(ts, size, n + 1);
          assert Matches(ts[..n + 1], size)[count] == n;
          return Some(n);
        }
        left := left - 1;
      }
    }
    assert ts[..|ts|] == ts;
    toc := None;
  }

  /** The matches of a prefix come first. */
  lemma {:induction false} MatchesPrefix(ts: seq<Toc>, size: nat, n: nat)
    requires n <= |ts|
    ensures Matches(ts[..n], size) <= Matches(ts, size)
    decreases |ts| - n
  {
    if n < |ts| {
      MatchesPrefix(ts, size, n + 1);
      assert ts[..n + 1][..n] == ts[..n];
    } else {
      assert ts[..n] == ts;
    }
  }

  // ------------------------------------------------------------------------- reading

  /** Everything the loader answers, as a function of the bytes. */
  function Loaded(b: seq<Byte>, ts: seq<Toc>, ms: seq<nat>): (images: Option<seq<Image>>)
    requires forall k :: 0 <= k < |ms| ==> ms[k] < |ts|
  {
    if ms == [] then Some([])
    else
      var n := |ms| - 1;
      match Loaded(b, ts, ms[..n])
      case None => None
      case Some(before) => if ImageFits(b, ts[ms[n]]) then Some(before + [ImageAt(b, ts[ms[n]])]) else None
  }

  /** If every chosen chunk is sound, all of them come back, in order; if one is not, nothing does. */
  lemma {:induction false} LoadedAll(b: seq<Byte>, ts: seq<Toc>, ms: seq<nat>)
    requires forall k :: 0 <= k < |ms| ==> ms[k] < |ts|
    ensures Loaded(b, ts, ms).Some? <==> forall k :: 0 <= k < |ms| ==> ImageFits(b, ts[ms[k]])
    ensures Loaded(b, ts, ms).Some? ==> |Loaded(b, ts, ms).value| == |ms|
    ensures Loaded(b, ts, ms).Some? ==>
      forall k :: 0 <= k < |ms| ==> ImageFits(b, ts[ms[k]]) && Loaded(b, ts, ms).value[k] == ImageAt(b, ts[ms[k]])
  {
    if ms != [] {
      LoadedAll(b, ts, ms[..|ms| - 1]);
    }
  }

  lemma AreaPositive(width: nat, height: nat)
    requires width > 0 && height > 0
    ensures width * height > 0
  {
  }

  class CursorFile {
    const bytes: seq<Byte>
    var pos: nat

    constructor (bytes: seq<Byte>)
      ensures this.bytes == bytes && pos == 0
    {
      this.bytes, pos := bytes, 0;
    }

    /** `_XcursorReadUInt`; a short read consumes what is left. */
    method ReadUInt() returns (u: Option<nat>)
      modifies this`pos
      ensures old(pos) + 4 <= |bytes| ==> u == Some(U32(bytes, old(pos))) && pos == old(pos) + 4
      ensures old(pos) + 4 > |bytes| ==> u == None
    {
      if pos + 4 <= |bytes| {
        u := Some(U32(bytes, pos));
        pos := pos + 4;
      } else {
        u := None;
        if pos < |bytes| { pos := |bytes|; }
      }
    }

    /** The three numbers of one table entry. */
    method ReadToc() returns (t: Option<Toc>)
      modifies this`pos
      ensures old(pos) + TOC_LEN <= |bytes| ==> t == Some(TocAt(bytes, old(pos))) && pos == old(pos) + TOC_LEN
      ensures old(pos) + TOC_LEN > |bytes| ==> t == None
    {
      var kind := ReadUInt();
      if kind.None? { return None; }
      var subtype := ReadUInt();
      if subtype.None? { return None; }
      var position := ReadUInt();
      if position.None? { return None; }
      t := Some(Toc(kind.value, subtype.value, position.value));
    }

    /** The four numbers of the file header; the position is left after them. */
    method ReadPreamble() returns (h: Option<(nat, nat)>)
      modifies this`pos
      ensures FILE_HEADER_LEN <= |bytes| && old(pos) == 0 && U32(bytes, 0) == MAGIC ==>
        h == Some((U32(bytes, 4), U32(bytes, 12))) && pos == FILE_HEADER_LEN
      ensures old(pos) == 0 && (FILE_HEADER_LEN > |bytes| || U32(bytes, 0) != MAGIC) ==> h == None
    {
      var magic := ReadUInt();
      if magic.None? || magic.value != MAGIC { return None; }
      var header := ReadUInt();
      if header.None? { return None; }
      var version := ReadUInt();
      if version.None? { return None; }
      var ntoc := ReadUInt();
      if ntoc.None? { return None; }
      h := Some((header.value, ntoc.value));
    }

    /** `_XcursorReadFileHeader`. */
    method ReadFileHeader() returns (tocs: Option<seq<Toc>>)
      requires pos == 0
      modifies this`pos
      ensures tocs == if HeaderFits(bytes) then Some(Tocs(bytes)) else None
    {
      var h := ReadPreamble();
      if h.None? { return None; }
      var (header, ntoc) := h.value;
      pos := pos + (header - FILE_HEADER_LEN) % TWO32;
      assert pos == TocStart(bytes);
      if ntoc > MAX_TOC { return None; }
      var ts := ReadTocs(ntoc);
      if |ts| != ntoc { return None; }
      tocs := Some(ts);
      assert ts == Tocs(bytes);
    }

    method ReadTocs(ntoc: nat) returns (ts: seq<Toc>)
      modifies this`pos
      ensures ntoc == 0 ==> ts == []
      ensures |ts| <= ntoc && (|ts| == ntoc <==> ntoc == 0 || old(pos) + TOC_LEN * ntoc <= |bytes|)
      ensures |ts| == ntoc > 0 ==> forall i :: 0 <= i < ntoc ==>
        old(pos) + TOC_LEN * i + TOC_LEN <= |bytes| && ts[i] == TocAt(bytes, old(pos) + TOC_LEN * i)
    {
      ts := [];
      var n := 0;
      while n < ntoc
        invariant 0 <= n <= ntoc && |ts| == n && pos == old(pos) + TOC_LEN * n
        invariant n > 0 ==> pos <= |bytes|
        invariant forall i :: 0 <= i < n ==>
          old(pos) + TOC_LEN * i + TOC_LEN <= |bytes| && ts[i] == TocAt(bytes, old(pos) + TOC_LEN * i)
      {
        var t := ReadToc();
        if t.None? { break; }
        ts := ts + [t.value];
        n := n + 1;
      }
    }

    method ReadPixels(n: nat) returns (pixels: Option<seq<nat>>)
      modifies this`pos
      ensures pos >= 0
      ensures n > 0 ==> pixels == if old(pos) + 4 * n <= |bytes| then Some(Pixels(bytes, old(pos), n)) else None
    {
      var ps := [];
      var k := 0;
      while k < n
        invariant 0 <= k <= n && |ps| == k && pos == old(pos) + 4 * k
        invariant k > 0 ==> pos <= |bytes|
        invariant forall j :: 0 <= j < k ==> old(pos) + 4 * j + 4 <= |bytes| && ps[j] == U32(bytes, old(pos) + 4 * j)
      {
        var u := ReadUInt();
        if u.None? { return None; }
        ps := ps + [u.value];
        k := k + 1;
      }
      pixels := Some(ps);
      if n > 0 {
        assert ps == Pixels(bytes, old(pos), n);
      }
    }

    /** The nine numbers of an image chunk's header, at the current position. */
    method ReadNine() returns (h: Option<seq<nat>>)
      modifies this`pos
      ensures old(pos) + IMAGE_HEADER_LEN <= |bytes| ==>
        h == Some(Pixels(bytes, old(pos), 9)) && pos == old(pos) + IMAGE_HEADER_LEN
      ensures old(pos) + IMAGE_HEADER_LEN > |bytes| ==> h == None
    {
      var start := pos;
      h := ReadPixels(9);
      if h.Some? {
        pos := start + IMAGE_HEADER_LEN;
      }
    }

    /** `_XcursorReadImage`. */
    method ReadImage(t: Toc) returns (image: Option<Image>)
      modifies this`pos
      ensures image == if ImageFits(bytes, t) then Some(ImageAt(bytes, t)) else None
    {
      pos := t.position;
      var h := ReadNine();
      if h.None? { return None; }
      var kind, subtype, version := h.value[1], h.value[2], h.value[3];
      if kind != t.kind || subtype != t.subtype { return None; }
      var width, height, xhot, yhot, delay := h.value[4], h.value[5], h.value[6], h.value[7], h.value[8];
      if width >= 0x10000 || height > 0x10000 { return None; }
      if width == 0 || height == 0 { return None; }
      if xhot > width || yhot > height { return None; }
      AreaPositive(width, height);
      var pixels := ReadPixels(width * height);
      if pixels.None? { return None; }
      image := Some(Image(if version < IMAGE_VERSION then version else IMAGE_VERSION,
                          subtype, width, height, xhot, yhot, delay, pixels.value));
    }

    /** `XcursorXcFileLoadImages`. */
    method LoadImages(size: int) returns (images: Option<seq<Image>>)
      requires pos == 0
      modifies this`pos
      ensures images == Load(bytes, size)
    {
      if size < 0 { return None; }
      var header := ReadFileHeader();
      if header.None? { return None; }
      var ts := header.value;
      var best, nsize := FindBestSize(ts, size);
      if best == 0 { return None; }
      images := LoadAll(ts, best, nsize);
    }

    /** The loading loop: stops at the first entry that is missing or unsound. */
    method LoadAll(ts: seq<Toc>, best: nat, nsize: nat) returns (images: Option<seq<Image>>)
      modifies this`pos
      ensures images == LoadFirst(bytes, ts, Matches(ts, best), nsize)
    {
      var loaded: seq<Image> := [];
      for n := 0 to nsize
        invariant n <= |Matches(ts, best)|
        invariant Loaded(bytes, ts, Matches(ts, best)[..n]) == Some(loaded)
      {
        var toc := FindImageToc(ts, best, n);
        if toc.None? { return None; }
        LoadedNext(bytes, ts, Matches(ts, best), n, nsize);
        var image := ReadImage(ts[toc.value]);
        if image.None? { return None; }
        loaded := loaded + [image.value];
      }
      images := Some(loaded);
    }
  }

  /** The first `n` of the entries `ms`, if there are that many and all are sound. */
  function LoadFirst(b: seq<Byte>, ts: seq<Toc>, ms: seq<nat>, n: nat): Option<seq<Image>>
    requires forall k :: 0 <= k < |ms| ==> ms[k] < |ts|
  {
    if n <= |ms| then Loaded(b, ts, ms[..n]) else None
  }

  /** What the loader answers for the bytes `b`. */
  function Load(b: seq<Byte>, size: int): Option<seq<Image>>
  {
    if size < 0 || !HeaderFits(b) then None
    else
      var ts := Tocs(b);
      var (best, count) := BestOf(ts, size);
      if best == 0 then None else LoadFirst(b, ts, Matches(ts, best), count)
  }

  lemma LoadedNext(b: seq<Byte>, ts: seq<Toc>, ms: seq<nat>, n: nat, nsize: nat)
    requires (forall k :: 0 <= k < |ms| ==> ms[k] < |ts|) && n < |ms| && n < nsize
    requires Loaded(b, ts, ms[..n]).Some?
    ensures Loaded(b, ts, ms[..n + 1]) ==
      if ImageFits(b, ts[ms[n]]) then Some(Loaded(b, ts, ms[..n]).value + [ImageAt(b, ts[ms[n]])]) else None
    ensures !ImageFits(b, ts[ms[n]]) ==> LoadFirst(b, ts, ms, nsize) == None
  {
    assert ms[..n + 1][..n] == ms[..n];
    if !ImageFits(b, ts[ms[n]]) && nsize <= |ms| {
      assert ms[..nsize][..n + 1] == ms[..n + 1];
      LoadedPrefix(b, ts, ms[..nsize], n + 1);
    }
  }

  /** The loading theorem: unless zero is the nearest size, the images of the nearest size come back, all of
      them, in table order, each as its chunk says; the count makes every lookup succeed; and one unsound
      chunk among them makes the whole load fail. */
  lemma LoadsTheNearest(b: seq<Byte>, size: nat) returns (best: nat)
    requires HeaderFits(b) && HasImage(Tocs(b)) && !Nearest(Tocs(b), size, 0)
    ensures var ts := Tocs(b);
      && best != 0 && Nearest(ts, size, best) && BestOf(ts, size) == (best, |Matches(ts, best)|)
      && Load(b, size) == Loaded(b, ts, Matches(ts, best))
  {
    var ts := Tocs(b);
    ChoiceRightIff(ts, size);
    best := BestOf(ts, size).0;
    var ms := Matches(ts, best);
    assert ms[..|ms|] == ms;
  }

  /** Every image loaded for some entries of one size has that size. */
  lemma LoadedSize(b: seq<Byte>, ts: seq<Toc>, size: nat, ms: seq<nat>)
    requires ms <= Matches(ts, size) && Loaded(b, ts, ms).Some?
    ensures forall k :: 0 <= k < |Loaded(b, ts, ms).value| ==> Loaded(b, ts, ms).value[k].size == size
  {
    LoadedAll(b, ts, ms);
    assert forall k :: 0 <= k < |ms| ==> ms[k] == Matches(ts, size)[k];
  }

  /** And when zero is the nearest size, no image of size zero ever comes back. */
  lemma ZeroNeverLoads(b: seq<Byte>, size: nat)
    requires HeaderFits(b) && Nearest(Tocs(b), size, 0)
    ensures Load(b, size).Some? ==>
      forall k :: 0 <= k < |Load(b, size).value| ==> Load(b, size).value[k].size != 0
  {
    var ts := Tocs(b);
    var (best, count) := BestOf(ts, size);
    if best != 0 && Load(b, size).Some? {
      LoadedSize(b, ts, best, Matches(ts, best)[..count]);
    }
  }

  /** A negative size or a bad header loads nothing. */
  lemma RefusesToLoad(b: seq<Byte>, size: int)
    requires size < 0 || |b| < 16 || U32(b, 0) != 0x72756358 || U32(b, 12) > 65536
    ensures Load(b, size) == None
  {
  }

  /** Without an image there is nothing to load. */
  lemma LoadsNothing(b: seq<Byte>, size: nat)
    requires HeaderFits(b) && !HasImage(Tocs(b))
    ensures Load(b, size) == None
  {
    NoImageNoBest(Tocs(b), size);
  }

  lemma {:induction false} NoImageNoBest(ts: seq<Toc>, request: nat)
    requires !HasImage(ts)
    ensures BestOf(ts, request) == (0, 0)
  {
    if ts != [] {
      var n := |ts| - 1;
      assert IsImage(ts[n]) ==> HasImage(ts);
      assert forall i :: 0 <= i < n ==> ts[..n][i] == ts[i];
      NoImageNoBest(ts[..n], request);
    }
  }

  /** One unsound chunk is enough to give up. */
  lemma {:induction false} LoadedPrefix(b: seq<Byte>, ts: seq<Toc>, ms: seq<nat>, n: nat)
    requires (forall k :: 0 <= k < |ms| ==> ms[k] < |ts|) && n <= |ms|
    requires Loaded(b, ts, ms[..n]) == None
    ensures Loaded(b, ts, ms) == None
    decreases |ms| - n
  {
    if n == |ms| {
      assert ms[..n] == ms;
    } else {
      assert ms[..n + 1][..n] == ms[..n];
      LoadedPrefix(b, ts, ms, n + 1);
    }
  }
}
