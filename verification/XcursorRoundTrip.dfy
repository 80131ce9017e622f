/**
  Writing a cursor file and loading it back. The writer lays out the header, one table entry per image
  and the image chunks, all as little-endian 32-bit words.
 */
module XcursorRoundTrip {
  import opened Basics
  import opened XcursorFormat

  function LE(x: nat): (b: seq<Byte>)
    requires x < TWO32
    ensures |b| == 4 && U32(b, 0) == x
  {
    var x1 := x / 0x100;
    var x2 := x1 / 0x100;
    [x % 0x100, x1 % 0x100, x2 % 0x100, x2 / 0x100]
  }

  predicate AllWords(ws: seq<nat>)
  {
    forall i :: 0 <= i < |ws| ==> ws[i] < TWO32
  }

  function Bytes(ws: seq<nat>): (b: seq<Byte>)
    requires AllWords(ws)
    ensures |b| == 4 * |ws|
  {
    if ws == [] then [] else Bytes(ws[..|ws| - 1]) + LE(ws[|ws| - 1])
  }

  lemma {:induction false} WordAt(ws: seq<nat>, i: nat)
    requires AllWords(ws) && i < |ws|
    ensures U32(Bytes(ws), 4 * i) == ws[i]
  {
    var n := |ws| - 1;
    var front, last := Bytes(ws[..n]), LE(ws[n]);
    if i < n {
      WordAt(ws[..n], i);
      assert U32(front + last, 4 * i) == U32(front, 4 * i);
    } else {
      assert U32(front + last, 4 * i) == U32(last, 0);
    }
  }

  // ------------------------------------------------------------------------- the writer

  /** A cursor file before it is written: the file's version, whatever follows the four header words (the
      header length tells how much), and the images. */
  datatype Draft = Draft(version: nat, extra: seq<nat>, ms: seq<Image>)

  /** All fields fit their words, and there are as many pixels as the dimensions say. */
  predicate Writable(m: Image)
  {
    && m.version < TWO32 && m.size < TWO32 && m.width < TWO32 && m.height < TWO32 && m.xhot < TWO32 && m.yhot < TWO32
    && m.delay < TWO32 && AllWords(m.pixels) && |m.pixels| == m.width * m.height
  }

  predicate AllWritable(ms: seq<Image>)
  {
    forall i :: 0 <= i < |ms| ==> Writable(ms[i])
  }

  /** The dimensions a loader accepts, with the hot spot inside. */
  predicate Sane(m: Image)
  {
    1 <= m.width <= 65535 && 1 <= m.height <= 65536 && m.xhot <= m.width && m.yhot <= m.height
  }

  predicate AllSane(ms: seq<Image>)
  {
    forall i :: 0 <= i < |ms| ==> Sane(ms[i])
  }

  /** A newer image version is read as version 1. */
  function Known(m: Image): Image
  {
    m.(version := if m.version > 1 then 1 else m.version)
  }

  function AllKnown(ms: seq<Image>): seq<Image>
  {
    seq(|ms|, i requires 0 <= i < |ms| => Known(ms[i]))
  }

  function Chunk(m: Image): seq<nat>
  {
    [IMAGE_HEADER_LEN, IMAGE_TYPE, m.size, m.version, m.width, m.height, m.xhot, m.yhot, m.delay] + m.pixels
  }

  function Chunks(ms: seq<Image>): seq<nat>
  {
    if ms == [] then [] else Chunks(ms[..|ms| - 1]) + Chunk(ms[|ms| - 1])
  }

  /** The word at which the table starts. */
  function Base(f: Draft): nat
  {
    4 + |f.extra|
  }

  /** The word at which the chunk of image `i` starts. */
  function Start(f: Draft, i: nat): nat
    requires i <= |f.ms|
  {
    Base(f) + 3 * |f.ms| + |Chunks(f.ms[..i])|
  }

  function TocWords(f: Draft, n: nat): (ws: seq<nat>)
    requires n <= |f.ms|
    ensures |ws| == 3 * n
  {
    if n == 0 then [] else TocWords(f, n - 1) + [IMAGE_TYPE, f.ms[n - 1].size, 4 * Start(f, n - 1)]
  }

  function Preamble(f: Draft): (ws: seq<nat>)
    ensures |ws| == Base(f)
  {
    [MAGIC, 4 * Base(f), f.version, |f.ms|] + f.extra
  }

  function FileWords(f: Draft): seq<nat>
  {
    Preamble(f) + TocWords(f, |f.ms|) + Chunks(f.ms)
  }

  /** Files the 32-bit format can hold. */
  predicate Fits(f: Draft)
  {
    && f.version < TWO32 && AllWords(f.extra) && AllWritable(f.ms)
    && |f.ms| <= 65536 && 4 * |FileWords(f)| < TWO32
  }

  function Write(f: Draft): seq<Byte>
    requires Fits(f) && AllWords(FileWords(f))
  {
    Bytes(FileWords(f))
  }

  // ------------------------------------------------------------------------- layout

  lemma ChunkWords(m: Image)
    requires Writable(m)
    ensures AllWords(Chunk(m))
  {
  }

  lemma {:induction false} ChunksWords(ms: seq<Image>)
    requires AllWritable(ms)
    ensures AllWords(Chunks(ms))
  {
    if ms != [] {
      ChunksWords(ms[..|ms| - 1]);
      ChunkWords(ms[|ms| - 1]);
    }
  }

  lemma {:induction false} ChunkPlace(ms: seq<Image>, i: nat)
    requires i < |ms|
    ensures |Chunks(ms[..i])| + |Chunk(ms[i])| <= |Chunks(ms)|
    ensures Chunks(ms)[|Chunks(ms[..i])|..|Chunks(ms[..i])| + |Chunk(ms[i])|] == Chunk(ms[i])
  {
    var n := |ms| - 1;
    var front, last := Chunks(ms[..n]), Chunk(ms[n]);
    assert Chunks(ms) == front + last;
    if i < n {
      ChunkPlace(ms[..n], i);
      assert ms[..n][..i] == ms[..i] && ms[..n][i] == ms[i];
      var at, end := |Chunks(ms[..i])|, |Chunks(ms[..i])| + |Chunk(ms[i])|;
      assert (front + last)[at..end] == front[at..end];
    } else {
      assert (front + last)[|front|..] == last;
    }
  }

  lemma {:induction false} TocPlace(f: Draft, n: nat, i: nat)
    requires i < n <= |f.ms|
    ensures TocWords(f, n)[3 * i..3 * i + 3] == [IMAGE_TYPE, f.ms[i].size, 4 * Start(f, i)]
  {
    if i < n - 1 {
      TocPlace(f, n - 1, i);
    }
  }

  lemma {:induction false} TocAllWords(f: Draft, n: nat)
    requires Fits(f) && n <= |f.ms|
    ensures AllWords(TocWords(f, n))
  {
    if n > 0 {
      TocAllWords(f, n - 1);
      ChunkPlace(f.ms, n - 1);
      assert Start(f, n - 1) <= |FileWords(f)|;
    }
  }

  lemma FileAllWords(f: Draft)
    requires Fits(f)
    ensures AllWords(FileWords(f))
  {
    ChunksWords(f.ms);
    TocAllWords(f, |f.ms|);
  }

  /** Word `k` of chunk `i` in the finished file. */
  lemma FileChunkWord(f: Draft, i: nat, k: nat)
    requires Fits(f) && i < |f.ms| && k < |Chunk(f.ms[i])|
    ensures Start(f, i) + k < |FileWords(f)| && FileWords(f)[Start(f, i) + k] == Chunk(f.ms[i])[k]
  {
    ChunkPlace(f.ms, i);
    var at := |Chunks(f.ms[..i])|;
    assert Chunks(f.ms)[at + k] == Chunks(f.ms)[at..at + |Chunk(f.ms[i])|][k];
  }

  lemma FileTocWord(f: Draft, i: nat, k: nat)
    requires Fits(f) && i < |f.ms| && k < 3
    ensures Base(f) + 3 * i + k < |FileWords(f)|
    ensures FileWords(f)[Base(f) + 3 * i + k] == [IMAGE_TYPE, f.ms[i].size, 4 * Start(f, i)][k]
  {
    TocPlace(f, |f.ms|, i);
    var ws := TocWords(f, |f.ms|);
    assert ws[3 * i + k] == ws[3 * i..3 * i + 3][k];
  }

  lemma WrittenChunk(f: Draft, i: nat, k: nat)
    requires Fits(f) && i < |f.ms| && k < |Chunk(f.ms[i])|
    ensures AllWords(FileWords(f)) && 4 * (Start(f, i) + k) + 4 <= |Write(f)|
    ensures U32(Write(f), 4 * Start(f, i) + 4 * k) == Chunk(f.ms[i])[k]
  {
    FileAllWords(f);
    FileChunkWord(f, i, k);
    WordAt(FileWords(f), Start(f, i) + k);
    assert 4 * (Start(f, i) + k) == 4 * Start(f, i) + 4 * k;
  }

  function EntryOf(f: Draft, i: nat): Toc
    requires i < |f.ms|
  {
    Toc(IMAGE_TYPE, f.ms[i].size, 4 * Start(f, i))
  }

  lemma WrittenWord(f: Draft, k: nat)
    requires Fits(f) && k < |FileWords(f)|
    ensures AllWords(FileWords(f)) && 4 * k + 4 <= |Write(f)|
    ensures U32(Write(f), 4 * k) == FileWords(f)[k]
  {
    FileAllWords(f);
    WordAt(FileWords(f), k);
  }

  lemma WrittenToc(f: Draft, i: nat)
    requires Fits(f) && i < |f.ms|
    ensures AllWords(FileWords(f)) && 4 * Base(f) + TOC_LEN * i + TOC_LEN <= |Write(f)|
    ensures TocAt(Write(f), 4 * Base(f) + TOC_LEN * i) == EntryOf(f, i)
  {
    FileTocWord(f, i, 0);
    FileTocWord(f, i, 1);
    FileTocWord(f, i, 2);
    WrittenWord(f, Base(f) + 3 * i);
    WrittenWord(f, Base(f) + 3 * i + 1);
    WrittenWord(f, Base(f) + 3 * i + 2);
  }

  lemma PreambleWords(f: Draft, ws: seq<nat>)
    requires ws == Preamble(f) + TocWords(f, |f.ms|) + Chunks(f.ms)
    ensures |ws| >= Base(f) && ws[0] == MAGIC && ws[1] == 4 * Base(f) && ws[3] == |f.ms|
  {
  }

  lemma WrittenPreamble(f: Draft)
    requires Fits(f)
    ensures AllWords(FileWords(f)) && FILE_HEADER_LEN <= |Write(f)|
    ensures U32(Write(f), 0) == MAGIC && U32(Write(f), 4) == 4 * Base(f) && U32(Write(f), 12) == |f.ms|
  {
    PreambleWords(f, FileWords(f));
    WrittenWord(f, 0);
    WrittenWord(f, 1);
    WrittenWord(f, 3);
  }

  /** A header length of at least the four words is where the table starts. */
  lemma TocStartIs(b: seq<Byte>)
    requires FILE_HEADER_LEN <= |b| && U32(b, 4) >= FILE_HEADER_LEN
    ensures TocStart(b) == U32(b, 4)
  {
    var skip: int := U32(b, 4) - FILE_HEADER_LEN;
    assert 0 <= skip < TWO32;
  }

  lemma WrittenTocStart(f: Draft)
    requires Fits(f)
    ensures AllWords(FileWords(f)) && FILE_HEADER_LEN <= |Write(f)| && TocStart(Write(f)) == 4 * Base(f)
  {
    WrittenPreamble(f);
    TocStartIs(Write(f));
  }

  /** The written header parses, to exactly one image entry per image. */
  lemma WrittenHeader(f: Draft)
    requires Fits(f)
    ensures AllWords(FileWords(f)) && HeaderFits(Write(f))
    ensures |Tocs(Write(f))| == |f.ms|
    ensures forall i :: 0 <= i < |f.ms| ==> Tocs(Write(f))[i] == EntryOf(f, i)
  {
    FileAllWords(f);
    WrittenPreamble(f);
    WrittenTocStart(f);
    if f.ms != [] {
      WrittenToc(f, |f.ms| - 1);
    }
    forall i | 0 <= i < |f.ms|
      ensures Tocs(Write(f))[i] == EntryOf(f, i)
    {
      WrittenToc(f, i);
    }
  }

  lemma WrittenImageHeader(f: Draft, i: nat)
    requires Fits(f) && i < |f.ms|
    ensures var m, p := f.ms[i], 4 * Start(f, i);
      && AllWords(FileWords(f)) && p + IMAGE_HEADER_LEN <= |Write(f)|
      && U32(Write(f), p + 4) == IMAGE_TYPE && U32(Write(f), p + 8) == m.size
      && U32(Write(f), p + 12) == m.version && U32(Write(f), p + 16) == m.width
      && U32(Write(f), p + 20) == m.height && U32(Write(f), p + 24) == m.xhot
      && U32(Write(f), p + 28) == m.yhot && U32(Write(f), p + 32) == m.delay
  {
    WrittenChunk(f, i, 1);
    WrittenChunk(f, i, 2);
    WrittenChunk(f, i, 3);
    WrittenChunk(f, i, 4);
    WrittenChunk(f, i, 5);
    WrittenChunk(f, i, 6);
    WrittenChunk(f, i, 7);
    WrittenChunk(f, i, 8);
  }

  lemma WrittenPixels(f: Draft, i: nat)
    requires Fits(f) && i < |f.ms|
    ensures AllWords(FileWords(f))
    ensures 4 * Start(f, i) + IMAGE_HEADER_LEN + 4 * |f.ms[i].pixels| <= |Write(f)|
    ensures Pixels(Write(f), 4 * Start(f, i) + IMAGE_HEADER_LEN, |f.ms[i].pixels|) == f.ms[i].pixels
  {
    var m, p := f.ms[i], 4 * Start(f, i);
    WrittenChunk(f, i, |Chunk(m)| - 1);
    var ps := Pixels(Write(f), p + IMAGE_HEADER_LEN, |m.pixels|);
    forall k | 0 <= k < |m.pixels|
      ensures ps[k] == m.pixels[k]
    {
      WrittenChunk(f, i, 9 + k);
      assert Chunk(m)[9 + k] == m.pixels[k];
      assert p + 4 * (9 + k) == p + IMAGE_HEADER_LEN + 4 * k;
    }
    assert ps == m.pixels;
  }

  /** A written chunk is accepted exactly when its image is sane. */
  lemma WrittenImageFits(f: Draft, i: nat)
    requires Fits(f) && i < |f.ms|
    ensures AllWords(FileWords(f)) && (ImageFits(Write(f), EntryOf(f, i)) <==> Sane(f.ms[i]))
  {
    WrittenImageHeader(f, i);
    WrittenPixels(f, i);
    var m := f.ms[i];
    assert Writable(m);
  }

  /** And reads back as that image, pixel for pixel. */
  lemma WrittenImage(f: Draft, i: nat)
    requires Fits(f) && i < |f.ms|
    ensures AllWords(FileWords(f)) && (ImageFits(Write(f), EntryOf(f, i)) <==> Sane(f.ms[i]))
    ensures Sane(f.ms[i]) ==> ImageAt(Write(f), EntryOf(f, i)) == Known(f.ms[i])
  {
    WrittenImageFits(f, i);
    WrittenImageHeader(f, i);
    WrittenPixels(f, i);
    var m := f.ms[i];
    assert Writable(m);
  }

  // ------------------------------------------------------------------------- the round trip

  /** The images of one nominal size, in order. */
  function OfSize(ms: seq<Image>, size: nat): seq<Image>
  {
    if ms == [] then []
    else
      var n := |ms| - 1;
      if ms[n].size == size then OfSize(ms[..n], size) + [ms[n]] else OfSize(ms[..n], size)
  }

  /** `best` is the size of an image, none is nearer to the request, and the earliest wins a tie. */
  ghost predicate NearestSize(ms: seq<Image>, request: nat, best: nat)
  {
    exists i :: 0 <= i < |ms| && ms[i].size == best
      && (forall j :: 0 <= j < |ms| ==> Dist(best, request) <= Dist(ms[j].size, request))
      && (forall j :: 0 <= j < i ==> Dist(best, request) < Dist(ms[j].size, request))
  }

  /** The table `ts` in the bytes `b` describes the images `ms`. */
  ghost predicate Describes(b: seq<Byte>, ts: seq<Toc>, ms: seq<Image>)
  {
    && |ts| == |ms|
    && forall i :: 0 <= i < |ts| ==>
         && ts[i].kind == IMAGE_TYPE && ts[i].subtype == ms[i].size
         && (ImageFits(b, ts[i]) <==> Sane(ms[i]))
         && (Sane(ms[i]) ==> ImageAt(b, ts[i]) == Known(ms[i]))
  }

  /** What loading some images answers: all of them, or nothing if one is not sane. */
  function Answer(ms: seq<Image>): Option<seq<Image>>
  {
    if AllSane(ms) then Some(AllKnown(ms)) else None
  }

  lemma MatchesStep(ts: seq<Toc>, size: nat, k: nat)
    requires k < |ts|
    ensures Matches(ts[..k + 1], size) ==
      if IsImage(ts[k]) && ts[k].subtype == size then Matches(ts[..k], size) + [k] else Matches(ts[..k], size)
  {
    assert ts[..k + 1][..k] == ts[..k];
  }

  lemma OfSizeStep(ms: seq<Image>, size: nat, k: nat)
    requires k < |ms|
    ensures OfSize(ms[..k + 1], size) ==
      if ms[k].size == size then OfSize(ms[..k], size) + [ms[k]] else OfSize(ms[..k], size)
  {
    assert ms[..k + 1][..k] == ms[..k];
  }

  lemma LoadedStep(b: seq<Byte>, ts: seq<Toc>, before: seq<nat>, k: nat)
    requires (forall j :: 0 <= j < |before| ==> before[j] < |ts|) && k < |ts|
    ensures Loaded(b, ts, before).None? || !ImageFits(b, ts[k]) ==> Loaded(b, ts, before + [k]) == None
    ensures Loaded(b, ts, before).Some? && ImageFits(b, ts[k]) ==>
      Loaded(b, ts, before + [k]) == Some(Loaded(b, ts, before).value + [ImageAt(b, ts[k])])
  {
    assert (before + [k])[..|before|] == before;
  }

  lemma AnswerNothing()
    ensures Answer([]) == Some([])
  {
    assert AllKnown([]) == [];
  }

  lemma AnswerMore(ms: seq<Image>, m: Image)
    ensures Answer(ms).None? || !Sane(m) ==> Answer(ms + [m]) == None
    ensures Answer(ms).Some? && Sane(m) ==> Answer(ms + [m]) == Some(Answer(ms).value + [Known(m)])
  {
    var all := ms + [m];
    assert all[|ms|] == m;
    assert forall i :: 0 <= i < |ms| ==> all[i] == ms[i];
    assert AllKnown(all) == AllKnown(ms) + [Known(m)];
  }

  /** What the entries of one size among the first `k` load. */
  ghost predicate LoadsAs(b: seq<Byte>, ts: seq<Toc>, size: nat, k: nat, images: seq<Image>)
    requires k <= |ts|
  {
    Loaded(b, ts, Matches(ts[..k], size)) == Answer(images)
  }

  lemma LoadsNext(b: seq<Byte>, ts: seq<Toc>, ms: seq<Image>, size: nat, k: nat, images: seq<Image>, after: seq<Image>)
    requires Describes(b, ts, ms) && k < |ts| && LoadsAs(b, ts, size, k, images)
    requires after == if ms[k].size == size then images + [ms[k]] else images
    ensures LoadsAs(b, ts, size, k + 1, after)
  {
    MatchesStep(ts, size, k);
    if ms[k].size == size {
      LoadedStep(b, ts, Matches(ts[..k], size), k);
      AnswerMore(images, ms[k]);
    }
  }

  lemma LoadsNothingYet(b: seq<Byte>, ts: seq<Toc>, size: nat)
    ensures LoadsAs(b, ts, size, 0, [])
  {
    AnswerNothing();
  }

  lemma {:induction false} LoadedOfSize(b: seq<Byte>, ts: seq<Toc>, ms: seq<Image>, size: nat, k: nat)
    requires Describes(b, ts, ms) && k <= |ms|
    ensures LoadsAs(b, ts, size, k, OfSize(ms[..k], size))
  {
    if k == 0 {
      LoadsNothingYet(b, ts, size);
      assert OfSize(ms[..0], size) == [];
    } else {
      var n := k - 1;
      LoadedOfSize(b, ts, ms, size, n);
      OfSizeStep(ms, size, n);
      LoadsNext(b, ts, ms, size, n, OfSize(ms[..n], size), OfSize(ms[..n + 1], size));
    }
  }

  lemma Whole<T>(s: seq<T>)
    ensures s[..|s|] == s
  {
  }

  lemma LoadedWhole(b: seq<Byte>, ts: seq<Toc>, ms: seq<Image>, best: nat)
    requires Describes(b, ts, ms)
    ensures Loaded(b, ts, Matches(ts, best)) == Answer(OfSize(ms, best))
  {
    LoadedOfSize(b, ts, ms, best, |ms|);
    Whole(ts);
    Whole(ms);
  }

  lemma WrittenDescribes(f: Draft)
    requires Fits(f)
    ensures AllWords(FileWords(f)) && HeaderFits(Write(f)) && Describes(Write(f), Tocs(Write(f)), f.ms)
  {
    WrittenHeader(f);
    forall i | 0 <= i < |f.ms|
      ensures ImageFits(Write(f), EntryOf(f, i)) <==> Sane(f.ms[i])
      ensures Sane(f.ms[i]) ==> ImageAt(Write(f), EntryOf(f, i)) == Known(f.ms[i])
    {
      WrittenImage(f, i);
    }
  }

  /** A file describing some images loads the images of the nearest size. */
  lemma DescribedLoads(b: seq<Byte>, ms: seq<Image>, request: nat) returns (best: nat)
    requires HeaderFits(b) && Describes(b, Tocs(b), ms) && ms != [] && !NearestSize(ms, request, 0)
    ensures NearestSize(ms, request, best) && Load(b, request) == Answer(OfSize(ms, best))
  {
    var ts := Tocs(b);
    assert IsImage(ts[0]);
    NearestOf(b, ts, ms, request, 0);
    best := LoadsTheNearest(b, request);
    LoadedWhole(b, ts, ms, best);
    NearestOf(b, ts, ms, request, best);
  }

  lemma NearestOf(b: seq<Byte>, ts: seq<Toc>, ms: seq<Image>, request: nat, best: nat)
    requires Describes(b, ts, ms)
    ensures Nearest(ts, request, best) <==> NearestSize(ms, request, best)
  {
    if NearestSize(ms, request, best) {
      var i :| 0 <= i < |ms| && ms[i].size == best
        && (forall j :: 0 <= j < |ms| ==> Dist(best, request) <= Dist(ms[j].size, request))
        && (forall j :: 0 <= j < i ==> Dist(best, request) < Dist(ms[j].size, request));
      assert First(ts, request, best, i);
    }
    if Nearest(ts, request, best) {
      var i :| First(ts, request, best, i);
      forall j | 0 <= j < |ms|
        ensures Dist(best, request) <= Dist(ms[j].size, request)
        ensures j < i ==> Dist(best, request) < Dist(ms[j].size, request)
      {
        assert IsImage(ts[j]);
      }
      assert ms[i].size == best;
    }
  }

  /** Round trip: unless zero is the nearest size, loading a written file for a request returns exactly the
      images of the nearest size, in order, pixel for pixel; or nothing, if one of those is not sane. */
  lemma WriteThenLoad(f: Draft, request: nat) returns (best: nat)
    requires Fits(f) && f.ms != [] && !NearestSize(f.ms, request, 0)
    ensures AllWords(FileWords(f)) && NearestSize(f.ms, request, best)
    ensures Load(Write(f), request) == if AllSane(OfSize(f.ms, best)) then Some(AllKnown(OfSize(f.ms, best))) else None
  {
    WrittenDescribes(f);
    best := DescribedLoads(Write(f), f.ms, request);
  }

  /** When zero is the nearest size, no image of that size comes back, although there is one. */
  lemma ZeroIsLost(f: Draft, request: nat)
    requires Fits(f) && NearestSize(f.ms, request, 0)
    ensures exists i :: 0 <= i < |f.ms| && f.ms[i].size == 0
    ensures AllWords(FileWords(f))
    ensures Load(Write(f), request).Some? ==>
      forall k :: 0 <= k < |Load(Write(f), request).value| ==> Load(Write(f), request).value[k].size != 0
  {
    WrittenDescribes(f);
    NearestOf(Write(f), Tocs(Write(f)), f.ms, request, 0);
    ZeroNeverLoads(Write(f), request);
  }

  /** A file without images loads nothing. */
  lemma EmptyFile(f: Draft, request: nat)
    requires Fits(f) && f.ms == []
    ensures AllWords(FileWords(f)) && Load(Write(f), request) == None
  {
    WrittenDescribes(f);
    LoadsNothing(Write(f), request);
  }
}
