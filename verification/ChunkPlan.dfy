/** How a big file is cut into ranges, and how one range is copied
    (coordinator/internal/agentsrv/server.go planBigFiles, agent/src/chunk.c
    copy_range). Sizes and offsets are 64-bit and wrap as in the source. */
module ChunkPlan {

  const U64: nat := 0x1_0000_0000_0000_0000
  const I63: nat := 0x8000_0000_0000_0000

  datatype Range = Range(off: nat, len: nat)

  /** Rounds up, in 64-bit arithmetic, then narrows to a signed int. */
  function NChunks(size: nat, chunkSize: nat): (n: nat)
    requires 0 < chunkSize < U64 && size < U64
    ensures n >= 1
  {
    var q := ((size + chunkSize - 1) % U64) / chunkSize;
    if 1 <= q < I63 then q else 1
  }

  function RangeOf(size: nat, chunkSize: nat, c: nat): Range
    requires 0 < chunkSize < U64 && size < U64
  {
    var off := (c * chunkSize) % U64;
    Range(off, if (off + chunkSize) % U64 > size then (size - off) % U64 else chunkSize)
  }

  function Plan(size: nat, chunkSize: nat): (r: seq<Range>)
    requires 0 < chunkSize < U64 && size < U64
    ensures |r| == NChunks(size, chunkSize)
    ensures forall c :: 0 <= c < |r| ==> r[c] == RangeOf(size, chunkSize, c)
  {
    seq(NChunks(size, chunkSize), c requires 0 <= c < NChunks(size, chunkSize) => RangeOf(size, chunkSize, c))
  }

  /** The ranges are consecutive, start at 0 and end at size. */
  ghost predicate Tiles(rs: seq<Range>, size: nat) {
    && rs != [] && rs[0].off == 0
    && (forall c :: 0 < c < |rs| ==> rs[c].off == rs[c - 1].off + rs[c - 1].len)
    && rs[|rs| - 1].off + rs[|rs| - 1].len == size
  }

  lemma OneRange(size: nat, chunkSize: nat)
    requires 0 < chunkSize < U64 && size < U64 && NChunks(size, chunkSize) == 1
    ensures Tiles(Plan(size, chunkSize), size) <==> size <= chunkSize
  {
    assert (0 * chunkSize) % U64 == 0;
    assert chunkSize % U64 == chunkSize;
    var r := Plan(size, chunkSize);
    assert r == [RangeOf(size, chunkSize, 0)];
    assert r[0] == Range(0, if chunkSize > size then size % U64 else chunkSize);
  }

  lemma CeilBounds(size: nat, chunkSize: nat, n: nat)
    requires chunkSize > 0 && size > 0 && n == (size + chunkSize - 1) / chunkSize
    ensures (n - 1) * chunkSize < size <= n * chunkSize
  {
    var x := size + chunkSize - 1;
    assert x == n * chunkSize + x % chunkSize;
    assert (n - 1) * chunkSize == n * chunkSize - chunkSize;
  }

  lemma RangeExact(size: nat, chunkSize: nat, n: nat, c: nat)
    requires 0 < chunkSize < U64 && 0 < size < U64 && size + chunkSize - 1 < U64
    requires n == (size + chunkSize - 1) / chunkSize && c < n
    ensures c * chunkSize <= size
    ensures RangeOf(size, chunkSize, c)
            == Range(c * chunkSize, if c == n - 1 then size - c * chunkSize else chunkSize)
  {
    CeilBounds(size, chunkSize, n);
    var off := c * chunkSize;
    ChunkBounds(size, chunkSize, n, c, off);
    assert off % U64 == off && (off + chunkSize) % U64 == off + chunkSize;
    if off + chunkSize > size { assert (size - off) % U64 == size - off; }
  }

  /** Where range c starts and ends. */
  lemma ChunkBounds(size: nat, chunkSize: nat, n: nat, c: nat, off: nat)
    requires 0 < chunkSize && size + chunkSize - 1 < U64 && c < n && off == c * chunkSize
    requires (n - 1) * chunkSize < size <= n * chunkSize
    ensures off < size && off + chunkSize < U64
    ensures c < n - 1 ==> off + chunkSize < size
    ensures c == n - 1 ==> off + chunkSize >= size
  {
    Mono(c, n - 1, chunkSize);
    assert (c + 1) * chunkSize == off + chunkSize;
    if c < n - 1 {
      Mono(c + 1, n - 1, chunkSize);
    }
  }

  lemma Mono(a: nat, b: nat, m: nat)
    requires a <= b
    ensures a * m <= b * m
  {
  }

  /** The ranges tile [0, size) exactly when the file fits one chunk, or the
      rounding neither wraps nor yields a count beyond a signed int. Otherwise
      only the first chunk is planned and the tail of the file is never copied. */
  lemma PlanTilesIff(size: nat, chunkSize: nat)
    requires 0 < chunkSize < U64 && size < U64
    ensures Tiles(Plan(size, chunkSize), size) <==>
            size <= chunkSize ||
            (size + chunkSize - 1 < U64 && (size + chunkSize - 1) / chunkSize < I63)
  {
    var x := size + chunkSize - 1;
    if size <= chunkSize {
      SmallPlan(size, chunkSize);
      OneRange(size, chunkSize);
    } else if x < U64 && x / chunkSize < I63 {
      ManyRanges(size, chunkSize);
    } else {
      LostTail(size, chunkSize);
      OneRange(size, chunkSize);
    }
  }

  /** Range c of n, without wrapping. */
  predicate IsRange(r: Range, size: nat, chunkSize: nat, n: nat, c: nat) {
    && r.off == c * chunkSize
    && (if c == n - 1 then r.off + r.len == size else r.len == chunkSize)
  }

  lemma PlannedRange(size: nat, chunkSize: nat, n: nat, c: nat)
    requires 0 < chunkSize < U64 && 0 < size < U64 && size + chunkSize - 1 < U64
    requires n == (size + chunkSize - 1) / chunkSize && c < n
    ensures IsRange(RangeOf(size, chunkSize, c), size, chunkSize, n, c)
  {
    RangeExact(size, chunkSize, n, c);
  }

  lemma ExactTiles(r: seq<Range>, size: nat, chunkSize: nat, n: nat)
    requires |r| == n >= 1 && forall c :: 0 <= c < n ==> IsRange(r[c], size, chunkSize, n, c)
    ensures Tiles(r, size)
  {
    assert IsRange(r[0], size, chunkSize, n, 0) && 0 * chunkSize == 0;
    assert IsRange(r[n - 1], size, chunkSize, n, n - 1);
    forall c | 0 < c < |r| ensures r[c].off == r[c - 1].off + r[c - 1].len {
      assert IsRange(r[c - 1], size, chunkSize, n, c - 1) && IsRange(r[c], size, chunkSize, n, c);
      assert c * chunkSize == (c - 1) * chunkSize + chunkSize;
    }
  }

  lemma Count(size: nat, chunkSize: nat, n: nat)
    requires 0 < chunkSize < size && size + chunkSize - 1 < U64
    requires n == (size + chunkSize - 1) / chunkSize < I63
    ensures n == NChunks(size, chunkSize) >= 1
  {
    CeilBounds(size, chunkSize, n);
    assert (size + chunkSize - 1) % U64 == size + chunkSize - 1;
  }

  lemma Planned(size: nat, chunkSize: nat, n: nat, r: seq<Range>)
    requires 0 < chunkSize < U64 && 0 < size < U64 && size + chunkSize - 1 < U64
    requires n == (size + chunkSize - 1) / chunkSize == |r|
    requires forall c :: 0 <= c < |r| ==> r[c] == RangeOf(size, chunkSize, c)
    ensures forall c :: 0 <= c < n ==> IsRange(r[c], size, chunkSize, n, c)
  {
    forall c | 0 <= c < n ensures IsRange(r[c], size, chunkSize, n, c) {
      PlannedRange(size, chunkSize, n, c);
    }
  }

  lemma ManyRanges(size: nat, chunkSize: nat)
    requires 0 < chunkSize < size && size + chunkSize - 1 < U64
    requires (size + chunkSize - 1) / chunkSize < I63
    ensures Tiles(Plan(size, chunkSize), size)
  {
    var n := (size + chunkSize - 1) / chunkSize;
    Count(size, chunkSize, n);
    var r := Plan(size, chunkSize);
    Planned(size, chunkSize, n, r);
    ExactTiles(r, size, chunkSize, n);
  }

  lemma LostTail(size: nat, chunkSize: nat)
    requires 0 < chunkSize < size < U64
    requires size + chunkSize - 1 >= U64 || (size + chunkSize - 1) / chunkSize >= I63
    ensures NChunks(size, chunkSize) == 1
  {
    var x := size + chunkSize - 1;
    if x >= U64 {
      assert x % U64 == x - U64;
      DivSmall(x - U64, chunkSize);
    } else {
      assert x % U64 == x;
    }
  }

  lemma DivSmall(a: nat, b: nat)
    requires a < b
    ensures a / b == 0
  {
  }

  lemma SmallPlan(size: nat, chunkSize: nat)
    requires 0 < chunkSize < U64 && size <= chunkSize
    ensures NChunks(size, chunkSize) == 1
  {
    var x := size + chunkSize - 1;
    if x < U64 {
      assert x % U64 == x;
      DivAtMostOne(x, chunkSize);
    } else {
      assert x % U64 == x - U64;
      DivSmall(x - U64, chunkSize);
    }
  }

  lemma DivAtMostOne(a: nat, b: nat)
    requires 0 < b && a < 2 * b
    ensures a / b <= 1
  {
    var q := a / b;
    assert a == b * q + a % b;
    assert b * q == q * b;
    if q >= 2 {
      Mono(2, q, b);
    }
  }

  /** A stat size (signed 64-bit) above the chunk size is always planned
      completely. */
  lemma RealSizesTile(size: nat, chunkSize: nat)
    requires 0 < chunkSize < size < I63
    ensures Tiles(Plan(size, chunkSize), size)
  {
    var x := size + chunkSize - 1;
    assert x / chunkSize <= size by { CeilBounds(size, chunkSize, x / chunkSize); Quotient(x / chunkSize, chunkSize, size); }
    PlanTilesIff(size, chunkSize);
  }

  lemma Quotient(n: nat, m: nat, size: nat)
    requires m > 0 && size > 0 && (n - 1) * m < size
    ensures n <= size
  {
    if n >= 1 {
      Mono(1, m, n - 1);
      assert m * (n - 1) == (n - 1) * m;
    }
  }

  /** A size whose rounding wraps gets one chunk for the whole file. */
  lemma WrapLosesTail()
    ensures Plan(U64 - 1, 2) == [Range(0, 2)] && !Tiles(Plan(U64 - 1, 2), U64 - 1)
  {
    assert ((U64 - 1) + 2 - 1) % U64 == 0;
    assert RangeOf(U64 - 1, 2, 0) == Range(0, 2);
  }

  /** The planning loop. */
  method PlanBigFile(size: nat, chunkSize: nat) returns (r: seq<Range>)
    requires 0 < chunkSize < U64 && size < U64
    ensures r == Plan(size, chunkSize)
  {
    var n := NChunks(size, chunkSize);
    r := [];
    var c := 0;
    while c < n
      invariant 0 <= c <= n && r == Plan(size, chunkSize)[..c]
    {
      var off := (c * chunkSize) % U64;
      var length := chunkSize;
      if (off + length) % U64 > size {
        length := (size - off) % U64;
      }
      r := r + [Range(off, length)];
      c := c + 1;
    }
  }

  // ---------------------------------------------------------------------
  // Copying one range
  // ---------------------------------------------------------------------

  type Bytes = seq<int>

  function Longer(a: nat, b: nat): nat { if a < b then b else a }

  /** fallocate: the file reaches n bytes, new ones reading as zero. */
  function Extended(f: Bytes, n: nat): Bytes {
    seq(Longer(|f|, n), k requires 0 <= k => if k < |f| then f[k] else 0)
  }

  /** pwrite; a gap before the bytes written reads as zeros. */
  function WriteAt(f: Bytes, off: nat, b: Bytes): Bytes {
    seq(Longer(|f|, off + |b|), k requires 0 <= k =>
      if off <= k < off + |b| then b[k - off] else if k < |f| then f[k] else 0)
  }

  /** What a write leaves: the bytes written, the old ones around them, and
      zeros in a gap. */
  lemma Written(f: Bytes, off: nat, b: Bytes)
    ensures var r := WriteAt(f, off, b);
            && |r| == Longer(|f|, off + |b|)
            && forall k :: 0 <= k < |r| ==>
                 r[k] == if off <= k < off + |b| then b[k - off] else if k < |f| then f[k] else 0
  {
  }

  lemma WriteTwice(f: Bytes, off: nat, a: Bytes, b: Bytes)
    ensures WriteAt(WriteAt(f, off, a), off + |a|, b) == WriteAt(f, off, a + b)
  {
    var g := WriteAt(f, off, a);
    var x, y := WriteAt(g, off + |a|, b), WriteAt(f, off, a + b);
    Written(f, off, a);
    Written(g, off + |a|, b);
    Written(f, off, a + b);
    assert |x| == |y|;
    forall k | 0 <= k < |x| ensures x[k] == y[k] {
      if off + |a| <= k < off + |a| + |b| {
        assert (a + b)[k - off] == b[k - (off + |a|)];
      } else if off <= k < off + |a| {
        assert x[k] == g[k] == a[k - off] == (a + b)[k - off];
      }
    }
  }

  /** Writing nothing leaves a file alone; otherwise pwrite. */
  function Put(f: Bytes, off: nat, b: Bytes): Bytes {
    if b == [] then f else WriteAt(f, off, b)
  }

  lemma PutTwice(f: Bytes, off: nat, a: Bytes, b: Bytes)
    ensures Put(Put(f, off, a), off + |a|, b) == Put(f, off, a + b)
  {
    if a == [] {
      assert a + b == b;
    } else if b == [] {
      assert a + b == a;
    } else {
      WriteTwice(f, off, a, b);
    }
  }

  /** Extending what has been written by the next piece. */
  lemma PutNext(f: Bytes, off: nat, data: Bytes, p: nat, q: nat)
    requires p <= q <= |data|
    ensures Put(Put(f, off, data[..p]), off + p, data[p..q]) == Put(f, off, data[..q])
  {
    SliceJoin(data, p, q);
    PutPieces(f, off, data[..p], data[p..q], data[..q], p);
  }

  lemma SliceJoin(data: Bytes, p: nat, q: nat)
    requires p <= q <= |data|
    ensures data[..p] + data[p..q] == data[..q]
  {
  }

  lemma PutPieces(f: Bytes, off: nat, a: Bytes, b: Bytes, ab: Bytes, n: nat)
    requires a + b == ab && |a| == n
    ensures Put(Put(f, off, a), off + n, b) == Put(f, off, ab)
  {
    PutTwice(f, off, a, b);
  }

  datatype Offload = Off | Auto | Require

  /** One system call's outcome: bytes moved, or an error. */
  datatype Io = Moved(n: nat) | Unsupported | Interrupted | Failed

  /** What the kernel answers, call by call; a hard error once the script is over. */
  function Answer(script: seq<Io>, k: nat): Io {
    if k < |script| then script[k] else Failed
  }

  /** None of these calls fails or is interrupted. */
  ghost predicate Smooth(script: seq<Io>, from: nat, n: nat) {
    forall j :: from <= j < from + n ==> Answer(script, j).Moved?
  }

  const CHUNK_BUF: nat := 1048576

  function Least(a: nat, b: nat): nat { if a < b then a else b }

  /** Bytes a call that asked for want can move when avail remain: at least one
      unless the source is exhausted. */
  function Clip(n: nat, want: nat, avail: nat): (w: nat)
    requires want > 0
    ensures w <= want && w <= avail && (w == 0 <==> avail == 0)
    ensures 1 <= n <= Least(want, avail) ==> w == n
  {
    var m := if want < avail then want else avail;
    if m == 0 then 0 else if n == 0 then 1 else if n < m then n else m
  }

  function Avail(src: Bytes, pos: nat): (n: nat)
    ensures pos + n == Longer(pos, |src|)
  {
    if pos < |src| then |src| - pos else 0
  }

  /** The first n bytes of the range at off, which the source has. */
  predicate Has(src: Bytes, off: nat, n: nat) { n > 0 ==> off + n <= |src| }

  function Piece(src: Bytes, off: nat, n: nat): Bytes
    requires Has(src, off, n)
  {
    if n == 0 then [] else src[off..off + n]
  }

  lemma PieceNext(src: Bytes, f: Bytes, off: nat, n: nat, w: nat)
    requires w > 0 && off + n + w <= |src|
    ensures Put(Put(f, off, Piece(src, off, n)), off + n, src[off + n..off + n + w]) == Put(f, off, Piece(src, off, n + w))
  {
    PutPieces(f, off, Piece(src, off, n), src[off + n..off + n + w], Piece(src, off, n + w), n);
  }

  /** copy_range's server-side loop: what it moved, and whether to go on with
      reads and writes (rc 1). */
  method OffloadRange(mode: Offload, src: Bytes, f: Bytes, off: nat, len: nat, script: seq<Io>)
    returns (rc: int, out: Bytes, done: nat, k: nat)
    requires mode != Off
    ensures done <= len && Prefix(src, f, off, done, out)
    ensures rc in {0, 1, -1, -2} && (rc == 0 ==> done == len) && (rc == 1 ==> done == 0 && mode == Auto)
    ensures rc == -2 ==> off + done >= |src|
    ensures Smooth(script, 0, len) && off + len <= |src| ==> rc == 0
  {
    out, done, k := f, 0, 0;
    while done < len
      invariant done <= len && Prefix(src, f, off, done, out)
      invariant Smooth(script, 0, len) ==> k <= done
      decreases |script| - k, len - done
    {
      var r := Answer(script, k);
      k := k + 1;
      if r.Moved? {
        var w := Clip(r.n, len - done, Avail(src, off + done));
        if w == 0 { return -2, out, done, k; }
        PieceNext(src, f, off, done, w);
        out := Put(out, off + done, src[off + done..off + done + w]);
        done := done + w;
      } else if done == 0 && r.Unsupported? {
        rc := if mode == Require then -1 else 1;
        return;
      } else if r.Interrupted? {
        continue;
      } else {
        return -1, out, done, k;
      }
    }
    return 0, out, done, k;
  }

  /** A prefix of the buffer is out. */
  ghost predicate Out(f: Bytes, pos: nat, buf: Bytes, wo: nat, out: Bytes) {
    wo <= |buf| && out == Put(f, pos, buf[..wo])
  }

  lemma OutStart(f: Bytes, pos: nat, buf: Bytes)
    ensures Out(f, pos, buf, 0, f)
  {
  }

  lemma OutNext(f: Bytes, pos: nat, buf: Bytes, wo: nat, out: Bytes, w: nat)
    requires Out(f, pos, buf, wo, out) && wo + w <= |buf|
    ensures Out(f, pos, buf, wo + w, Put(out, pos + wo, buf[wo..wo + w]))
  {
    PutNext(f, pos, buf, wo, wo + w);
  }

  /** One pwrite of the loop. */
  method WriteSome(ghost f: Bytes, pos: nat, buf: Bytes, cur: Bytes, wo: nat, n: nat) returns (out: Bytes, wo': nat)
    requires Out(f, pos, buf, wo, cur) && wo < |buf|
    ensures wo < wo' && Out(f, pos, buf, wo', out)
  {
    var w := Clip(n, |buf| - wo, |buf| - wo);
    OutNext(f, pos, buf, wo, cur, w);
    out, wo' := Put(cur, pos + wo, buf[wo..wo + w]), wo + w;
  }

  /** The write loop for one buffer: a prefix of it is out, all of it on success. */
  method WriteOut(f: Bytes, pos: nat, buf: Bytes, script: seq<Io>, k0: nat) returns (ok: bool, out: Bytes, wo: nat, k: nat)
    ensures Out(f, pos, buf, wo, out) && (ok ==> wo == |buf|) && k >= k0
    ensures Smooth(script, k0, |buf|) ==> ok && k <= k0 + |buf|
  {
    OutStart(f, pos, buf);
    out, wo, k := f, 0, k0;
    while wo < |buf|
      invariant Out(f, pos, buf, wo, out) && k >= k0
      invariant Smooth(script, k0, |buf|) ==> k <= k0 + wo
      decreases |script| - k, |buf| - wo
    {
      var r := Answer(script, k);
      k := k + 1;
      if r.Moved? {
        out, wo := WriteSome(f, pos, buf, out, wo, r.n);
      } else if r.Interrupted? {
        continue;
      } else {
        return false, out, wo, k;
      }
    }
    return true, out, wo, k;
  }

  /** The source bytes of a prefix of a block just read. */
  lemma PieceOfBlock(src: Bytes, f: Bytes, off: nat, n: nat, r: nat, wo: nat)
    requires Has(src, off, n) && wo <= r && off + n + r <= |src|
    ensures Has(src, off, n + wo)
    ensures Put(Put(f, off, Piece(src, off, n)), off + n, src[off + n..off + n + r][..wo]) == Put(f, off, Piece(src, off, n + wo))
  {
    assert src[off + n..off + n + r][..wo] == src[off + n..off + n + wo];
    if wo > 0 { PieceNext(src, f, off, n, wo); } else { assert src[off + n..off + n] == []; }
  }

  /** The file is f with the first n bytes of the range copied. */
  ghost predicate Prefix(src: Bytes, f: Bytes, off: nat, n: nat, out: Bytes) {
    Has(src, off, n) && out == Put(f, off, Piece(src, off, n))
  }

  /** One block read is written out, or as much of it as goes. */
  method CopyBlock(src: Bytes, ghost f: Bytes, cur: Bytes, off: nat, n: nat, r: nat, script: seq<Io>, k0: nat)
    returns (ok: bool, out: Bytes, n': nat, k: nat)
    requires Prefix(src, f, off, n, cur) && off + n + r <= |src|
    ensures n <= n' <= n + r && Prefix(src, f, off, n', out) && (ok ==> n' == n + r) && k >= k0
    ensures Smooth(script, k0, r) ==> ok && k <= k0 + r
  {
    var block := src[off + n..off + n + r];
    assert |block| == r;
    var wo;
    ok, out, wo, k := WriteOut(cur, off + n, block, script, k0);
    BlockOut(src, f, cur, off, n, r, block, wo, out);
    n' := n + wo;
  }

  lemma BlockOut(src: Bytes, f: Bytes, cur: Bytes, off: nat, n: nat, r: nat, block: Bytes, wo: nat, out: Bytes)
    requires Prefix(src, f, off, n, cur) && off + n + r <= |src| && block == src[off + n..off + n + r]
    requires Out(cur, off + n, block, wo, out)
    ensures wo <= r && Prefix(src, f, off, n + wo, out)
  {
    PieceOfBlock(src, f, off, n, r, wo);
  }

  /** copy_range's read and write loop. */
  method CopyBytes(src: Bytes, f: Bytes, off: nat, len: nat, script: seq<Io>, k0: nat) returns (rc: int, out: Bytes, done: nat)
    ensures done <= len && Prefix(src, f, off, done, out)
    ensures rc in {0, -1, -2} && (rc == 0 ==> done == len)
    ensures rc == -2 ==> off + done >= |src|
    ensures Smooth(script, k0, 2 * len) && off + len <= |src| ==> rc == 0
  {
    out, done := f, 0;
    var k := k0;
    while done < len
      invariant done <= len && Prefix(src, f, off, done, out) && k >= k0
      invariant Smooth(script, k0, 2 * len) ==> k <= k0 + 2 * done
      decreases |script| - k, len - done
    {
      var r := Answer(script, k);
      k := k + 1;
      if r.Interrupted? { continue; }
      if !r.Moved? { return -1, out, done; }
      var n := Clip(r.n, Least(len - done, CHUNK_BUF), Avail(src, off + done));
      if n == 0 { return -2, out, done; }
      var ok;
      ok, out, done, k := CopyBlock(src, f, out, off, done, n, script, k);
      if !ok { return -1, out, done; }
    }
    return 0, out, done;
  }

  /** The first n bytes of the range are in the file, the rest of it is as it was;
      a gap before the range reads as zeros. */
  ghost predicate RangeIn(src: Bytes, f: Bytes, off: nat, n: nat, out: Bytes) {
    && (n > 0 ==> off + n <= |src|)
    && |out| == (if n > 0 && |f| < off + n then off + n else |f|)
    && forall k :: 0 <= k < |out| ==> out[k] == if off <= k < off + n then src[k] else if k < |f| then f[k] else 0
  }

  lemma PrefixIsRange(src: Bytes, f: Bytes, off: nat, n: nat, out: Bytes)
    requires Prefix(src, f, off, n, out)
    ensures RangeIn(src, f, off, n, out)
  {
    Written(f, off, Piece(src, off, n));
  }

  /** copy_range. rc: 0 done, -1 error, -2 the source was shorter. Whatever the
      calls return, what is written is a prefix of the range, each byte the
      source's own; on 0 it is the whole range; and if no call fails and the source
      has the range, it is 0. */
  method CopyRange(mode: Offload, src: Bytes, f: Bytes, off: nat, len: nat, script: seq<Io>)
    returns (rc: int, out: Bytes, done: nat)
    ensures done <= len && Prefix(src, f, off, done, out) && RangeIn(src, f, off, done, out)
    ensures rc in {0, -1, -2} && (rc == 0 ==> done == len)
    ensures rc == -2 ==> off + done >= |src|
    ensures Smooth(script, 0, 2 * len) && off + len <= |src| ==> rc == 0
  {
    var k := 0;
    rc, out, done := 1, f, 0;
    if mode != Off {
      rc, out, done, k := OffloadRange(mode, src, f, off, len, script);
    }
    if rc == 1 {
      rc, out, done := CopyBytes(src, f, off, len, script, k);
    }
    PrefixIsRange(src, f, off, done, out);
  }
}
