/** The pipelined byte copy (agent/src/ucopy.c ucopy_run, pwrite_all): while one
    buffer is written out the next block is read into the other. The ring's two
    operations complete in either order, each possibly short or failed. */
module Ucopy {
  import opened ChunkPlan

  datatype Option<+A> = None | Some(value: A)

  /** A queued READ_FIXED or WRITE_FIXED. */
  datatype Op = Op(buf: nat, off: nat, len: nat)

  const BUF_SIZE: nat := 1048576
  const EINTR: int := -4
  const EIO: int := -5

  function Min(a: nat, b: nat): nat { if a < b then a else b }

  lemma JoinNext(h: Bytes, data: Bytes, p: nat, q: nat)
    requires p <= q <= |data|
    ensures h + data[..p] + data[p..q] == h + data[..q]
  {
    assert data[..p] + data[p..q] == data[..q];
  }

  lemma Extend(f: Bytes, h: Bytes, data: Bytes, p: nat, q: nat, block: Bytes, d0: Bytes, d1: Bytes, h0: Bytes, h1: Bytes)
    requires p <= q <= |data| && block == data[p..q]
    requires d0 == Put(f, 0, data[..p]) && d1 == Put(d0, p, block)
    requires h0 == h + data[..p] && h1 == h0 + block
    ensures d1 == Put(f, 0, data[..q]) && h1 == h + data[..q]
  {
    PutNext(f, 0, data, p, q);
    JoinNext(h, data, p, q);
  }

  class Ring {
    const src: Bytes         // the source file
    var dst: Bytes           // the destination file
    var hashed: Bytes        // what the sink has been fed
    var buf: seq<Bytes>      // the two registered buffers
    var writing: Option<Op>  // queued on the submission ring
    var reading: Option<Op>
    var script: seq<int>     // outcomes the kernel still has in store

    /** No buffer is both read into and written out. */
    ghost predicate Valid()
      reads this
    {
      && |buf| == 2 && |buf[0]| == BUF_SIZE && |buf[1]| == BUF_SIZE
      && (writing.Some? ==> writing.value.buf < 2 && 0 < writing.value.len <= BUF_SIZE)
      && (reading.Some? ==> reading.value.buf < 2 && 0 < reading.value.len <= BUF_SIZE)
      && (writing.Some? && reading.Some? ==> writing.value.buf != reading.value.buf)
    }

    ghost predicate Quiet()
      reads this
    {
      Valid() && writing.None? && reading.None?
    }

    constructor (src: Bytes, dst: Bytes, buf: seq<Bytes>, script: seq<int>)
      requires |buf| == 2 && |buf[0]| == BUF_SIZE && |buf[1]| == BUF_SIZE
      ensures Quiet() && this.src == src && this.dst == dst && hashed == [] && this.script == script
    {
      this.src, this.dst, this.buf, this.script := src, dst, buf, script;
      hashed, writing, reading := [], None, None;
    }

    /** No call still to come fails. */
    ghost predicate Fair()
      reads this
    {
      forall i :: 0 <= i < |script| ==> script[i] >= 0
    }

    /** The kernel's next answer; a hard error once the script is over. */
    method Reply() returns (r: int)
      modifies this`script
      ensures old(script) == [] ==> r == EIO && script == []
      ensures old(script) != [] ==> r == old(script)[0] && script == old(script)[1..]
    {
      if script == [] { return EIO; }
      r := script[0];
      script := script[1..];
    }

    method PrepWrite(b: nat, off: nat, len: nat)
      requires Valid() && writing.None? && b < 2 && 0 < len <= BUF_SIZE
      requires reading.Some? ==> reading.value.buf != b
      modifies this`writing
      ensures Valid() && writing == Some(Op(b, off, len))
    {
      writing := Some(Op(b, off, len));
    }

    method PrepRead(b: nat, off: nat, len: nat)
      requires Valid() && reading.None? && b < 2 && 0 < len <= BUF_SIZE
      requires writing.Some? ==> writing.value.buf != b
      modifies this`reading
      ensures Valid() && reading == Some(Op(b, off, len))
    {
      reading := Some(Op(b, off, len));
    }

    /** The sink reads a buffer that may be being written out, never one being filled. */
    method Sink(b: nat, len: nat)
      requires Valid() && b < 2 && len <= BUF_SIZE
      requires reading.Some? ==> reading.value.buf != b
      modifies this`hashed
      ensures hashed == old(hashed) + buf[b][..len]
    {
      hashed := hashed + buf[b][..len];
    }

    /** The kernel writes out some prefix of the block, or fails. */
    method DoWrite() returns (wres: int)
      requires Valid() && writing.Some?
      modifies this`dst, this`script
      ensures wres <= writing.value.len
      ensures wres >= 0 ==> dst == Put(old(dst), writing.value.off, buf[writing.value.buf][..wres])
      ensures old(Fair()) ==> Fair() && (wres < 0 || old(script) == [] ==> script == [])
    {
      var op := writing.value;
      var r := Reply();
      if r < 0 { return r; }
      wres := Min(r, op.len);
      dst := Put(dst, op.off, buf[op.buf][..wres]);
    }

    /** The kernel reads at least one byte unless the file has ended, or fails. */
    method DoRead() returns (rres: int)
      requires Valid() && reading.Some?
      modifies this`buf, this`script
      ensures Valid()
      ensures rres >= 0 ==>
                var op := reading.value;
                && rres <= op.len && (rres == 0 <==> op.off >= |src|)
                && (rres > 0 ==> op.off + rres <= |src| && buf[op.buf][..rres] == src[op.off..op.off + rres])
      ensures forall b :: 0 <= b < 2 && b != reading.value.buf ==> buf[b] == old(buf)[b]
      ensures old(Fair()) ==> Fair() && (rres < 0 || old(script) == [] ==> script == [])
    {
      var op := reading.value;
      var r := Reply();
      if r < 0 { return r; }
      var avail := if op.off < |src| then |src| - op.off else 0;
      var n := Clip(r, op.len, avail);
      if n > 0 {
        var filled := src[op.off..op.off + n] + buf[op.buf][n..];
        assert filled[..n] == src[op.off..op.off + n];
        buf := buf[op.buf := filled];
      }
      rres := n;
    }

    /** submit_reap: whichever order the two complete in, the write takes its
        bytes from the block as it was and the read lands in the other buffer. */
    method SubmitReap() returns (ok: bool, wres: int, rres: int)
      requires Valid() && (writing.Some? || reading.Some?)
      modifies this`dst, this`buf, this`script, this`writing, this`reading
      ensures Quiet()
      ensures ok && old(writing).Some? ==>
                var op := old(writing).value;
                && buf[op.buf] == old(buf)[op.buf]
                && wres <= op.len
                && (wres >= 0 ==> dst == Put(old(dst), op.off, old(buf)[op.buf][..wres]))
      ensures ok && old(writing).None? ==> dst == old(dst)
      ensures ok && old(reading).Some? && rres >= 0 ==>
                var op := old(reading).value;
                && rres <= op.len && (rres == 0 <==> op.off >= |src|)
                && (rres > 0 ==> op.off + rres <= |src| && buf[op.buf][..rres] == src[op.off..op.off + rres])
      ensures old(Fair()) ==>
                Fair() && (!ok || (old(writing).Some? && wres < 0) || (old(reading).Some? && rres < 0) ==> script == [])
    {
      wres, rres := EIO, EIO;
      var first := Reply();
      if first < 0 {
        writing, reading := None, None;
        return false, wres, rres;
      }
      if first % 2 == 0 {
        if writing.Some? { wres := DoWrite(); }
        if reading.Some? { rres := DoRead(); }
      } else {
        if reading.Some? { rres := DoRead(); }
        if writing.Some? { wres := DoWrite(); }
      }
      writing, reading := None, None;
      ok := true;
    }

    /** pwrite_all: the rest of a short write. */
    method PwriteAll(data: Bytes, off: nat) returns (ok: bool)
      modifies this`dst, this`script
      ensures ok ==> dst == Put(old(dst), off, data)
      ensures old(Fair()) ==> Fair() && (!ok || old(script) == [] ==> script == [])
    {
      var p := 0;
      ghost var before := dst;
      while p < |data|
        invariant 0 <= p <= |data|
        invariant dst == Put(before, off, data[..p])
        invariant old(Fair()) ==> Fair() && (old(script) == [] ==> script == [])
        decreases |script|, |data| - p
      {
        var r := Reply();
        if r < 0 {
          if r == EINTR { continue; }
          return false;
        }
        // a regular file takes at least one byte
        var w := Clip(r, |data| - p, |data| - p);
        PutNext(before, off, data, p, p + w);
        dst := Put(dst, off + p, data[p..p + w]);
        p := p + w;
      }
      assert data[..p] == data;
      return true;
    }

    /** one_read: a read with nothing else in flight. */
    method OneRead(b: nat, off: nat, len: nat) returns (n: int)
      requires Quiet() && b < 2 && 0 < len <= BUF_SIZE
      modifies this`dst, this`buf, this`script, this`writing, this`reading
      ensures Quiet()
      ensures n >= 0 ==>
                && dst == old(dst) && n <= len && (n == 0 <==> off >= |src|)
                && (n > 0 ==> off + n <= |src| && buf[b][..n] == src[off..off + n])
      ensures old(Fair()) ==> Fair() && (n < 0 ==> script == [])
    {
      PrepRead(b, off, len);
      var ok, wres, rres := SubmitReap();
      return if ok then rres else EIO;
    }

    /** A block is out: all of it, whatever the write left over. */
    method FinishWrite(b: nat, off: nat, len: nat, wres: nat, ghost before: Bytes) returns (ok: bool)
      requires Quiet() && b < 2 && wres <= len <= BUF_SIZE
      requires dst == Put(before, off, buf[b][..wres])
      modifies this`dst, this`script
      ensures ok ==> dst == Put(before, off, buf[b][..len])
      ensures old(Fair()) ==> Fair() && (!ok || old(script) == [] ==> script == [])
    {
      ok := true;
      if wres < len {
        ok := PwriteAll(buf[b][wres..len], off + wres);
        assert buf[b][..len][..wres] == buf[b][..wres] && buf[b][..len][wres..len] == buf[b][wres..len];
        PutNext(before, off, buf[b][..len], wres, len);
        assert buf[b][..len][..len] == buf[b][..len];
      }
    }

    /** Between iterations of ucopy_run: [0, woff) is written and hashed, and
        block cur holds [woff, woff + clen). */
    ghost predicate Progress(f: Bytes, h: Bytes, size: nat, cur: nat, woff: nat, clen: nat)
      reads this
    {
      && Quiet() && cur < 2 && clen <= BUF_SIZE && woff + clen <= Min(size, |src|)
      && (clen > 0 ==> buf[cur][..clen] == src[woff..woff + clen])
      && (clen == 0 ==> woff == Min(size, |src|))
      && dst == Put(f, 0, src[..woff])
      && hashed == h + src[..woff]
    }

    /** One iteration's effects: block cur is out and hashed, and the next
        block, if any, is in the other buffer. */
    method Block(size: nat, cur: nat, woff: nat, roff: nat, clen: nat) returns (rc: int, next: nat)
      requires Quiet() && cur < 2 && 0 < clen <= BUF_SIZE
      modifies this
      ensures rc >= 0 ==>
                && Quiet() && next < 2
                && dst == Put(old(dst), woff, old(buf)[cur][..clen])
                && hashed == old(hashed) + old(buf)[cur][..clen]
                && (roff >= size ==> rc == 0)
                && (roff < size ==> rc <= Min(size - roff, BUF_SIZE) && (rc == 0 <==> roff >= |src|))
                && (rc > 0 ==> roff + rc <= |src| && buf[next][..rc] == src[roff..roff + rc])
      ensures old(Fair()) ==> Fair() && (rc < 0 ==> script == [])
    {
      ghost var before := dst;
      var wres, rres;
      next, wres, rres := Overlap(size, cur, woff, roff, clen);
      if wres < 0 { return wres, next; }
      var ok := FinishWrite(cur, woff, clen, wres, before);
      if !ok { return EIO, next; }
      rc := if roff < size then rres else 0;
    }

    method Step(size: nat, cur: nat, woff: nat, clen: nat, ghost f: Bytes, ghost h: Bytes) returns (rc: int, next: nat)
      requires Progress(f, h, size, cur, woff, clen) && clen > 0
      modifies this
      ensures rc >= 0 ==> Progress(f, h, size, next, woff + clen, rc)
      ensures old(Fair()) ==> Fair() && (rc < 0 ==> script == [])
    {
      ghost var block, dst0, hashed0 := buf[cur][..clen], dst, hashed;
      rc, next := Block(size, cur, woff, woff + clen, clen);
      if rc >= 0 {
        Extend(f, h, src, woff, woff + clen, block, dst0, dst, hashed0, hashed);
      }
    }

    /** ucopy_run. A non-negative result is exact: that many bytes of the source
        are at the destination and went through the sink, in order, and there
        are fewer than asked for only if the source ended. A negative one means that
        a call failed. */
    method Run(size: nat) returns (n: int)
      requires Quiet()
      modifies this
      ensures n >= 0 ==>
                && n == Min(size, |src|)
                && dst == Put(old(dst), 0, src[..n])
                && hashed == old(hashed) + src[..n]
      ensures old(Fair()) && n < 0 ==> script == []
    {
      if size == 0 { return 0; }
      ghost var f, h := dst, hashed;
      var woff, cur := 0, 0;
      var clen := OneRead(cur, 0, Min(size, BUF_SIZE));
      if clen < 0 { return clen; }
      if clen == 0 { return 0; }
      while clen > 0
        invariant clen >= 0 && Progress(f, h, size, cur, woff, clen)
        invariant old(Fair()) ==> Fair()
        decreases Min(size, |src|) - woff
      {
        var rc, next := Step(size, cur, woff, clen, f, h);
        if rc < 0 { return rc; }
        woff, cur, clen := woff + clen, next, rc;
      }
      return woff;
    }

    /** Write block cur out, hash it, and read the next block into the other buffer. */
    method Overlap(size: nat, cur: nat, woff: nat, roff: nat, clen: nat) returns (next: nat, wres: int, rres: int)
      requires Quiet() && cur < 2 && 0 < clen <= BUF_SIZE
      modifies this
      ensures Quiet() && next == 1 - cur
      ensures wres >= 0 ==>
                && wres <= clen
                && buf[cur] == old(buf)[cur]
                && dst == Put(old(dst), woff, old(buf)[cur][..wres])
                && hashed == old(hashed) + old(buf)[cur][..clen]
                && (roff < size && rres >= 0 ==>
                      && rres <= Min(size - roff, BUF_SIZE) && (rres == 0 <==> roff >= |src|)
                      && (rres > 0 ==> roff + rres <= |src| && buf[next][..rres] == src[roff..roff + rres]))
      ensures old(Fair()) ==> Fair() && (wres < 0 || (roff < size && rres < 0) ==> script == [])
    {
      next := 1 - cur;
      PrepWrite(cur, woff, clen);
      if roff < size {
        PrepRead(next, roff, Min(size - roff, BUF_SIZE));
      }
      Sink(cur, clen);
      var ok;
      ok, wres, rres := SubmitReap();
      if !ok { wres := EIO; }
    }
  }
}
