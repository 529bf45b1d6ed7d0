/**
 The 32K sliding window of inflate: a ring buffer that holds the last 32768 bytes of output, from
 which bytes are flushed to the caller and earlier output is copied.
 */
module Window {
  import opened Bits

  /** The window size that inflateInit2 fixes. */
  const WSIZE: nat := 32768

  /** The byte-by-byte meaning of a length/distance pair: repeat `n` times the byte `d` back. */
  function CopyBack(s: seq<Byte>, d: nat, n: nat): (r: seq<Byte>)
    requires 1 <= d <= |s|
    ensures |r| == |s| + n && r[..|s|] == s
    decreases n
  {
    if n == 0 then s else CopyBack(s + [s[|s| - d]], d, n - 1)
  }

  /** Every byte a copy adds is the byte `d` before it, also when the copy overlaps its source. */
  lemma {:induction false} CopyBackAt(s: seq<Byte>, d: nat, n: nat, i: nat)
    requires 1 <= d <= |s| && |s| <= i < |s| + n
    ensures CopyBack(s, d, n)[i] == CopyBack(s, d, n)[i - d]
    decreases n
  {
    var s' := s + [s[|s| - d]];
    var r := CopyBack(s', d, n - 1);
    if i == |s| {
      assert r[..|s'|][i] == s'[i];
      assert r[..|s'|][i - d] == s'[i - d];
    } else {
      CopyBackAt(s', d, n - 1, i);
    }
  }

  lemma {:induction false} CopyBackAdd(s: seq<Byte>, d: nat, n: nat, m: nat)
    requires 1 <= d <= |s|
    ensures CopyBack(s, d, n + m) == CopyBack(CopyBack(s, d, n), d, m)
    decreases n
  {
    if n > 0 {
      CopyBackAdd(s + [s[|s| - d]], d, n - 1, m);
    }
  }

  lemma NoCopy(s: seq<Byte>, d: nat)
    requires 1 <= d <= |s|
    ensures CopyBack(s, d, 0) == s
  {
  }

  class SlidingWindow {
    const buf: array<Byte>
    var read: nat               // the next byte to flush
    var write: nat              // where the next byte goes
    var out: seq<Byte>          // everything the caller has been given
    /** The bytes the window held at first and then all output so far. */
    ghost var ext: seq<Byte>

    ghost predicate Valid()
      reads this, buf
    {
      && buf.Length == WSIZE && read < WSIZE && write <= WSIZE && |ext| >= WSIZE
      && RingOk() && OutOk()
    }

    /** The window holds the last WSIZE bytes, the newest one before the write position. */
    ghost predicate RingOk()
      requires buf.Length == WSIZE && write <= WSIZE <= |ext|
      reads this`write, this`ext, buf
    {
      buf[..write] == ext[|ext| - write..] && buf[write..] == ext[|ext| - WSIZE..|ext| - write]
    }

    /** What the caller has is what was written before the read position. */
    ghost predicate OutOk()
      requires read < WSIZE && write <= WSIZE <= |ext|
      reads this`read, this`write, this`ext, this`out
    {
      |out| + Pending() + WSIZE == |ext| && out == ext[WSIZE..][..|out|]
    }

    /** How many bytes wait to be flushed. */
    function Pending(): (n: nat)
      requires read < WSIZE && write <= WSIZE
      reads this`read, this`write
    {
      if read <= write then write - read else WSIZE - read + write
    }

    /** All output, flushed or not. */
    ghost function History(): (h: seq<Byte>)
      requires Valid()
      reads this, buf
      ensures out <= h && |h| == |out| + Pending()
    {
      ext[WSIZE..]
    }

    /** WAVAIL: how many bytes can be written before the end of the buffer or the read position. */
    function Avail(): nat
      requires read < WSIZE && write <= WSIZE
      reads this`read, this`write
    {
      if write < read then read - write - 1 else WSIZE - write
    }

    constructor (b: array<Byte>)
      requires b.Length == WSIZE
      ensures Valid() && buf == b && out == [] && History() == [] && ext == b[..]
      ensures write == 0 && read == 0
    {
      buf := b;
      read, write, out := 0, 0, [];
      ext := b[..];
    }

    /** OUTBYTE. */
    method Put(x: Byte)
      requires Valid() && Avail() > 0
      modifies this, buf
      ensures Valid() && ext == old(ext) + [x]
      ensures out == old(out) && read == old(read) && write == old(write) + 1
    {
      ghost var b0 := buf[..];
      buf[write] := x;
      write := write + 1;
      ext := ext + [x];
      AfterPut(b0, buf[..], old(ext), x, write - 1);
      OutGrows(old(ext), x, out);
    }

    static lemma AfterPut(b0: seq<Byte>, b1: seq<Byte>, e: seq<Byte>, x: Byte, w: nat)
      requires |b0| == WSIZE <= |e| && w < WSIZE && b1 == b0[w := x]
      requires b0[..w] == e[|e| - w..] && b0[w..] == e[|e| - WSIZE..|e| - w]
      ensures b1[..w + 1] == (e + [x])[|e| - w..]
      ensures b1[w + 1..] == (e + [x])[|e| + 1 - WSIZE..|e| - w]
    {
      assert b1[..w + 1] == b0[..w] + [x];
      assert b1[w + 1..] == b0[w..][1..];
    }

    static lemma OutGrows(e: seq<Byte>, x: Byte, o: seq<Byte>)
      requires WSIZE + |o| <= |e| && o == e[WSIZE..][..|o|]
      ensures o == (e + [x])[WSIZE..][..|o|]
    {
    }

    /** WRAP: go on at the start of the buffer if that is free. */
    method Wrap()
      requires Valid()
      modifies this`write
      ensures Valid() && Pending() == old(Pending())
      ensures write == if old(write) == WSIZE && read != 0 then 0 else old(write)
    {
      if write == WSIZE && read != 0 {
        write := 0;
        assert buf[0..] == buf[..WSIZE];
      }
    }

    /** Where the pending bytes are in the output. */
    lemma PendingAt(i: nat)
      requires Valid() && read + i < WSIZE && i < Pending()
      ensures WSIZE + |out| + i < |ext|
      ensures buf[read + i] == ext[WSIZE + |out| + i]
    {
      if read <= write {
        assert buf[read + i] == buf[..write][read + i];
      } else {
        assert buf[read + i] == buf[write..][read + i - write];
      }
    }

    /** A run of pending bytes continues what the caller has. */
    lemma PendingRun(n: nat)
      requires Valid() && read + n <= WSIZE && n <= Pending()
      ensures WSIZE + |out| + n <= |ext|
      ensures out + buf[read..read + n] == ext[WSIZE..][..|out| + n]
    {
      var run, due := buf[read..read + n], ext[WSIZE + |out|..WSIZE + |out| + n];
      forall i | 0 <= i < n
        ensures run[i] == due[i]
      {
        PendingAt(i);
      }
      assert run == due;
      assert ext[WSIZE..][..|out| + n] == ext[WSIZE..][..|out|] + due;
    }

    /** Go round when the read position has come to the end of the buffer. */
    method Round()
      requires buf.Length == WSIZE && write == WSIZE <= |ext| && RingOk()
      modifies this`write
      ensures write == 0 && RingOk()
    {
      FullRound(buf[..], ext);
      assert buf[0..] == buf[..][0..];
      write := 0;
    }

    /** Half of inflate_flush: give the caller up to `avail` bytes before the end of the buffer. */
    method FlushRun(avail: nat) returns (left: nat, end: bool)
      requires Valid()
      modifies this`read, this`write, this`out
      ensures Valid()
      ensures left <= avail && |out| == |old(out)| + avail - left && Pending() == old(Pending()) - (avail - left)
      ensures write == old(write) || (old(write) == WSIZE && write == 0)
      ensures end ==> read == 0
      ensures !end || old(read) == 0 ==> left == 0 || Pending() == 0
      ensures left == avail ==> read == old(read) && write == old(write) && !end
    {
      hide RingOk;
      var q := read;
      var n := (if q <= write then write else WSIZE) - q;
      if n > avail { n := avail; }
      left := avail - n;
      PendingRun(n);
      out := out + buf[q..q + n];
      q := q + n;
      end := q == WSIZE;
      if end {
        q := 0;
        if write == WSIZE { Round(); }
      }
      read := q;
    }

    static lemma FullRound(b: seq<Byte>, e: seq<Byte>)
      requires |b| == WSIZE <= |e| && b[..WSIZE] == e[|e| - WSIZE..]
      ensures b[..0] == e[|e| - 0..] && b[0..] == e[|e| - WSIZE..|e| - 0]
    {
    }

    /** inflate_flush: give the caller as much as `avail` allows. */
    method Flush(avail: nat) returns (left: nat)
      requires Valid()
      modifies this`read, this`write, this`out
      ensures Valid()
      ensures var n := if old(Pending()) > avail then avail else old(Pending());
        left == avail - n && |out| == |old(out)| + n && Pending() == old(Pending()) - n
      ensures write == old(write) || (old(write) == WSIZE && write == 0)
      ensures left == avail ==> read == old(read) && write == old(write)
    {
      var end;
      left, end := FlushRun(avail);
      if end {
        left, end := FlushRun(left);
      }
    }

    /** There is room for a byte, perhaps at the start of the buffer. */
    predicate HasRoom()
      requires read < WSIZE && write <= WSIZE
      reads this`read, this`write
    {
      Avail() > 0 || (write == WSIZE && read > 1)
    }

    /** NEEDOUT: make room for a byte, flushing if there is none. */
    method NeedOut(avail: nat) returns (ok: bool, left: nat)
      requires Valid()
      modifies this`read, this`write, this`out
      ensures Valid() && left <= avail && |out| == |old(out)| + avail - left
      ensures write == old(write) || (old(write) == WSIZE && write == 0)
      ensures ok <==> Avail() > 0
      ensures !ok ==> left == 0 && Pending() > 0 && !HasRoom()
      ensures if old(HasRoom()) then left == avail else
        left == avail - if old(Pending()) > avail then avail else old(Pending())
    {
      hide RingOk, OutOk;
      left := avail;
      if Avail() == 0 {
        Wrap();
        if Avail() == 0 {
          left := Flush(left);
          Wrap();
        }
      }
      ok := Avail() > 0;
    }

    // ----- copying earlier output

    /** Where the byte `d` before the next one is in the buffer. */
    function Source(d: nat): (f: nat)
      requires write <= WSIZE && 1 <= d <= WSIZE
      reads this
      ensures f < WSIZE
    {
      if write < d then WSIZE - (d - write) else write - d
    }

    lemma SourceByte(d: nat)
      requires Valid() && 1 <= d <= WSIZE
      ensures buf[Source(d)] == ext[|ext| - d]
    {
      if write < d {
        assert buf[Source(d)] == buf[write..][WSIZE - d];
      } else {
        assert buf[Source(d)] == buf[..write][write - d];
      }
    }

    /** Copy one byte; `r` is the source position. */
    method CopyByte(d: nat, r: nat, ghost e0: seq<Byte>, ghost n: nat)
      requires Valid() && 1 <= d <= WSIZE && Avail() > 0 && r == Source(d)
      requires |e0| >= WSIZE && ext == CopyBack(e0, d, n)
      modifies this, buf
      ensures Valid() && ext == CopyBack(e0, d, n + 1)
      ensures out == old(out) && read == old(read) && write == old(write) + 1
      ensures Source(d) == if r + 1 == WSIZE then 0 else r + 1
    {
      SourceByte(d);
      CopyBackAdd(e0, d, n, 1);
      Put(buf[r]);
    }

    /** The COPY state of inflate_codes: copy byte by byte, stopping when the caller has no room. */
    method Copy(d: nat, len: nat, avail: nat) returns (rest: nat, left: nat)
      requires Valid() && 1 <= d <= WSIZE
      modifies this, buf
      ensures Valid() && rest <= len && left <= avail && |out| == |old(out)| + avail - left
      ensures ext == CopyBack(old(ext), d, len - rest)
      ensures rest > 0 ==> left == 0 && Pending() > 0 && !HasRoom()
    {
      hide CopyBack, RingOk, OutOk;
      ghost var e0 := ext;
      var f := Source(d);
      rest, left := len, avail;
      assert ext == CopyBack(e0, d, 0) by { NoCopy(e0, d); }
      while rest > 0
        invariant Valid() && rest <= len && left <= avail && |out| == |old(out)| + avail - left
        invariant f == Source(d)
        invariant ext == CopyBack(e0, d, len - rest)
      {
        var ok;
        ok, left := NeedOut(left);
        if !ok { return; }
        CopyByte(d, f, e0, len - rest);
        f := f + 1;
        if f == WSIZE { f := 0; }
        rest := rest - 1;
      }
    }

    /** Copy `n` bytes from `r` on without going round; `done` have been copied before. */
    method CopyRun(d: nat, r0: nat, n: nat, ghost e0: seq<Byte>, ghost done: nat)
      requires Valid() && 1 <= d <= WSIZE && 0 < n <= Avail() && r0 == Source(d) && r0 + n <= WSIZE
      requires |e0| >= WSIZE && ext == CopyBack(e0, d, done)
      modifies this, buf
      ensures Valid() && ext == CopyBack(e0, d, done + n)
      ensures out == old(out) && read == old(read) && write == old(write) + n && write <= WSIZE
      ensures Avail() == old(Avail()) - n
      ensures Source(d) == if r0 + n == WSIZE then 0 else r0 + n
    {
      hide CopyBack, RingOk, OutOk;
      var c, r := n, r0;
      while c > 0
        invariant c <= n && r == r0 + n - c
        invariant Valid() && write == old(write) + n - c && Avail() == old(Avail()) - (n - c)
        invariant out == old(out) && read == old(read)
        invariant ext == CopyBack(e0, d, done + n - c)
        invariant Source(d) == if r == WSIZE then 0 else r
      {
        CopyByte(d, r, e0, done + n - c);
        r, c := r + 1, c - 1;
      }
    }

    /** The copy in inflate_fast: in one or two runs, without looking for room. */
    method FastCopy(d: nat, len: nat)
      requires Valid() && 1 <= d <= WSIZE && 3 <= len <= Avail()
      modifies this, buf
      ensures Valid() && ext == CopyBack(old(ext), d, len)
      ensures out == old(out) && read == old(read) && write == old(write) + len
    {
      hide CopyBack, RingOk, OutOk;
      ghost var e0 := ext;
      NoCopy(e0, d);
      var c := len;
      if write >= d {                        // offset before destination
        var r := write - d;
        CopyRun(d, r, 2, e0, 0);             // minimum count is three, so the first two are unrolled
        r, c := r + 2, c - 2;
        CopyRun(d, r, c, e0, 2);
      } else {                               // offset after destination
        var e := d - write;
        var r := WSIZE - e;
        if c > e {                           // source crosses the end of the window
          c := c - e;
          CopyRun(d, r, e, e0, 0);
          r := 0;
        }
        CopyRun(d, r, c, e0, len - c);
      }
    }
  }
}
