/**
 unzlocal_SearchCentralDir of XUnzip.cpp: the end-of-central-directory signature is looked for
 backwards in overlapping chunks.
 */
module ZipScan {
  import opened Bits

  const CHUNK: nat := 0x400

  predicate Signature(file: seq<Byte>, p: nat) {
    p + 4 <= |file| && file[p] == 0x50 && file[p + 1] == 0x4b && file[p + 2] == 0x05 && file[p + 3] == 0x06
  }

  /** p is the last signature at or after `from`, or there is none and p is 0. */
  ghost predicate LastFrom(file: seq<Byte>, from: nat, p: nat) {
    && (p != 0 ==> from <= p && Signature(file, p))
    && (forall q :: from <= q && q > p ==> !Signature(file, q))
  }

  /** The scan of one chunk, from its end; none of the later positions has a signature. */
  method ScanChunk(buf: seq<Byte>) returns (found: bool, at: nat)
    requires |buf| >= 4
    ensures found ==> Signature(buf, at) && forall q :: q > at ==> !Signature(buf, q)
    ensures !found ==> forall q: nat :: !Signature(buf, q)
  {
    var i := |buf| - 3;
    found, at := false, 0;
    while i > 0
      invariant 0 <= i <= |buf| - 3
      invariant forall q :: q >= i ==> !Signature(buf, q)
    {
      i := i - 1;
      if buf[i] == 0x50 && buf[i + 1] == 0x4b && buf[i + 2] == 0x05 && buf[i + 3] == 0x06 {
        return true, i;
      }
    }
  }

  lemma InChunk(file: seq<Byte>, at: nat, size: nat, q: nat)
    requires at + size <= |file|
    ensures Signature(file[at..at + size], q) <==> q + 4 <= size && Signature(file, at + q)
  {
    var buf := file[at..at + size];
    if q + 4 <= size {
      assert buf[q] == file[at + q] && buf[q + 1] == file[at + q + 1];
      assert buf[q + 2] == file[at + q + 2] && buf[q + 3] == file[at + q + 3];
    }
  }

  /** A chunk settles its own positions; the four bytes of overlap cover signatures across its end. */
  lemma Settled(file: seq<Byte>, at: nat, size: nat, later: nat, found: bool, i: nat)
    requires at + size <= |file| && at <= later <= at + size - 3
    requires forall q :: q >= later ==> !Signature(file, q)
    requires var buf := file[at..at + size];
      && (found ==> Signature(buf, i) && forall q :: q > i ==> !Signature(buf, q))
      && (!found ==> forall q: nat :: !Signature(buf, q))
    ensures found ==> Signature(file, at + i) && forall q :: q > at + i ==> !Signature(file, q)
    ensures !found ==> forall q :: q >= at ==> !Signature(file, q)
  {
    hide Signature;
    if found { InChunk(file, at, size, i); }
    forall q | q >= at && (found ==> q > at + i)
      ensures !Signature(file, q)
    {
      InChunk(file, at, size, q - at);
    }
  }

  /**
   The position of the last signature in the last 65535 bytes, or 0 if there is none. A signature at the
   very beginning of the file counts as none.
   */
  method SearchCentralDir(file: seq<Byte>) returns (pos: nat)
    ensures LastFrom(file, if |file| <= 0xffff then 0 else |file| - 0xffff, pos)
  {
    hide Signature;
    var size := |file|;
    var maxBack := if 0xffff > size then size else 0xffff;
    pos := 0;
    var back := 4;
    ghost var later := if size < 3 then 0 else size - 3;
    NoneAtEnd(file);
    while back < maxBack
      invariant pos == 0 && (back == 4 || back <= maxBack)
      invariant if back == 4 then later == (if size < 3 then 0 else size - 3) else later == size - back
      invariant forall q :: q >= later && q > 0 ==> !Signature(file, q)
    {
      if back + CHUNK > maxBack { back := maxBack; } else { back := back + CHUNK; }
      var readPos := size - back;
      var readSize := if CHUNK + 4 < size - readPos then CHUNK + 4 else size - readPos;
      var found, i := ScanChunk(file[readPos..readPos + readSize]);
      Settled(file, readPos, readSize, later, found, i);
      later := readPos;
      if found { pos := readPos + i; }
      if pos != 0 { break; }
    }
  }

  lemma NoneAtEnd(file: seq<Byte>)
    ensures forall q :: q > |file| - 4 && q >= 0 ==> !Signature(file, q)
  {
  }
}
