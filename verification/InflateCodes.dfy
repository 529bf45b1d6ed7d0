/**
 inflate_codes and inflate_fast: decoding a block from input that arrives in pieces into output
 that leaves in pieces.
 */
module InflateCodes {
  import opened Bits
  import opened Canonical
  import opened HuffmanTables
  import opened Window
  import opened BitReader
  import opened InflateSpec
  import opened InflateMachine

  datatype Ret = ZOk | ZStreamEnd | ZDataError | ZBufError

  /** Orders the modes that follow each other without input being consumed. */
  function Rank(mode: Mode): nat {
    match mode
    case LenExt(_, _) => 7
    case Dist(_, _, _) => 6
    case DistExt(_, _, _) => 5
    case Copy(_, _) => 4
    case Lit(_) => 3
    case Start => 2
    case Len(_, _) => 1
    case Wash => 1
    case _ => 0
  }

  /** inflate_flush has given `given` bytes: it turns "no progress" into success. */
  function AfterFlush(r: Ret, given: int): Ret {
    if given > 0 && r == ZBufError then ZOk else r
  }

  class Codes {
    const reader: Reader
    const window: SlidingWindow
    const tr: Trees
    var mode: Mode
    /** What has been decoded so far. */
    ghost var g: Progress

    ghost predicate Valid()
      reads this, reader, window, window.buf
    {
      reader.Valid() && window.Valid() && At(tr, reader.src, g, mode, reader.Pos(), window.ext)
    }

    /** Decoding goes on: the same block, and the tokens decoded before are still the first ones. */
    twostate predicate GoesOn()
      reads this
    {
      g.origin == old(g.origin) && g.base == old(g.base) && old(g.toks) <= g.toks
    }

    constructor (r: Reader, w: SlidingWindow, t: Trees)
      requires r.Valid() && w.Valid() && GoodTrees(t)
      ensures Valid() && reader == r && window == w && tr == t && mode == Start
      ensures g == Progress(r.Pos(), w.ext, [], r.Pos())
    {
      reader, window, tr := r, w, t;
      mode := Start;
      g := Progress(r.Pos(), w.ext, [], r.Pos());
    }

    /** LEN: look up the next level of the literal/length tree. */
    method StepLen() returns (ok: bool)
      requires Valid() && mode.Len?
      modifies this`mode, reader
      ensures Valid() && reader.limit == old(reader.limit) && reader.p >= old(reader.p)
      ensures ok ==> reader.Pos() > old(reader.Pos()) && mode != End && mode != Start
      ensures !ok ==> mode == old(mode) && reader.p == reader.limit && reader.Pos() == old(reader.Pos())
    {
      hide At, Low, Shr, From;
      var tree, need := mode.tree, mode.need;
      LenStep(tr, reader.src, g, tree, need, reader.Pos(), window.ext);
      ok := reader.NeedBits(need);
      if !ok { return; }
      var a := tree + Low(reader.b, need);
      var e := tr.hp[a];
      reader.DumpBits(e.bits);
      mode := AfterLen(a, e);
    }

    /** DIST: look up the next level of the distance tree. */
    method StepDist() returns (ok: bool)
      requires Valid() && mode.Dist?
      modifies this`mode, reader
      ensures Valid() && reader.limit == old(reader.limit) && reader.p >= old(reader.p)
      ensures ok ==> reader.Pos() > old(reader.Pos()) && mode != End && mode != Start
      ensures !ok ==> mode == old(mode) && reader.p == reader.limit && reader.Pos() == old(reader.Pos())
    {
      hide At, Low, Shr, From;
      var len, tree, need := mode.len, mode.tree, mode.need;
      DistStep(tr, reader.src, g, len, tree, need, reader.Pos(), window.ext);
      ok := reader.NeedBits(need);
      if !ok { return; }
      var a := tree + Low(reader.b, need);
      var e := tr.hp[a];
      reader.DumpBits(e.bits);
      mode := AfterDist(len, a, e);
    }

    /** LENEXT: the extra bits of a length. */
    method StepLenExt() returns (ok: bool)
      requires Valid() && mode.LenExt?
      modifies this`mode, reader
      ensures Valid() && reader.limit == old(reader.limit) && reader.Pos() >= old(reader.Pos())
      ensures reader.p >= old(reader.p) && (ok && reader.p > old(reader.p) ==> reader.Pos() > old(reader.Pos()))
      ensures ok ==> mode.Dist?
      ensures !ok ==> mode == old(mode) && reader.p == reader.limit && reader.Pos() == old(reader.Pos())
    {
      hide At, Low, Shr, From;
      var len, j := mode.len, mode.get;
      LenExtStep(tr, reader.src, g, len, j, reader.Pos(), window.ext);
      ok := reader.NeedBits(j);
      if !ok { return; }
      mode := Dist(len + Low(reader.b, j), tr.td, tr.bd);
      reader.DumpBits(j);
    }

    /** DISTEXT: the extra bits of a distance. */
    method StepDistExt() returns (ok: bool)
      requires Valid() && mode.DistExt?
      modifies this`mode, reader
      ensures Valid() && reader.limit == old(reader.limit) && reader.Pos() >= old(reader.Pos())
      ensures reader.p >= old(reader.p) && (ok && reader.p > old(reader.p) ==> reader.Pos() > old(reader.Pos()))
      ensures ok ==> mode.Copy? && mode.len == old(mode.len)
      ensures !ok ==> mode == old(mode) && reader.p == reader.limit && reader.Pos() == old(reader.Pos())
    {
      hide At, Low, Shr, From;
      var len, dist, j := mode.len, mode.dist, mode.get;
      DistExtStep(tr, reader.src, g, len, dist, j, reader.Pos(), window.ext);
      ok := reader.NeedBits(j);
      if !ok { return; }
      mode := InflateMachine.Copy(len, dist + Low(reader.b, j));
      reader.DumpBits(j);
    }

    /** COPY: copy the string as far as there is room. */
    method StepCopy(r0: Ret, avail: nat) returns (ok: bool, r: Ret, left: nat)
      requires Valid() && mode.Copy?
      modifies this`mode, this`g, window, window.buf
      ensures Valid() && GoesOn() && left <= avail && |window.out| == |old(window.out)| + avail - left
      ensures |window.ext| >= |old(window.ext)|
      ensures r == if |window.ext| > |old(window.ext)| then ZOk else AfterFlush(r0, avail - left)
      ensures ok ==> mode == Start && |window.ext| == |old(window.ext)| + old(mode.len)
      ensures !ok ==> mode.Copy? && left == 0 && window.Pending() > 0 && !window.HasRoom()
    {
      hide SlidingWindow.RingOk, SlidingWindow.OutOk;
      hide At, From, CopyBack;
      var len, dist := mode.len, mode.dist;
      CopyArgs(tr, reader.src, g, len, dist, reader.Pos(), window.ext);
      ghost var ext0 := window.ext;
      var rest;
      rest, left := window.Copy(dist, len, avail);
      CopyStep(tr, reader.src, g, len, dist, len - rest, reader.Pos(), ext0, window.ext);
      mode := InflateMachine.Copy(rest, dist);
      r := if rest < len then ZOk else AfterFlush(r0, avail - left);
      ok := rest == 0;
      if ok {
        CopyDone(tr, reader.src, g, dist, reader.Pos(), window.ext);
        g := Done(tr, reader.src, g);
        mode := Start;
      }
    }

    /** LIT: write a literal if there is room. */
    method StepLit(r0: Ret, avail: nat) returns (ok: bool, r: Ret, left: nat)
      requires Valid() && mode.Lit?
      modifies this`mode, this`g, window, window.buf
      ensures Valid() && GoesOn() && left <= avail && |window.out| == |old(window.out)| + avail - left
      ensures r == if ok then ZOk else AfterFlush(r0, avail - left)
      ensures ok ==> mode == Start && |window.ext| == |old(window.ext)| + 1
      ensures !ok ==> mode == old(mode) && window.ext == old(window.ext) && left == 0 && !window.HasRoom()
    {
      hide At, From;
      ok, left := window.NeedOut(avail);
      r := if ok then ZOk else AfterFlush(r0, avail - left);
      if !ok { return; }
      LitDone(tr, reader.src, g, mode.lit, reader.Pos(), window.ext);
      window.Put(mode.lit);
      g := Done(tr, reader.src, g);
      mode := Start;
    }

    /** One level of the literal/length tree in inflate_fast, with enough bits in the buffer. */
    method FastLenLevel(ghost budget: int)
      requires Valid() && mode.Len? && reader.k >= budget
      requires Shallow(tr.hp, mode.tree, mode.need, reader.Rest(), budget)
      modifies this`mode, reader
      ensures Valid() && reader.limit == old(reader.limit) && reader.p == old(reader.p)
      ensures reader.Pos() > old(reader.Pos()) && reader.k < old(reader.k)
      ensures reader.k >= old(reader.k) - budget
      ensures mode.Len? ==>
        Shallow(tr.hp, mode.tree, mode.need, reader.Rest(), budget - (old(reader.k) - reader.k))
      ensures !mode.Dist? && !mode.DistExt? && !mode.Copy? && !mode.Start? && !mode.End?
    {
      hide SlidingWindow.RingOk, SlidingWindow.OutOk;
      hide At, Low, Shr, From, Shallow, LookUp;
      var tree, need := mode.tree, mode.need;
      ghost var v := reader.Rest();
      LenFound(tr, reader.src, g, tree, need, reader.Pos(), window.ext);
      LenStep(tr, reader.src, g, tree, need, reader.Pos(), window.ext);
      ShallowStep(tr.hp, tree, need, v, budget);
      reader.Peek(need);
      var a := tree + Low(reader.b, need);
      var e := tr.hp[a];
      reader.DumpBits(e.bits);
      mode := AfterLen(a, e);
      if mode.Len? { NextIsLink(e.exop); }
    }

    static lemma NextIsLink(exop: nat)
      requires exop != 0 && !HasBit(exop, 16) && !HasBit(exop, 64)
      ensures IsLink(exop)
    {
    }

    /** One level of the distance tree in inflate_fast. */
    method FastDistLevel(ghost budget: int)
      requires Valid() && mode.Dist? && reader.k >= budget
      requires Shallow(tr.hp, mode.tree, mode.need, reader.Rest(), budget)
      modifies this`mode, reader
      ensures Valid() && reader.limit == old(reader.limit) && reader.p == old(reader.p)
      ensures reader.Pos() > old(reader.Pos()) && reader.k < old(reader.k)
      ensures mode.Dist? ==>
        Shallow(tr.hp, mode.tree, mode.need, reader.Rest(), budget - (old(reader.k) - reader.k))
      ensures mode.BadCode? || ((mode.Dist? || mode.DistExt?) && mode.len == old(mode.len))
    {
      hide SlidingWindow.RingOk, SlidingWindow.OutOk;
      hide At, Low, Shr, From, Shallow, LookUp;
      var len, tree, need := mode.len, mode.tree, mode.need;
      ghost var v := reader.Rest();
      DistFound(tr, reader.src, g, len, tree, need, reader.Pos(), window.ext);
      DistStep(tr, reader.src, g, len, tree, need, reader.Pos(), window.ext);
      ShallowStep(tr.hp, tree, need, v, budget);
      reader.Peek(need);
      var a := tree + Low(reader.b, need);
      var e := tr.hp[a];
      reader.DumpBits(e.bits);
      mode := AfterDist(len, a, e);
    }

    /** The literal/length part of a token in inflate_fast. */
    method FastLen()
      requires Valid() && mode == Start && reader.p + 10 <= reader.limit
      modifies this`mode, reader
      ensures Valid() && reader.limit == old(reader.limit) && old(reader.p) <= reader.p <= old(reader.p) + 3
      ensures reader.Pos() > old(reader.Pos())
      ensures mode.LenExt? ==> reader.k >= 5
      ensures mode.Lit? || mode.LenExt? || mode.Wash? || mode.BadCode?
    {
      hide At, Low, Shr, From, Shallow, LookUp, GoodTrees;
      StartToLen(tr, reader.src, g, reader.Pos(), window.ext);
      TreesGood(tr, reader.src, g, mode, reader.Pos(), window.ext);
      mode := Len(tr.tl, tr.bl);
      reader.GrabBits(20);
      ShallowStart(tr, reader.Rest());
      ghost var budget: int := BMAX;
      while mode.Len?
        invariant Valid() && reader.limit == old(reader.limit) && old(reader.p) <= reader.p <= old(reader.p) + 3
        invariant reader.Pos() >= old(reader.Pos()) && (!mode.Len? ==> reader.Pos() > old(reader.Pos()))
        invariant budget >= 0 && reader.k >= budget + 5
        invariant mode.Len? ==> Shallow(tr.hp, mode.tree, mode.need, reader.Rest(), budget)
        invariant mode.Len? || mode.Lit? || mode.LenExt? || mode.Wash? || mode.BadCode?
        decreases reader.k
      {
        ghost var k := reader.k;
        FastLenLevel(budget);
        budget := budget - (k - reader.k);
      }
    }

    /** The distance code of a token in inflate_fast. */
    method FastDistCode()
      requires Valid() && mode.Dist? && mode.tree == tr.td && mode.need == tr.bd && GoodTrees(tr) && GoodDistances(tr)
      requires reader.p + 2 <= reader.limit
      modifies this`mode, reader
      ensures Valid() && reader.limit == old(reader.limit) && old(reader.p) <= reader.p <= old(reader.p) + 2
      ensures reader.Pos() > old(reader.Pos())
      ensures mode.BadCode? || (mode.DistExt? && mode.len == old(mode.len))
    {
      hide At, Low, Shr, From, Shallow, LookUp, GoodTrees, GoodDistances;
      reader.GrabBits(15);
      ShallowStart(tr, reader.Rest());
      ghost var budget: int := BMAX;
      while mode.Dist?
        invariant Valid() && reader.limit == old(reader.limit) && old(reader.p) <= reader.p <= old(reader.p) + 2
        invariant reader.Pos() >= old(reader.Pos()) && (!mode.Dist? ==> reader.Pos() > old(reader.Pos()))
        invariant reader.k >= budget
        invariant mode.Dist? ==> Shallow(tr.hp, mode.tree, mode.need, reader.Rest(), budget)
        invariant mode.BadCode? || ((mode.Dist? || mode.DistExt?) && mode.len == old(mode.len))
        decreases reader.k
      {
        ghost var k := reader.k;
        FastDistLevel(budget);
        budget := budget - (k - reader.k);
      }
    }

    /** The distance part of a token in inflate_fast. */
    method FastDist()
      requires Valid() && mode.LenExt? && reader.k >= 5 && reader.p + 4 <= reader.limit
      modifies this`mode, reader
      ensures Valid() && reader.limit == old(reader.limit) && old(reader.p) <= reader.p <= old(reader.p) + 4
      ensures reader.Pos() >= old(reader.Pos())
      ensures mode.BadCode? || (mode.Copy? && 3 <= mode.len <= 258)
    {
      hide SlidingWindow.RingOk, SlidingWindow.OutOk;
      hide At, Low, Shr, From, LookUp, GoodTrees, GoodDistances;
      var len, get := mode.len, mode.get;
      LenExtHasDistances(tr, reader.src, g, len, get, reader.Pos(), window.ext);
      LenExtStep(tr, reader.src, g, len, get, reader.Pos(), window.ext);
      reader.Peek(get);
      len := len + Low(reader.b, get);
      reader.DumpBits(get);
      mode := Dist(len, tr.td, tr.bd);
      DistFound(tr, reader.src, g, len, tr.td, tr.bd, reader.Pos(), window.ext);
      FastDistCode();
      if mode.DistExt? {
        var dist, j := mode.dist, mode.get;
        DistExtStep(tr, reader.src, g, len, dist, j, reader.Pos(), window.ext);
        reader.GrabBits(j);
        reader.Peek(j);
        mode := InflateMachine.Copy(len, dist + Low(reader.b, j));
        reader.DumpBits(j);
      }
    }

    /** One round of inflate_fast: a whole token, entered with ten bytes of input and room for 258. */
    method FastToken()
      requires Valid() && mode == Start && reader.p + 10 <= reader.limit && window.Avail() >= 258
      modifies this`mode, this`g, reader, window, window.buf
      ensures Valid() && GoesOn() && reader.limit == old(reader.limit) && reader.Pos() > old(reader.Pos())
      ensures old(reader.p) <= reader.p <= old(reader.p) + 7 && window.out == old(window.out)
      ensures mode.Start? || mode.Wash? || mode.BadCode?
      ensures if mode.Start? then |window.ext| > |old(window.ext)| else window.ext == old(window.ext)
    {
      hide SlidingWindow.RingOk, SlidingWindow.OutOk;
      hide At, From, CopyBack;
      FastLen();
      if mode.LenExt? { FastDist(); }
      if mode.Lit? {
        LitDone(tr, reader.src, g, mode.lit, reader.Pos(), window.ext);
        window.Put(mode.lit);
        g := Done(tr, reader.src, g);
        mode := Start;
      } else if mode.Copy? {
        var len, dist := mode.len, mode.dist;
        CopyArgs(tr, reader.src, g, len, dist, reader.Pos(), window.ext);
        ghost var ext0 := window.ext;
        window.FastCopy(dist, len);
        CopyStep(tr, reader.src, g, len, dist, len, reader.Pos(), ext0, window.ext);
        CopyDone(tr, reader.src, g, dist, reader.Pos(), window.ext);
        g := Done(tr, reader.src, g);
        mode := Start;
      }
    }

    /** inflate_fast: tokens as long as there is enough input and room, then the unused bytes back. */
    method Fast() returns (r: Ret)
      requires Valid() && mode == Start && reader.p + 10 <= reader.limit && window.Avail() >= 258
      modifies this`mode, this`g, reader, window, window.buf
      ensures Valid() && GoesOn() && reader.limit == old(reader.limit) && reader.Pos() > old(reader.Pos())
      ensures reader.p >= old(reader.p) && window.out == old(window.out)
      ensures mode.Start? || mode.Wash? || mode.BadCode?
      ensures |window.ext| >= |old(window.ext)| && (mode.Start? ==> |window.ext| > |old(window.ext)|)
      ensures r == if mode.Start? then ZOk else if mode.Wash? then ZStreamEnd else ZDataError
      ensures reader.k < 8 || reader.p == old(reader.p)
    {
      hide At, From;
      var p0 := reader.p;
      FastToken();
      while mode.Start? && window.Avail() >= 258 && reader.p + 10 <= reader.limit
        invariant Valid() && GoesOn() && reader.limit == old(reader.limit) && reader.Pos() > old(reader.Pos())
        invariant p0 <= reader.p && window.out == old(window.out)
        invariant mode.Start? || mode.Wash? || mode.BadCode?
        invariant |window.ext| >= |old(window.ext)| && (mode.Start? ==> |window.ext| > |old(window.ext)|)
        decreases 8 * reader.limit - reader.Pos()
      {
        FastToken();
      }
      reader.Ungrab(p0);
      r := if mode.Start? then ZOk else if mode.Wash? then ZStreamEnd else ZDataError;
    }

    /** WASH: hand an unused byte back and see whether everything has been flushed. */
    method StepWash(r0: Ret, avail: nat) returns (ok: bool, r: Ret, left: nat)
      requires Valid() && mode.Wash?
      modifies this`mode, reader, window`read, window`write, window`out
      ensures Valid() && reader.limit == old(reader.limit) && reader.Pos() == old(reader.Pos()) && left <= avail
      ensures reader.p <= old(reader.p) && |window.out| == |old(window.out)| + avail - left
      ensures reader.k == if old(reader.k) > 7 then old(reader.k) - 8 else old(reader.k)
      ensures r == if ok then ZStreamEnd else AfterFlush(r0, avail - left)
      ensures ok ==> mode == End && window.Pending() == 0
      ensures !ok ==> mode == Wash && left == 0 && window.Pending() > 0
    {
      hide SlidingWindow.RingOk, SlidingWindow.OutOk;
      hide Spells, Expand, From, GoodTrees, TokenAt, LookUp;
      reader.ReturnByte();
      left := window.Flush(avail);
      r := AfterFlush(r0, avail - left);
      ok := window.read == window.write;
      if ok { mode, r := End, ZStreamEnd; }
    }

    /** Decoding is waiting for input, or for the caller to take output. */
    ghost predicate Waiting(avail: nat)
      requires reader.k <= 8 * reader.p && window.read < WSIZE && window.write <= WSIZE
      reads this, reader, window
    {
      match mode
      case Len(_, _) => reader.p == reader.limit
      case LenExt(_, _) => reader.p == reader.limit
      case Dist(_, _, _) => reader.p == reader.limit
      case DistExt(_, _, _) => reader.p == reader.limit
      case Copy(_, _) => avail == 0 && !window.HasRoom()
      case Lit(_) => avail == 0 && !window.HasRoom()
      case Wash => avail == 0 && window.Pending() > 0
      case _ => false
    }

    /** How much is left to do: input to consume and modes to pass through. */
    twostate predicate Nearer()
      reads this, reader
      requires old(reader.k <= 8 * reader.p) && reader.k <= 8 * reader.p
    {
      || reader.Pos() > old(reader.Pos())
      || (reader.Pos() == old(reader.Pos()) && Rank(mode) < Rank(old(mode)))
    }

    predicate FastIsSafe()
      requires window.read < WSIZE && window.write <= WSIZE
      reads this, reader, window
    {
      window.Avail() >= 258 && reader.limit - reader.p >= 10
    }

    /** START: inflate_fast if there is enough input and room, then set up for LEN. */
    method StepStart(r0: Ret) returns (r: Ret)
      requires Valid() && mode == Start
      modifies this`mode, this`g, reader, window, window.buf
      ensures Valid() && GoesOn() && reader.limit == old(reader.limit) && window.out == old(window.out)
      ensures mode.Len? || mode == Wash || mode == BadCode
      ensures old(FastIsSafe()) ==> reader.Pos() > old(reader.Pos()) && |window.ext| >= |old(window.ext)|
      ensures old(FastIsSafe()) && mode.Len? ==> |window.ext| > |old(window.ext)| && r == ZOk
      ensures old(FastIsSafe()) && !mode.Len? ==> r == if mode == Wash then ZStreamEnd else ZDataError
      ensures !old(FastIsSafe()) ==> mode.Len? && r == r0 && window.ext == old(window.ext)
      ensures !old(FastIsSafe()) ==> reader.Pos() == old(reader.Pos()) && reader.p == old(reader.p)
    {
      hide At, From;
      r := r0;
      if FastIsSafe() { r := Fast(); }
      if mode.Start? {
        StartToLen(tr, reader.src, g, reader.Pos(), window.ext);
        mode := Len(tr.tl, tr.bl);
      }
    }

    ghost predicate WantsBits()
      reads this
    {
      mode.Len? || mode.LenExt? || mode.Dist? || mode.DistExt?
    }

    /** The modes that take bits: every byte loaded is a success, an invalid code an error. */
    method StepBits(r0: Ret) returns (ok: bool, r: Ret)
      requires Valid() && WantsBits()
      modifies this`mode, reader
      ensures Valid() && reader.limit == old(reader.limit) && reader.p >= old(reader.p)
      ensures r == if mode == BadCode then ZDataError else if reader.p > old(reader.p) then ZOk else r0
      ensures ok ==> Nearer() && mode != End && mode != Start
      ensures ok && reader.p > old(reader.p) ==> reader.Pos() > old(reader.Pos())
      ensures !ok ==> mode == old(mode) && reader.p == reader.limit && reader.Pos() == old(reader.Pos())
    {
      hide At, From;
      var p0 := reader.p;
      match mode {
        case Len(_, _) => ok := StepLen();
        case LenExt(_, _) => ok := StepLenExt();
        case Dist(_, _, _) => ok := StepDist();
        case DistExt(_, _, _) => ok := StepDistExt();
      }
      r := if mode == BadCode then ZDataError else if reader.p > p0 then ZOk else r0;
    }

    /** What a round makes of the code to return, from the bytes that were loaded, written and given. */
    twostate function CodeAfter(r: Ret): Ret
      reads this, reader, window
    {
      if mode == BadCode then ZDataError
      else if mode == End || (old(mode) == Start && mode == Wash) then ZStreamEnd
      else if reader.p > old(reader.p) || |window.ext| > |old(window.ext)| then ZOk
      else AfterFlush(r, |window.out| - |old(window.out)|)
    }

    /** One round of the loop of inflate_codes. */
    method Step(r0: Ret, avail: nat) returns (ok: bool, r: Ret, left: nat)
      requires Valid() && mode != End && mode != BadCode
      modifies this`mode, this`g, reader, window, window.buf
      ensures Valid() && GoesOn() && reader.limit == old(reader.limit)
      ensures left <= avail && |window.out| == |old(window.out)| + avail - left && |window.ext| >= |old(window.ext)|
      ensures r == CodeAfter(r0)
      ensures ok ==> Nearer() && (mode == End ==> window.Pending() == 0)
      ensures ok && old(mode) == Wash ==> mode == End
      ensures ok && mode != End ==> reader.Pos() > old(reader.Pos()) || reader.p == old(reader.p)
      ensures !ok ==> Waiting(left) && reader.Pos() == old(reader.Pos()) && Rank(mode) == Rank(old(mode))
      ensures !ok ==> (mode == Wash <==> old(mode) == Wash)
      ensures !ok && mode == Wash ==> left == 0 && window.Pending() > 0
    {
      hide SlidingWindow.RingOk, SlidingWindow.OutOk;
      hide At, From;
      ok, r, left := true, r0, avail;
      if mode == Start {
        r := StepStart(r);
      } else if mode.Copy? {
        ok, r, left := StepCopy(r, left);
      } else if mode.Lit? {
        ok, r, left := StepLit(r, left);
      } else if mode == Wash {
        ok, r, left := StepWash(r, left);
      } else {
        ok, r := StepBits(r);
      }
    }

    /**
     inflate_codes: decode until the block ends, a code is invalid, the input is used up or the
     caller's `avail` bytes of output are full.  The caller is given no more than that, and everything
     that is pending if there is room for it.  If inflate_fast meets the end of the block and there is
     not enough room, the end is reported although bytes are still pending.
     */
    method Run(r0: Ret, avail: nat) returns (r: Ret, left: nat)
      requires Valid() && (r0 == ZOk || r0 == ZBufError)
      modifies this`mode, this`g, reader, window, window.buf
      ensures Valid() && GoesOn() && reader.limit == old(reader.limit)
      ensures left <= avail && |window.out| == |old(window.out)| + avail - left
      ensures left == 0 || window.Pending() == 0
      ensures r == ZDataError <==> mode == BadCode
      ensures mode == End ==> r == ZStreamEnd && (old(mode) != End ==> window.Pending() == 0)
      ensures r == ZStreamEnd ==> mode == End || (mode == Wash && old(mode) != Wash && left == 0 && window.Pending() > 0)
      ensures r == ZOk || r == ZBufError ==> Waiting(left)
      ensures Idle(r, r0, old(reader.p), |old(window.ext)|, |old(window.out)|)
      ensures r == ZOk && r0 == ZBufError ==> Moved() || reader.p > old(reader.p)
    {
      hide At, From, Low, SlidingWindow.RingOk, SlidingWindow.OutOk, Waiting;
      r, left := r0, avail;
      while mode != End && mode != BadCode
        invariant Valid() && GoesOn() && reader.limit == old(reader.limit)
        invariant left <= avail && |window.out| == |old(window.out)| + avail - left
        invariant |window.ext| >= |old(window.ext)| && reader.Pos() >= old(reader.Pos())
        invariant mode == End && old(mode) != End ==> window.Pending() == 0
        invariant r == ZStreamEnd ==> mode == Wash || mode == End
        invariant old(mode) == Wash ==> mode == End || (mode == Wash && r == r0)
        invariant r == ZDataError ==> mode == BadCode
        invariant Idle(r, r0, old(reader.p), |old(window.ext)|, |old(window.out)|)
        invariant r == ZOk && r0 == ZBufError ==> Moved()
        invariant reader.Pos() > old(reader.Pos()) || reader.p >= old(reader.p) || mode == End
        decreases 8 * reader.limit - reader.Pos(), Rank(mode)
      {
        var ok;
        ok, r, left := Step(r, left);
        if !ok {
          r, left := Leave(r, left);
          return;
        }
      }
      r := if mode == End then ZStreamEnd else ZDataError;
      r, left := Leave(r, left);
    }

    /** LEAVE: give the caller what is pending, as far as there is room. */
    method Leave(r0: Ret, avail: nat) returns (r: Ret, left: nat)
      requires Valid()
      modifies window`read, window`write, window`out
      ensures Valid() && left <= avail && |window.out| == |old(window.out)| + avail - left
      ensures left == 0 || window.Pending() == 0
      ensures left == avail ==> window.Pending() == old(window.Pending())
      ensures r == AfterFlush(r0, avail - left)
      ensures old(Waiting(avail)) ==> Waiting(left)
      ensures window.Pending() <= old(window.Pending())
    {
      hide At, From, Low, SlidingWindow.RingOk, SlidingWindow.OutOk;
      left := window.Flush(avail);
      r := AfterFlush(r0, avail - left);
    }

    /** Bits have been consumed, or bytes written or given. */
    twostate predicate Moved()
      requires old(reader.k <= 8 * reader.p) && reader.k <= 8 * reader.p
      reads this, reader, window
    {
      reader.Pos() > old(reader.Pos()) || |window.ext| > |old(window.ext)| || |window.out| > |old(window.out)|
    }

    /** The code is still the one for no progress only if nothing was loaded, written or given. */
    ghost predicate Idle(r: Ret, r0: Ret, p: nat, ext: nat, out: nat)
      reads this, reader, window
    {
      r == ZBufError ==> r0 == ZBufError && reader.p <= p && |window.ext| == ext && |window.out| == out
    }
  }

  /** What the caller does before one call: it adds input and makes room for output. */
  datatype Piece = Piece(input: nat, room: nat)

  /** How much of `size` bytes of input the caller has supplied, if there were `limit` before the pieces. */
  ghost function Supplied(limit: nat, size: nat, pieces: seq<Piece>): nat {
    if pieces == [] then limit
    else
      Least(Supplied(limit, size, pieces[..|pieces| - 1]) + pieces[|pieces| - 1].input, size)
  }

  function Least(a: nat, b: nat): nat {
    if a < b then a else b
  }

  ghost function Sum(s: seq<nat>): nat {
    if s == [] then 0 else Sum(s[..|s| - 1]) + s[|s| - 1]
  }

  /**
   A block in any number of calls, each with any amount of new input and any room; once the end of the
   block is reported, what is still pending is flushed by the calls that follow.  No call gives more
   than its room.  A block that ends has written exactly the bytes that its codes spell, nothing else
   is spelled from its first bit to an end-of-block code, and when nothing is pending the caller has
   all of them.  A block that fails has no code where it stopped.
   */
  method Drive(codes: Codes, pieces: seq<Piece>) returns (r: Ret, gave: seq<nat>)
    requires codes.Valid() && codes.mode != End && codes.mode != BadCode
    modifies codes`mode, codes`g, codes.reader, codes.window, codes.window.buf
    ensures codes.Valid() && codes.GoesOn()
    ensures |gave| <= |pieces| && forall i :: 0 <= i < |gave| ==> gave[i] <= pieces[i].room
    ensures |codes.window.out| == |old(codes.window.out)| + Sum(gave)
    ensures |gave| < |pieces| ==> r == ZDataError || (r == ZStreamEnd && codes.window.Pending() == 0)
    ensures r == ZOk || r == ZBufError ==>
      codes.reader.limit == Supplied(old(codes.reader.limit), |codes.reader.src|, pieces)
    ensures (r == ZOk || r == ZBufError) && pieces != [] ==>
      codes.Waiting(pieces[|pieces| - 1].room - gave[|pieces| - 1])
    ensures r == ZStreamEnd ==> EndsAs(codes, codes.g.toks, codes.g.at)
    ensures r == ZStreamEnd ==> forall toks, at :: (Spells(codes.tr, codes.reader.src, codes.g.origin, toks, at)
      && TokenAt(codes.tr, From(codes.reader.src, at)).EndBlock?) ==> toks == codes.g.toks && at == codes.g.at
    ensures r == ZStreamEnd && codes.window.Pending() == 0 ==>
      codes.window.out == Expand(codes.g.base, codes.g.toks)[WSIZE..]
    ensures r == ZDataError ==> TokenAt(codes.tr, From(codes.reader.src, codes.g.at)) == Invalid
  {
    hide SlidingWindow.RingOk, SlidingWindow.OutOk, Low, Codes.Waiting, Least;
    hide At, From, TokenAt, Spells, Expand, Sum, Supplied, EndsAs;
    r, gave := ZBufError, [];
    Nothing(old(codes.reader.limit), |codes.reader.src|, pieces[..0]);
    while |gave| < |pieces| && r != ZDataError && !(r == ZStreamEnd && codes.window.Pending() == 0)
      invariant |gave| <= |pieces| && codes.Valid() && codes.GoesOn()
      invariant forall i :: 0 <= i < |gave| ==> gave[i] <= pieces[i].room
      invariant |codes.window.out| == |old(codes.window.out)| + Sum(gave)
      invariant r == ZStreamEnd ==> codes.mode == End || codes.mode == Wash
      invariant r == ZDataError <==> codes.mode == BadCode
      invariant codes.mode == End ==> r == ZStreamEnd
      invariant r == ZOk || r == ZBufError ==>
        codes.reader.limit == Supplied(old(codes.reader.limit), |codes.reader.src|, pieces[..|gave|])
      invariant (r == ZOk || r == ZBufError) && gave != [] ==>
        codes.Waiting(pieces[|gave| - 1].room - gave[|gave| - 1])
      decreases |pieces| - |gave|
    {
      SuppliedMore(old(codes.reader.limit), |codes.reader.src|, pieces, |gave|);
      var n;
      r, n := Call(codes, r, pieces[|gave|]);
      SumMore(gave, n);
      gave := gave + [n];
    }
    assert |gave| == |pieces| ==> pieces[..|gave|] == pieces;
    if r == ZStreamEnd { Ended(codes); }
    if r == ZDataError { Failed(codes); }
  }

  lemma SuppliedMore(limit: nat, size: nat, pieces: seq<Piece>, k: nat)
    requires k < |pieces|
    ensures Supplied(limit, size, pieces[..k + 1]) == Least(Supplied(limit, size, pieces[..k]) + pieces[k].input, size)
  {
    assert pieces[..k + 1][..k] == pieces[..k];
  }

  lemma SumMore(s: seq<nat>, n: nat)
    ensures Sum(s + [n]) == Sum(s) + n
  {
    assert (s + [n])[..|s|] == s;
  }

  lemma Nothing(limit: nat, size: nat, pieces: seq<Piece>)
    requires pieces == []
    ensures Supplied(limit, size, pieces) == limit && Sum([]) == 0
  {
  }

  /** One call: more input and room for inflate_codes, or room for what is still pending after the end of the block. */
  method Call(codes: Codes, r0: Ret, piece: Piece) returns (r: Ret, n: nat)
    requires codes.Valid() && r0 != ZDataError && codes.mode != BadCode
    requires codes.mode == End ==> r0 == ZStreamEnd
    requires r0 == ZStreamEnd ==> codes.mode == End || codes.mode == Wash
    modifies codes`mode, codes`g, codes.reader, codes.window, codes.window.buf
    ensures codes.Valid() && codes.GoesOn()
    ensures n <= piece.room && |codes.window.out| == |old(codes.window.out)| + n
    ensures r == ZStreamEnd ==> codes.mode == End || codes.mode == Wash
    ensures r == ZDataError <==> codes.mode == BadCode
    ensures codes.mode == End ==> r == ZStreamEnd
    ensures r0 == ZStreamEnd ==> r == ZStreamEnd
    ensures r == ZOk || r == ZBufError ==> codes.Waiting(piece.room - n)
    ensures r0 != ZStreamEnd ==>
      codes.reader.limit == Least(old(codes.reader.limit) + piece.input, |codes.reader.src|)
  {
    hide At, From, Low, SlidingWindow.RingOk, SlidingWindow.OutOk;
    var left;
    if r0 == ZStreamEnd {
      r := r0;
      left := codes.window.Flush(piece.room);
    } else {
      var more := |codes.reader.src| - codes.reader.limit;
      codes.reader.Supply(if piece.input < more then piece.input else more);
      r, left := codes.Run(ZBufError, piece.room);
    }
    n := piece.room - left;
  }

  /** The block is spelled by `toks` from its origin to the end-of-block code at `at`, and its bytes have been written. */
  ghost predicate EndsAs(codes: Codes, toks: seq<Token>, at: nat)
    requires codes.reader.k <= 8 * codes.reader.p
    reads codes, codes.reader, codes.window
  {
    && Spells(codes.tr, codes.reader.src, codes.g.origin, toks, at)
    && at <= codes.reader.Pos() && TokenAt(codes.tr, From(codes.reader.src, at)) == EndBlock(codes.reader.Pos() - at)
    && |codes.g.base| >= WSIZE && (forall i :: 0 <= i < |toks| ==> TokenOk(toks[i]))
    && codes.window.ext == Expand(codes.g.base, toks)
  }

  lemma Ended(codes: Codes)
    requires codes.Valid() && (codes.mode == End || codes.mode == Wash)
    ensures EndsAs(codes, codes.g.toks, codes.g.at)
    ensures codes.window.Pending() == 0 ==> codes.window.out == Expand(codes.g.base, codes.g.toks)[WSIZE..]
    ensures forall toks, at :: (Spells(codes.tr, codes.reader.src, codes.g.origin, toks, at)
      && TokenAt(codes.tr, From(codes.reader.src, at)).EndBlock?) ==> toks == codes.g.toks && at == codes.g.at
  {
    hide From, TokenAt, Spells, Expand;
    var tr, src, g := codes.tr, codes.reader.src, codes.g;
    forall toks, at | Spells(tr, src, g.origin, toks, at) && TokenAt(tr, From(src, at)).EndBlock?
      ensures toks == g.toks && at == g.at
    {
      SpellsOnce(tr, src, g.origin, g.toks, g.at, toks, at);
    }
  }

  lemma Failed(codes: Codes)
    requires codes.Valid() && codes.mode == BadCode
    ensures TokenAt(codes.tr, From(codes.reader.src, codes.g.at)) == Invalid
  {
    hide From, TokenAt, Spells, Expand;
  }
}
