/**
  Segmented buffers: gathering fragments from them and scattering fragments into
  them with a remembered scan position (libopen-mx/omx_segments.h).
*/
module Segments {
  import opened Fragments

  /** The bytes of a segment list, end to end. */
  function Flatten(segs: seq<seq<byte>>): seq<byte> {
    if segs == [] then [] else segs[0] + Flatten(segs[1..])
  }

  /** struct omx_segscan_state: a segment and an offset in it. */
  datatype Scan = Scan(seg: nat, offset: nat)

  /** How many bytes lie before segment k. */
  function Start(segs: seq<seq<byte>>, k: nat): nat
    requires k <= |segs|
  {
    if k == 0 then 0 else Start(segs, k - 1) + |segs[k - 1]|
  }

  ghost predicate OnScan(segs: seq<seq<byte>>, at: Scan) {
    at.seg <= |segs| && at.offset <= if at.seg < |segs| then |segs[at.seg]| else 0
  }

  /** The position of a scan state in the flattened bytes. */
  ghost function Pos(segs: seq<seq<byte>>, at: Scan): nat
    requires OnScan(segs, at)
  {
    Start(segs, at.seg) + at.offset
  }

  lemma {:induction false} FlattenConcat(a: seq<seq<byte>>, b: seq<seq<byte>>)
    ensures Flatten(a + b) == Flatten(a) + Flatten(b)
  {
    if a == [] {
      assert a + b == b;
    } else {
      assert (a + b)[1..] == a[1..] + b;
      FlattenConcat(a[1..], b);
    }
  }

  lemma {:induction false} StartIsPrefix(segs: seq<seq<byte>>, k: nat)
    requires k <= |segs|
    ensures Start(segs, k) == |Flatten(segs[..k])|
  {
    if k != 0 {
      StartIsPrefix(segs, k - 1);
      assert segs[..k] == segs[..k - 1] + [segs[k - 1]];
      FlattenConcat(segs[..k - 1], [segs[k - 1]]);
      assert Flatten([segs[k - 1]]) == segs[k - 1];
    }
  }

  /** Segment k sits at its start in the flattened bytes. */
  lemma FlattenAt(segs: seq<seq<byte>>, k: nat)
    requires k < |segs|
    ensures Flatten(segs) == Flatten(segs[..k]) + segs[k] + Flatten(segs[k + 1..])
    ensures |Flatten(segs[..k])| == Start(segs, k)
    ensures Start(segs, k) + |segs[k]| <= |Flatten(segs)|
  {
    hide Flatten, Start;
    StartIsPrefix(segs, k);
    assert segs == segs[..k] + segs[k..];
    FlattenConcat(segs[..k], segs[k..]);
    FlattenFrom(segs, k);
  }

  lemma FlattenFrom(segs: seq<seq<byte>>, k: nat)
    requires k < |segs|
    ensures Flatten(segs[k..]) == segs[k] + Flatten(segs[k + 1..])
  {
    assert segs[k..][1..] == segs[k + 1..];
  }

  lemma Middle(a: seq<byte>, s: seq<byte>, b: seq<byte>, lo: nat, hi: nat)
    requires lo <= hi <= |s|
    ensures (a + s + b)[|a| + lo..|a| + hi] == s[lo..hi]
  {
  }

  lemma MiddleOverwrite(a: seq<byte>, s: seq<byte>, b: seq<byte>, offset: nat, src: seq<byte>)
    requires offset + |src| <= |s|
    ensures a + Overwrite(s, offset, src) + b == Overwrite(a + s + b, |a| + offset, src)
  {
  }

  lemma StartOfAll(segs: seq<seq<byte>>)
    ensures Start(segs, |segs|) == |Flatten(segs)|
  {
    StartIsPrefix(segs, |segs|);
    assert segs[..|segs|] == segs;
  }

  /** Part of one segment, seen in the flattened bytes. */
  lemma FlattenSlice(segs: seq<seq<byte>>, k: nat, lo: nat, hi: nat)
    requires k < |segs| && lo <= hi <= |segs[k]|
    ensures Start(segs, k) + hi <= |Flatten(segs)|
    ensures Flatten(segs)[Start(segs, k) + lo..Start(segs, k) + hi] == segs[k][lo..hi]
  {
    hide Flatten, Start;
    FlattenAt(segs, k);
    Middle(Flatten(segs[..k]), segs[k], Flatten(segs[k + 1..]), lo, hi);
  }

  /** Writing into one segment writes at its place in the flattened bytes. */
  lemma FlattenOverwrite(segs: seq<seq<byte>>, k: nat, offset: nat, src: seq<byte>)
    requires k < |segs| && offset + |src| <= |segs[k]|
    ensures var segs' := segs[k := Overwrite(segs[k], offset, src)];
            && Start(segs, k) + offset + |src| <= |Flatten(segs)|
            && Flatten(segs') == Overwrite(Flatten(segs), Start(segs, k) + offset, src)
            && Start(segs', k) == Start(segs, k) && Start(segs', |segs|) == Start(segs, |segs|)
  {
    hide Flatten, Start;
    var segs' := segs[k := Overwrite(segs[k], offset, src)];
    FlattenAt(segs, k);
    FlattenAt(segs', k);
    assert segs'[..k] == segs[..k] && segs'[k + 1..] == segs[k + 1..];
    MiddleOverwrite(Flatten(segs[..k]), segs[k], Flatten(segs[k + 1..]), offset, src);
    StartSameLengths(segs, segs', k);
    StartSameLengths(segs, segs', |segs|);
  }

  lemma {:induction false} StartSameLengths(a: seq<seq<byte>>, b: seq<seq<byte>>, k: nat)
    requires |a| == |b| && k <= |a| && forall i :: 0 <= i < |a| ==> |a[i]| == |b[i]|
    ensures Start(a, k) == Start(b, k)
  {
    if k != 0 { StartSameLengths(a, b, k - 1); }
  }

  lemma StartBeforeEnd(segs: seq<seq<byte>>, k: nat)
    requires k <= |segs| && Start(segs, k) < |Flatten(segs)|
    ensures k < |segs|
  {
    StartOfAll(segs);
  }

  lemma StartNext(segs: seq<seq<byte>>, k: nat)
    requires k < |segs|
    ensures Start(segs, k + 1) == Start(segs, k) + |segs[k]|
  {
  }

  lemma OverwriteNothing(buf: seq<byte>, offset: nat, src: seq<byte>)
    requires offset <= |buf| && src == []
    ensures Overwrite(buf, offset, src) == buf
  {
  }

  /** Copying a source piece by piece. */
  lemma OverwriteMore(buf: seq<byte>, offset: nat, src: seq<byte>, done: nat, chunk: nat)
    requires offset + |src| <= |buf| && done + chunk <= |src|
    ensures Overwrite(Overwrite(buf, offset, src[..done]), offset + done, src[done..done + chunk])
         == Overwrite(buf, offset, src[..done + chunk])
  {
  }

  /** One memcpy of the scatter loop. */
  lemma ScatterStep(out: seq<seq<byte>>, k: nat, offset: nat, flat: seq<byte>, from: nat, src: seq<byte>, done: nat,
      chunk: nat)
    requires k < |out| && offset + chunk <= |out[k]| && done + chunk <= |src| && from + |src| <= |flat|
    requires from + done == Start(out, k) + offset
    requires Flatten(out) == Overwrite(flat, from, src[..done])
    ensures var out' := out[k := Overwrite(out[k], offset, src[done..done + chunk])];
            && Flatten(out') == Overwrite(flat, from, src[..done + chunk])
            && Start(out', k) == Start(out, k)
  {
    hide Flatten, Overwrite, Start;
    FlattenOverwrite(out, k, offset, src[done..done + chunk]);
    OverwriteMore(flat, from, src, done, chunk);
  }

  // ---- gathering ----

  /** omx_continue_partial_copy_from_segments: the next `length` bytes, and where they end. */
  method ContinueCopyFrom(segs: seq<seq<byte>>, length: nat, at: Scan) returns (dst: seq<byte>, next: Scan)
    requires OnScan(segs, at) && at.seg < |segs|
    requires Pos(segs, at) + length <= |Flatten(segs)|
    ensures OnScan(segs, next) && Pos(segs, next) == Pos(segs, at) + length
    ensures dst == Flatten(segs)[Pos(segs, at)..Pos(segs, at) + length]
  {
    var curseg: nat, curoff: nat, left: nat := at.seg, at.offset, length;
    ghost var flat, from := Flatten(segs), Pos(segs, at);
    dst := [];
    StartOfAll(segs);
    hide Flatten, Start;
    while true
      invariant curseg < |segs| && curoff <= |segs[curseg]|
      invariant |dst| + left == length
      invariant from + |dst| == Start(segs, curseg) + curoff
      invariant dst == flat[from..from + |dst|]
      decreases |segs| - curseg
    {
      var curchunk := |segs[curseg]| - curoff;
      var chunk := if curchunk > left then left else curchunk;
      FlattenSlice(segs, curseg, curoff, curoff + chunk);
      assert flat[from..from + |dst|] + flat[from + |dst|..from + |dst| + chunk] == flat[from..from + |dst| + chunk];
      dst := dst + segs[curseg][curoff..curoff + chunk];
      left := left - chunk;
      if curchunk != chunk {
        curoff := curoff + chunk;
        break;
      } else {
        StartNext(segs, curseg);
        curseg := curseg + 1;
        curoff := 0;
        if left == 0 {
          break;
        }
      }
    }
    next := Scan(curseg, curoff);
  }

  /** The vectorial loop of omx__post_isend_mediumsq: one scan over the segments cuts every fragment. */
  method GatherFragments(segs: seq<seq<byte>>) returns (frags: seq<seq<byte>>)
    requires segs != []
    ensures |frags| == FragCount(|Flatten(segs)|)
    ensures forall i :: 0 <= i < |frags| ==> frags[i] == FragData(Flatten(segs), i)
  {
    var length := |Flatten(segs)|;
    var remaining := length;
    var at := Scan(0, 0);
    frags := [];
    var i := 0;
    FragCountBounds(length);
    while i < FragCount(length)
      invariant 0 <= i == |frags| <= FragCount(length)
      invariant OnScan(segs, at)
      invariant Pos(segs, at) == length - remaining == if FragStart(i) < length then FragStart(i) else length
      invariant forall j :: 0 <= j < i ==> frags[j] == FragData(Flatten(segs), j)
    {
      var chunk := if remaining > FRAG_MAX then FRAG_MAX else remaining;
      StartOfAll(segs);
      FragNext(i);
      hide FragStart;
      var data;
      data, at := ContinueCopyFrom(segs, chunk, at);
      frags := frags + [data];
      remaining := remaining - chunk;
      i := i + 1;
    }
  }

  // ---- scattering ----

  /** Where the rescan of omx_partial_copy_to_segments stops, or -1 when it runs off the list. */
  function Rescan(segs: seq<seq<byte>>, offset: nat, k: nat): (r: int)
    requires k <= |segs|
    ensures -1 <= r < |segs|
    decreases |segs| - k
  {
    if k == |segs| then -1
    else if offset > Start(segs, k) + |segs[k]| then Rescan(segs, offset, k + 1)
    else k
  }

  /** It stops at the first segment that reaches the offset. */
  lemma {:induction false} RescanFinds(segs: seq<seq<byte>>, offset: nat, k: nat)
    requires k <= |segs| && (k == 0 || Start(segs, k) < offset)
    ensures var r := Rescan(segs, offset, k);
            r != -1 ==> Start(segs, r) <= offset <= Start(segs, r) + |segs[r]| && (r == 0 || Start(segs, r) < offset)
    decreases |segs| - k
  {
    if k < |segs| && offset > Start(segs, k) + |segs[k]| { RescanFinds(segs, offset, k + 1); }
  }

  /** The rescan stays inside the segment list exactly for offsets up to its total length. */
  lemma {:induction false} RescanStays(segs: seq<seq<byte>>, offset: nat, k: nat)
    requires k <= |segs| && segs != [] && (k == 0 || offset > Start(segs, k))
    ensures Rescan(segs, offset, k) == -1 <==> offset > |Flatten(segs)|
    decreases |segs| - k
  {
    hide Flatten;
    StartOfAll(segs);
    if k < |segs| {
      FlattenAt(segs, k);
      if offset > Start(segs, k) + |segs[k]| { RescanStays(segs, offset, k + 1); }
    }
  }

  /** omx_continue_partial_copy_to_segments: the segments with `src` written from the scan state on. */
  method ContinueCopyTo(segs: seq<seq<byte>>, src: seq<byte>, at: Scan) returns (out: seq<seq<byte>>, next: Scan)
    requires OnScan(segs, at) && at.seg < |segs|
    requires Pos(segs, at) + |src| <= |Flatten(segs)|
    ensures |out| == |segs| && OnScan(out, next)
    ensures Pos(out, next) == Pos(segs, at) + |src|
    ensures Flatten(out) == Overwrite(Flatten(segs), Pos(segs, at), src)
  {
    var curseg: nat, curoff: nat, done: nat := at.seg, at.offset, 0;
    out := segs;
    ghost var flat, from := Flatten(segs), Pos(segs, at);
    hide Flatten, Overwrite, Start;
    OverwriteNothing(flat, from, src[..0]);
    while true
      invariant |out| == |segs|
      invariant curseg < |out| && curoff <= |out[curseg]|
      invariant 0 <= done <= |src| && from + done == Start(out, curseg) + curoff
      invariant Flatten(out) == Overwrite(flat, from, src[..done])
      decreases |out| - curseg
    {
      hide OnScan;
      var left := |src| - done;
      var curchunk := |out[curseg]| - curoff;
      var chunk := if curchunk > left then left else curchunk;
      ScatterStep(out, curseg, curoff, flat, from, src, done, chunk);
      out := out[curseg := Overwrite(out[curseg], curoff, src[done..done + chunk])];
      done := done + chunk;
      if curchunk != chunk {
        curoff := curoff + chunk;
        break;
      } else {
        StartNext(out, curseg);
        curseg := curseg + 1;
        curoff := 0;
        if done == |src| {
          break;
        }
        StartBeforeEnd(out, curseg);
      }
    }
    assert src[..done] == src;
    next := Scan(curseg, curoff);
  }

  /** A medium being received into segments: struct omx__recv_request with its medium part. */
  class VectorRecv {
    const msgLength: nat
    var segs: seq<seq<byte>>
    var mask: set<nat>
    var accumulated: nat
    var scan: Scan             // scan_state
    var scanOffset: nat        // scan_offset

    /** The remembered scan state is where a scan to scan_offset would be. */
    ghost predicate Valid()
      reads this
    {
      && segs != []
      && msgLength <= |Flatten(segs)|
      && OnScan(segs, scan)
      && Pos(segs, scan) == scanOffset
    }

    ghost function Value(): Reassembly
      reads this
    {
      Reassembly(msgLength, msgLength, Flatten(segs), mask, accumulated)
    }

    constructor (length: nat, dest: seq<seq<byte>>)
      requires dest != [] && length <= |Flatten(dest)|
      ensures Valid() && segs == dest && msgLength == length
      ensures Value() == Fresh(length, Flatten(dest))
    {
      msgLength, segs, mask, accumulated := length, dest, {}, 0;
      scan, scanOffset := Scan(0, 0), 0;
    }

    /** omx_partial_copy_to_segments: use the remembered state, or rescan first. */
    method PartialCopyTo(src: seq<byte>, offset: nat)
      requires Valid() && src != [] && offset + |src| <= |Flatten(segs)|
      modifies this`segs, this`scan, this`scanOffset
      ensures Valid() && scanOffset == offset + |src|
      ensures Flatten(segs) == Overwrite(old(Flatten(segs)), offset, src)
    {
      StartOfAll(segs);
      if offset != scanOffset {
        var curseg, curoffset := 0, 0;
        RescanStays(segs, offset, 0);
        while offset > curoffset + |segs[curseg]|
          invariant 0 <= curseg < |segs| && curoffset == Start(segs, curseg) <= offset
          invariant Rescan(segs, offset, 0) == Rescan(segs, offset, curseg) != -1
          decreases |segs| - curseg
        {
          curoffset := curoffset + |segs[curseg]|;
          curseg := curseg + 1;
        }
        scan := Scan(curseg, offset - curoffset);
      }
      segs, scan := ContinueCopyTo(segs, src, scan);
      scanOffset := offset + |src|;
    }

    /**
      omx__process_recv_medium_frag into a vectorial destination that is large
      enough: the same request state as reception into one flat buffer.
    */
    method ReceiveFrag(frag: nat, data: seq<byte>)
      requires Valid() && data != [] && FragStart(frag) + |data| <= msgLength
      modifies this
      ensures Valid()
      ensures Value() == Receive(old(Value()), frag, data)
    {
      if frag in mask {
        return;
      }
      PartialCopyTo(data, FragStart(frag));
      mask := mask + {frag};
      accumulated := accumulated + |data|;
      assert data[..|data|] == data;
    }
  }

  /**
    A medium from one segment list to another: cut once, fragments arriving in
    any order and any number of times, scattered with the remembered scan.
  */
  method TransferVectorial(src: seq<seq<byte>>, dest: seq<seq<byte>>, arrivals: seq<nat>)
      returns (out: seq<seq<byte>>, complete: bool)
    requires src != [] && dest != [] && |Flatten(src)| <= |Flatten(dest)|
    requires forall k :: 0 <= k < |arrivals| ==> arrivals[k] < FragCount(|Flatten(src)|)
    ensures complete <==> forall i: nat :: i < FragCount(|Flatten(src)|) ==> i in arrivals
    ensures |Flatten(out)| == |Flatten(dest)|
    ensures complete ==> Flatten(out)[..|Flatten(src)|] == Flatten(src)
  {
    ghost var data := Flatten(src);
    var frags := GatherFragments(src);
    var length := |Flatten(src)|;
    var req := new VectorRecv(length, dest);
    ghost var start := req.Value();
    hide Flatten;
    var k := 0;
    while k < |arrivals|
      invariant 0 <= k <= |arrivals| && req.Valid()
      invariant req.Value() == ReceiveAll(start, data, arrivals[..k])
      invariant |req.Value().buf| == |start.buf|
    {
      hide Receive, Absorb;
      assert arrivals[..k + 1][..k] == arrivals[..k];
      FragWithin(data, arrivals[k]);
      ReceiveKeepsSize(req.Value(), arrivals[k], frags[arrivals[k]]);
      req.ReceiveFrag(arrivals[k], frags[arrivals[k]]);
      k := k + 1;
    }
    assert arrivals[..k] == arrivals;
    MediumRoundTrip(data, Flatten(dest), arrivals);
    out := req.segs;
    complete := req.accumulated == length;
    assert data[..length] == data;
  }

  lemma FragWithin(data: seq<byte>, i: nat)
    requires i < FragCount(|data|)
    ensures FragData(data, i) != [] && FragStart(i) + |FragData(data, i)| <= |data|
  {
    FragCountBounds(|data|);
  }

  lemma ReceiveKeepsSize(d: Reassembly, frag: nat, data: seq<byte>)
    requires WellSized(d)
    ensures |Receive(d, frag, data).buf| == |d.buf|
  {
  }
}
