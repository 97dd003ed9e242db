/** The server side of streamio_v2: one open file per channel, a one-block disk cache filled
    by short reads, and the packets sent for a fetch request. */
module StreamServer {
  import opened Options
  import opened StreamParams

  datatype Packet = Packet(map_: nat, data: seq<Byte>)

  datatype Reply = Reopen | Packets(sent: seq<Packet>)

  function Min(a: int, b: int): int { if a < b then a else b }

  /** `data` agrees with the file from position `at` on, wherever that is inside the file. */
  predicate Agrees(file: seq<Byte>, at: nat, data: seq<Byte>) {
    forall j :: 0 <= j < |data| && at + j < |file| ==> data[j] == file[at + j]
  }

  /** A packet that answers a fetch of network block `nd`. */
  predicate Genuine(p: Params, file: seq<Byte>, nd: nat, pkt: Packet) {
    && pkt.map_ < p.packets && |pkt.data| == PacketLen(p, pkt.map_)
    && Agrees(file, NetStart(p, nd) + Offset(pkt.map_), pkt.data)
  }

  /** Where disk block `k` starts in a file. */
  function Start(p: Params, k: nat): nat { k * p.disk }

  lemma StartNext(p: Params, k: nat)
    ensures Start(p, 0) == 0 && Start(p, k + 1) == Start(p, k) + p.disk
  {
  }

  class Channel {
    const p: Params
    const buffer: array<Byte>
    var open: bool          // fd >= 0
    var file: seq<Byte>     // what the descriptor reads
    var pos: nat            // the descriptor's offset
    var filesize: nat
    var blkcnt: int
    var buflen: nat

    /** Reading on from `at` gives what reading from block `k` gives: the same place, or both
        past the end. */
    ghost predicate SamePlace(at: nat, k: nat)
      reads `file
    {
      at == Start(p, k) || (at >= |file| && Start(p, k) >= |file|)
    }

    /** The buffer holds the current block, and the descriptor stands at the next one. */
    ghost predicate Valid()
      reads this, buffer
    {
      && Accepted(p) && buffer.Length == p.disk && blkcnt >= -1
      && (open ==> filesize == |file| && SamePlace(pos, blkcnt + 1))
      && (open && blkcnt >= 0 ==> Agrees(file, Start(p, blkcnt), buffer[..]))
    }

    constructor (p: Params)
      requires Accepted(p)
      ensures Valid() && !open && fresh(buffer) && this.p == p
    {
      this.p := p;
      buffer := new Byte[p.disk];
      open, file, pos, filesize, blkcnt, buflen := false, [], 0, 0, -1, 0;
    }

    /** read(2) on a regular file: at least one and at most `n` bytes, none at the end. */
    method Read(n: nat) returns (data: seq<Byte>)
      requires n > 0
      modifies `pos
      ensures |data| <= n && pos == old(pos) + |data|
      ensures if old(pos) < |file| then |data| >= 1 && pos <= |file| && data == file[old(pos)..pos] else data == []
    {
      if pos < |file| {
        var rlen :| 1 <= rlen <= n && pos + rlen <= |file|;
        data := file[pos..pos + rlen];
        pos := pos + rlen;
      } else {
        data := [];
      }
    }

    method CopyIn(at: nat, data: seq<Byte>)
      requires at + |data| <= buffer.Length
      modifies buffer
      ensures forall j :: at <= j < at + |data| ==> buffer[j] == data[j - at]
      ensures forall j :: 0 <= j < at ==> buffer[j] == old(buffer[j])
    {
      forall j | 0 <= j < |data| {
        buffer[at + j] := data[j];
      }
    }

    /** fullread */
    method FullRead() returns (rc: nat)
      requires buffer.Length == p.disk && filesize == |file|
      modifies `pos, buffer
      ensures rc <= p.disk && pos == old(pos) + rc
      ensures rc == if old(pos) >= |file| then 0 else Min(p.disk, |file| - old(pos))
      ensures Agrees(file, old(pos), buffer[..])
    {
      ghost var pos0 := pos;
      var explen := p.disk;
      rc := 0;
      if filesize - 0 < explen {    // the position argument is always 0
        explen := filesize;
      }
      ghost var total := explen;
      while explen > 0
        invariant 0 <= explen && rc + explen == total && total <= p.disk && pos == pos0 + rc
        invariant rc > 0 ==> pos <= |file|
        invariant forall j :: 0 <= j < rc ==> pos0 + j < |file| && buffer[j] == file[pos0 + j]
        decreases explen
      {
        var data := Read(explen);
        if |data| > 0 {
          ghost var before := buffer[..];
          CopyIn(rc, data);
          forall j | 0 <= j < rc + |data|
            ensures pos0 + j < |file| && buffer[j] == file[pos0 + j]
          {
            assert j < rc ==> buffer[j] == before[j];
            assert j >= rc ==> buffer[j] == data[j - rc];
          }
          explen := explen - |data|;
          rc := rc + |data|;
        } else {
          break;
        }
      }
    }

    /** The disk part of remote_fetch_file: make block `k` the one in the buffer. */
    method LoadBlock(k: nat)
      requires Valid() && open
      modifies this, buffer
      ensures Valid() && open && blkcnt == k && file == old(file)
    {
      hide Start, Agrees;
      if k != blkcnt {
        if k != blkcnt + 1 {
          pos := k * p.disk;
        }
        StartIs(p, k);
        assert SamePlace(pos, k);
        ghost var at := pos;
        buflen := FullRead();
        blkcnt := k;
        StartNext(p, k);
        PastEnd(file, at, Start(p, k), buffer[..]);
      }
    }

    /** remote_openfile: `f` is what opening the name gave, if it could be opened. */
    method OpenFile(f: seq<Byte>, ok: bool)
      requires Valid()
      modifies this
      ensures Valid() && open == ok && (ok ==> file == f && blkcnt == -1)
    {
      open := false;
      if ok {
        open, file, pos, filesize, blkcnt := true, f, 0, |f|, -1;
      }
    }

    /** remote_fetch_file: the packets of network block `nd` that the request's map asks for. */
    method Fetch(nd: nat, map_: seq<bool>) returns (r: Reply)
      requires Valid() && |map_| == MAX_PACKET_MAP
      modifies this, buffer
      ensures Valid() && open == old(open) && file == old(file)
      ensures r.Reopen? <==> !open
      ensures r.Packets? ==> Answers(p, file, nd, map_, r.sent)
    {
      hide Answers, Agrees, Start, SizesOk, Derived;
      if !open {
        return Reopen;
      }
      Tiling(p);
      LoadBlock(nd / p.fact);
      var sent := SendPackets(nd, map_);
      r := Packets(sent);
    }

    /** The packet loop of remote_fetch_file. */
    method SendPackets(nd: nat, map_: seq<bool>) returns (sent: seq<Packet>)
      requires Valid() && open && |map_| == MAX_PACKET_MAP && p.fact > 0 && blkcnt == nd / p.fact
      ensures Answers(p, file, nd, map_, sent)
    {
      hide Genuine, Agrees, Start, Answering;
      Tiling(p);
      sent := [];
      NoneAnswered(p, file, nd, map_);
      for i := 0 to p.packets
        invariant Answering(p, file, nd, map_, i, sent)
      {
        if map_[i] {
          var pkt := CutPacket(nd, i);
          OneMoreAnswered(p, file, nd, map_, i, sent, pkt);
          sent := sent + [pkt];
        } else {
          NoMoreAnswered(p, file, nd, map_, i, sent);
        }
      }
    }

    method CutPacket(nd: nat, i: nat) returns (pkt: Packet)
      requires Valid() && open && p.fact > 0 && blkcnt == nd / p.fact && i < p.packets
      ensures pkt.map_ == i && Genuine(p, file, nd, pkt)
    {
      hide Genuine, Agrees, Start;
      Tiling(p);
      var idx, clen := nd % p.fact * p.net + i * CARRY, PacketLen(p, i);
      InsideDisk(p, nd % p.fact, i);
      pkt := Packet(i, buffer[idx..idx + clen]);
      PacketGenuine(p, file, nd, buffer[..], pkt);
    }
  }

  /** The packets below `n` that a request's map asks for, by rising index. */
  function AskedFor(map_: seq<bool>, n: nat): seq<nat>
    requires n <= |map_|
  {
    if n == 0 then [] else AskedFor(map_, n - 1) + if map_[n - 1] then [n - 1] else []
  }

  lemma {:induction false} AskedExact(map_: seq<bool>, n: nat)
    requires n <= |map_|
    ensures forall i :: i in AskedFor(map_, n) <==> 0 <= i < n && map_[i]
    ensures forall j, k :: 0 <= j < k < |AskedFor(map_, n)| ==> AskedFor(map_, n)[j] < AskedFor(map_, n)[k]
  {
    if n > 0 {
      AskedExact(map_, n - 1);
      var a := AskedFor(map_, n - 1);
      assert forall k :: 0 <= k < |a| ==> a[k] in a;
    }
  }

  /** What is sent are the packets asked for below `n`, each once, by rising index, and all of
      them genuine. */
  ghost predicate Answering(p: Params, file: seq<Byte>, nd: nat, map_: seq<bool>, n: nat, sent: seq<Packet>) {
    && n <= |map_| && |sent| == |AskedFor(map_, n)|
    && forall k :: 0 <= k < |sent| ==> sent[k].map_ == AskedFor(map_, n)[k] && Genuine(p, file, nd, sent[k])
  }

  ghost predicate Answers(p: Params, file: seq<Byte>, nd: nat, map_: seq<bool>, sent: seq<Packet>) {
    Answering(p, file, nd, map_, p.packets, sent)
  }

  lemma NoneAnswered(p: Params, file: seq<Byte>, nd: nat, map_: seq<bool>)
    ensures Answering(p, file, nd, map_, 0, [])
  {
  }

  lemma OneMoreAnswered(p: Params, file: seq<Byte>, nd: nat, map_: seq<bool>, i: nat, sent: seq<Packet>, pkt: Packet)
    requires Answering(p, file, nd, map_, i, sent) && i < |map_| && map_[i]
    requires pkt.map_ == i && Genuine(p, file, nd, pkt)
    ensures Answering(p, file, nd, map_, i + 1, sent + [pkt])
  {
    hide Genuine;
  }

  lemma NoMoreAnswered(p: Params, file: seq<Byte>, nd: nat, map_: seq<bool>, i: nat, sent: seq<Packet>)
    requires Answering(p, file, nd, map_, i, sent) && i < |map_| && !map_[i]
    ensures Answering(p, file, nd, map_, i + 1, sent)
  {
    hide Genuine;
  }

  /** Some packet of `sent` carries index `i`. */
  ghost predicate Sent(sent: seq<Packet>, i: nat) {
    exists k :: 0 <= k < |sent| && sent[k].map_ == i
  }

  /** Every packet that is asked for is sent. */
  lemma AllSent(p: Params, file: seq<Byte>, nd: nat, map_: seq<bool>, sent: seq<Packet>)
    requires Answers(p, file, nd, map_, sent)
    ensures forall i :: 0 <= i < p.packets && i < |map_| && map_[i] ==> Sent(sent, i)
  {
    hide Genuine;
    AskedExact(map_, p.packets);
    var a := AskedFor(map_, p.packets);
    forall i | 0 <= i < p.packets && i < |map_| && map_[i] ensures Sent(sent, i) {
      assert i in a;
      var k :| 0 <= k < |a| && a[k] == i;
      assert sent[k].map_ == i;
    }
  }

  /** A packet cut out of a buffer that holds the right disk block is genuine. */
  lemma PacketGenuine(p: Params, file: seq<Byte>, nd: nat, block: seq<Byte>, pkt: Packet)
    requires Accepted(p) && p.fact > 0 && |block| == p.disk && Agrees(file, Start(p, nd / p.fact), block)
    requires pkt.map_ < p.packets
    requires var idx := nd % p.fact * p.net + Offset(pkt.map_);
             var len := PacketLen(p, pkt.map_);
             len >= 0 && idx + len <= |block| && pkt.data == block[idx..idx + len]
    ensures Genuine(p, file, nd, pkt)
  {
    hide Start, NetStart, Agrees, SizesOk, Derived, Offset, PacketLen;
    BlockPosition(p, nd);
    var at, idx := Start(p, nd / p.fact), nd % p.fact * p.net + Offset(pkt.map_);
    assert NetStart(p, nd) + Offset(pkt.map_) == at + idx;
    AgreesPart(file, at, block, idx, pkt.data);
  }

  lemma AgreesPart(file: seq<Byte>, at: nat, block: seq<Byte>, idx: nat, data: seq<Byte>)
    requires Agrees(file, at, block) && idx + |data| <= |block| && data == block[idx..idx + |data|]
    ensures Agrees(file, at + idx, data)
  {
    forall j | 0 <= j < |data| && at + idx + j < |file|
      ensures data[j] == file[at + idx + j]
    {
      assert block[idx + j] == file[at + (idx + j)];
    }
  }

  lemma StartIs(p: Params, k: nat)
    ensures Start(p, k) == k * p.disk
  {
  }

  /** Past the end any two places agree with anything. */
  lemma PastEnd(file: seq<Byte>, at: nat, from: nat, data: seq<Byte>)
    requires Agrees(file, at, data) && (at == from || (at >= |file| && from >= |file|))
    ensures Agrees(file, from, data)
  {
  }

  /** Network block `nd` starts where its disk block and its entry in it say. */
  lemma BlockPosition(p: Params, nd: nat)
    requires Accepted(p)
    ensures p.fact > 0 && NetStart(p, nd) == Start(p, nd / p.fact) + nd % p.fact * p.net
  {
    Tiling(p);
    hide SizesOk, Derived;
    var b, e, f, n := nd / p.fact, nd % p.fact, p.fact, p.net;
    DivMod(nd, f);
    Distribute(b, f, e, n);
  }

  lemma DivMod(k: nat, f: nat)
    requires f > 0
    ensures k == k / f * f + k % f
  {
  }

  lemma Distribute(b: nat, f: nat, e: nat, n: nat)
    ensures (b * f + e) * n == b * (f * n) + e * n
  {
  }

  // ---------- whole sequences of requests ----------

  datatype Request = Open(f: seq<Byte>, ok: bool) | Get(nd: nat, map_: seq<bool>)

  /** The file that is open after a sequence of requests. */
  function OpenAfter(reqs: seq<Request>): Option<seq<Byte>> {
    if reqs == [] then None
    else
      var r := reqs[|reqs| - 1];
      if r.Get? then OpenAfter(reqs[..|reqs| - 1]) else if r.ok then Some(r.f) else None
  }

  /** The reply that a fetch deserves: an error if nothing is open, otherwise packets with the
      bytes of the open file. */
  ghost predicate Deserved(p: Params, now: Option<seq<Byte>>, req: Request, reply: Reply) {
    req.Get? ==>
      if now.None? then reply.Reopen? else reply.Packets? && Answers(p, now.value, req.nd, req.map_, reply.sent)
  }

  /** Opens and fetches in any order: every fetch is answered from the file open at that time,
      whichever blocks were fetched before. */
  method Serve(ch: Channel, reqs: seq<Request>) returns (replies: seq<Reply>)
    requires ch.Valid() && !ch.open
    requires forall i :: 0 <= i < |reqs| && reqs[i].Get? ==> |reqs[i].map_| == MAX_PACKET_MAP
    modifies ch, ch.buffer
    ensures |replies| == |reqs|
    ensures forall i :: 0 <= i < |reqs| ==> Deserved(ch.p, OpenAfter(reqs[..i]), reqs[i], replies[i])
  {
    hide Answers, OpenAfter, Accepted, Agrees, Start;
    replies := [];
    OpenNext(reqs, 0);
    for i := 0 to |reqs|
      invariant ch.Valid() && |replies| == i
      invariant OpenAfter(reqs[..i]) == if ch.open then Some(ch.file) else None
      invariant forall j :: 0 <= j < i ==> Deserved(ch.p, OpenAfter(reqs[..j]), reqs[j], replies[j])
    {
      OpenNext(reqs, i);
      var reply := Reopen;
      match reqs[i] {
        case Open(f, ok) => ch.OpenFile(f, ok);
        case Get(nd, m) => reply := ch.Fetch(nd, m);
      }
      assert Deserved(ch.p, OpenAfter(reqs[..i]), reqs[i], reply);
      replies := replies + [reply];
    }
  }

  lemma OpenNext(reqs: seq<Request>, i: nat)
    ensures OpenAfter(reqs[..0]) == None
    ensures i < |reqs| && reqs[i].Open? ==> OpenAfter(reqs[..i + 1]) == if reqs[i].ok then Some(reqs[i].f) else None
    ensures i < |reqs| && reqs[i].Get? ==> OpenAfter(reqs[..i + 1]) == OpenAfter(reqs[..i])
  {
    if i < |reqs| {
      assert reqs[..i + 1][..i] == reqs[..i];
    }
  }
}
