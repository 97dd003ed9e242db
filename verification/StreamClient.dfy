/** The client side of streamio_v2: requests network blocks, reassembles their packets by
    bitmap whatever the network loses, repeats or reorders, and hands the bytes on. */
module StreamClient {
  import opened StreamParams
  import opened StreamServer

  /** How many packets are still missing. */
  function Missing(m: seq<bool>): nat {
    if m == [] then 0 else Missing(m[..|m| - 1]) + if m[|m| - 1] then 1 else 0
  }

  lemma {:induction false} MissingCleared(m: seq<bool>, i: nat)
    requires i < |m| && m[i]
    ensures Missing(m) > 0 && Missing(m[i := false]) == Missing(m) - 1
  {
    var n := |m| - 1;
    if i < n {
      MissingCleared(m[..n], i);
      assert m[i := false][..n] == m[..n][i := false];
    } else {
      assert m[i := false][..n] == m[..n];
    }
  }

  lemma {:induction false} MissingNone(m: seq<bool>)
    ensures Missing(m) == 0 <==> forall i :: 0 <= i < |m| ==> !m[i]
  {
    if m != [] {
      MissingNone(m[..|m| - 1]);
    }
  }

  /** The first `n` packets requested, the others not. */
  function FirstN(n: nat, total: nat): seq<bool> { seq(total, i => i < n) }

  lemma {:induction false} MissingFirst(n: nat, total: nat)
    requires n <= total
    ensures Missing(FirstN(n, total)) == n
    decreases total
  {
    if total > 0 {
      var m := FirstN(n, total);
      assert m[..total - 1] == FirstN(n, total - 1);
      if n < total {
        MissingFirst(n, total - 1);
      } else {
        assert FirstN(n, total - 1) == FirstN(n - 1, total - 1);
        MissingFirst(n - 1, total - 1);
      }
    }
  }

  /** How many packets the request for `len` remaining bytes asks for. */
  function Wanted(p: Params, len: nat): nat {
    if len >= p.net then p.packets else len / CARRY + if len % CARRY != 0 then 1 else 0
  }

  /** `rounds` lists the packet indices that the network hands over in each round of sending.
      A packet arrives if its index occurs in some round. */
  predicate Arrived(rounds: seq<seq<nat>>, i: nat) {
    exists r :: 0 <= r < |rounds| && i in rounds[r]
  }

  lemma ArrivedMore(rounds: seq<seq<nat>>, picks: seq<nat>, i: nat)
    ensures Arrived(rounds + [picks], i) <==> Arrived(rounds, i) || i in picks
  {
    var more := rounds + [picks];
    assert forall r :: 0 <= r < |rounds| ==> more[r] == rounds[r];
    assert more[|rounds|] == picks;
  }

  lemma ArrivedPrefix(rounds: seq<seq<nat>>, n: nat, i: nat)
    requires n <= |rounds|
    ensures Arrived(rounds[..n], i) ==> Arrived(rounds, i)
  {
  }

  /** The first `n` packets all arrive. */
  predicate AllArrive(rounds: seq<seq<nat>>, n: nat) {
    forall i :: 0 <= i < n ==> Arrived(rounds, i)
  }

  lemma FirstArrive(rounds: seq<seq<nat>>, n: nat)
    requires n <= MAX_PACKET_MAP
    ensures var m := FirstN(n, MAX_PACKET_MAP);
            AllArrive(rounds, n) <==> forall i :: 0 <= i < |m| && m[i] ==> Arrived(rounds, i)
  {
    hide Arrived;
    var m := FirstN(n, MAX_PACKET_MAP);
    if forall i :: 0 <= i < |m| && m[i] ==> Arrived(rounds, i) {
      forall i | 0 <= i < n ensures Arrived(rounds, i) {
        assert m[i];
      }
    }
  }

  /** The packets asked for are exactly those that have a byte of the file. */
  lemma WantedExact(p: Params, len: nat, i: nat)
    requires Accepted(p)
    ensures i < Wanted(p, len) <==> i < p.packets && Offset(i) < len
  {
    Tiling(p);
    if len < p.net {
      Ceiling(len, i);
      WholeCeiling(p, len);
    }
  }

  lemma Ceiling(len: nat, i: nat)
    ensures i < len / CARRY + (if len % CARRY != 0 then 1 else 0) <==> i * CARRY < len
  {
  }

  lemma WholeCeiling(p: Params, len: nat)
    requires Accepted(p) && len < p.net
    ensures Wanted(p, len) <= p.packets
  {
  }

  class Client {
    const p: Params
    const buffer: array<Byte>
    var fsize: nat
    var ndtotal: nat
    var ndcnt: nat
    var bidx: nat
    var blen: nat
    var requestMap: nat
    var map_: seq<bool>

    /** The remote file, and what has been handed to the caller of read so far. */
    ghost var file: seq<Byte>
    ghost var got: seq<Byte>

    /** A request for the first `n` packets of block `nd` is under way. */
    ghost predicate Pending(nd: nat, n: nat)
      reads this, buffer
    {
      && Accepted(p) && buffer.Length == MAX_TRANS && n <= p.packets && |map_| == MAX_PACKET_MAP
      && requestMap == Missing(map_)
      && (forall i :: n <= i < |map_| ==> !map_[i])
      && (forall i :: 0 <= i < n && i < |map_| && !map_[i] ==> Stored(p, file, nd, buffer[..], i))
    }

    /** The FETCH branch of response. */
    method Receive(pkt: Packet, ghost nd: nat, ghost n: nat)
      requires Pending(nd, n) && Genuine(p, file, nd, pkt)
      modifies `requestMap, `map_, buffer
      ensures Pending(nd, n)
      ensures forall i :: 0 <= i < |map_| ==> (map_[i] <==> old(map_)[i] && i != pkt.map_)
    {
      hide Missing, Stored, Agrees, Put, Derived, SizesOk;
      Within(p, pkt.map_);
      Tiling(p);
      MissingNone(map_);
      if requestMap > 0 {
        var i := pkt.map_;
        if map_[i] {
          var k := i * CARRY;
          var j := if i == p.packets - 1 then p.net - k else CARRY;
          MissingCleared(map_, i);
          map_ := map_[i := false];
          requestMap := requestMap - 1;
          ghost var before := buffer[..];
          assert k == Offset(i) && j == |pkt.data| && pkt.data[..j] == pkt.data;
          CopyIn(k, pkt.data[..j]);
          StoreKeeps(p, file, nd, before, buffer[..], pkt);
        }
      }
    }

    /** Everything between opening the file and now: what the caller has, followed by what is
        still in the buffer, is the beginning of the file up to block `ndcnt`. */
    ghost predicate Valid()
      reads this, buffer
    {
      && Accepted(p) && buffer.Length == MAX_TRANS && fsize == |file| && |map_| == MAX_PACKET_MAP
      && ndtotal == Total(p, fsize) && bidx + blen <= MAX_TRANS
      && got + buffer[bidx..bidx + blen] == file[..Min(NetStart(p, ndcnt), fsize)]
    }

    /** A client that has opened the file `f`, and with the server's parameters. */
    constructor (p: Params, ghost f: seq<Byte>, size: nat)
      requires Accepted(p) && size == |f|
      ensures Valid() && file == f && got == [] && this.p == p && fresh(buffer)
    {
      this.p := p;
      buffer := new Byte[MAX_TRANS];
      fsize, ndtotal, ndcnt, bidx, blen, requestMap := size, Total(p, size), 0, 0, 0, 0;
      map_ := FirstN(0, MAX_PACKET_MAP);
      file, got := f, [];
      NetNext(p, 0);
    }

    /** How many packets the next request asks for. */
    ghost function Asked(): nat
      reads this
    {
      if NetStart(p, ndcnt) < fsize then Wanted(p, fsize - NetStart(p, ndcnt)) else 0
    }

    lemma AskedBound()
      requires Valid()
      ensures Asked() <= p.packets
    {
      Tiling(p);
    }

    /** internal_read up to sending the request: asks for the packets of block `ndcnt` that lie
        inside the file, and says how many bytes that will give. */
    method Request() returns (rc: nat, ghost n: nat)
      requires Valid() && ndcnt < ndtotal
      modifies `requestMap, `map_
      ensures NetStart(p, ndcnt) < fsize && rc == Min(p.net, fsize - NetStart(p, ndcnt))
      ensures Pending(ndcnt, n) && n == Wanted(p, fsize - NetStart(p, ndcnt)) == Asked()
      ensures map_ == FirstN(n, MAX_PACKET_MAP)
    {
      hide Missing, NetStart;
      TotalExact(p, fsize, ndcnt);
      Tiling(p);
      var len := fsize - NetStart(p, ndcnt);
      var asked := Wanted(p, len);
      rc := if len >= p.net then p.net else len;
      requestMap := asked;
      map_ := FirstN(asked, MAX_PACKET_MAP);
      MissingFirst(asked, MAX_PACKET_MAP);
      n := asked;
    }

    /** The client talks to a server channel that has the same file open. */
    ghost predicate Linked(server: Channel)
      reads this, server, server.buffer
    {
      server.Valid() && server.open && server.file == file && server.p == p && server.buffer != buffer
    }

    /** Exactly those packets of the request `asked` are missing that have not arrived. */
    ghost predicate Awaiting(asked: seq<bool>, rounds: seq<seq<nat>>)
      reads `map_
    {
      |map_| == |asked| && forall i :: 0 <= i < |map_| ==> (map_[i] <==> asked[i] && !Arrived(rounds, i))
    }

    /** Requests are repeated with the packets still missing.  In each round the network hands
        over packets sent so far for this request, in any order, any number of times, and any
        copy of those sent more than once.  Whatever it does, exactly the packets that never
        arrived are missing afterwards. */
    method Exchange(server: Channel, rounds: seq<seq<nat>>, nd: nat, ghost n: nat)
      requires Linked(server) && Pending(nd, n)
      modifies `requestMap, `map_, buffer, server, server.buffer
      ensures Linked(server) && Pending(nd, n) && Awaiting(old(map_), rounds)
      ensures requestMap == 0 <==> forall i :: 0 <= i < |map_| && old(map_)[i] ==> Arrived(rounds, i)
    {
      hide Genuine, Missing, Accepted, Agrees, Stored, Answers, Arrived, Pool;
      ghost var asked := map_;
      var pool: seq<Packet> := [];
      NothingArrived();
      MissingNone(map_);
      for r := 0 to |rounds|
        invariant Linked(server) && Pending(nd, n) && Awaiting(asked, rounds[..r])
        invariant Pool(pool, nd, if r == 0 then [] else asked)
        invariant Missing(map_) == 0 <==> forall i :: 0 <= i < |map_| ==> !map_[i]
      {
        if requestMap == 0 {
          Enough(asked, rounds, r);
          return;
        }
        var reply := server.Fetch(nd, map_);
        PoolMore(pool, nd, asked, if r == 0 then [] else asked, reply.sent);
        pool := pool + reply.sent;
        Deliver(pool, rounds[r], nd, n, asked, rounds[..r]);
        assert rounds[..r + 1] == rounds[..r] + [rounds[r]];
        MissingNone(map_);
      }
      assert rounds[..|rounds|] == rounds;
    }

    lemma NothingArrived()
      ensures Awaiting(map_, []) && Pool([], 0, []) && forall nd: nat :: Pool([], nd, [])
    {
    }

    /** When nothing is missing, later rounds make no difference. */
    lemma Enough(asked: seq<bool>, rounds: seq<seq<nat>>, r: nat)
      requires r <= |rounds| && Awaiting(asked, rounds[..r]) && forall i :: 0 <= i < |map_| ==> !map_[i]
      ensures Awaiting(asked, rounds)
    {
      hide Arrived;
      forall i | 0 <= i < |map_| && asked[i] ensures Arrived(rounds, i) {
        ArrivedPrefix(rounds, r, i);
      }
    }

    /** The packets sent so far are genuine, and there is one for each that `asked` asks for. */
    ghost predicate Pool(pool: seq<Packet>, nd: nat, asked: seq<bool>)
      reads `file
    {
      && (forall k :: 0 <= k < |pool| ==> Genuine(p, file, nd, pool[k]))
      && (forall i :: 0 <= i < |asked| && asked[i] ==> Sent(pool, i))
    }

    lemma PoolMore(pool: seq<Packet>, nd: nat, asked: seq<bool>, before: seq<bool>, sent: seq<Packet>)
      requires Answers(p, file, nd, map_, sent) && Pool(pool, nd, before)
      requires before == asked || (before == [] && map_ == asked)
      requires forall i :: p.packets <= i < |asked| ==> !asked[i]
      ensures Pool(pool + sent, nd, asked)
    {
      hide Genuine;
      var more := pool + sent;
      AllSent(p, file, nd, map_, sent);
      forall i | 0 <= i < |asked| && asked[i] ensures Sent(more, i) {
        if before == asked {
          var k :| 0 <= k < |pool| && pool[k].map_ == i;
          assert more[k].map_ == i;
        } else {
          assert Sent(sent, i);
          var k :| 0 <= k < |sent| && sent[k].map_ == i;
          assert more[|pool| + k].map_ == i;
        }
      }
    }

    /** One round of the network: for each index some packet sent with it, if there is one. */
    method Deliver(pool: seq<Packet>, picks: seq<nat>, nd: nat, ghost n: nat,
                   ghost asked: seq<bool>, ghost rounds: seq<seq<nat>>)
      requires Pending(nd, n) && Pool(pool, nd, asked) && Awaiting(asked, rounds)
      modifies `requestMap, `map_, buffer
      ensures Pending(nd, n) && Awaiting(asked, rounds + [picks])
    {
      hide Genuine, Missing, Accepted, Agrees, Stored, Arrived;
      for d := 0 to |picks|
        invariant Pending(nd, n) && |map_| == |asked|
        invariant forall i :: 0 <= i < |map_| ==> (map_[i] <==> asked[i] && !Arrived(rounds, i) && i !in picks[..d])
      {
        var i := picks[d];
        assert picks[..d + 1] == picks[..d] + [i];
        if k :| 0 <= k < |pool| && pool[k].map_ == i {
          Receive(pool[k], nd, n);
        } else {
          assert !Sent(pool, i);
        }
      }
      assert picks[..|picks|] == picks;
      forall i: nat ensures Arrived(rounds + [picks], i) <==> Arrived(rounds, i) || i in picks {
        ArrivedMore(rounds, picks, i);
      }
    }

    /** cli_read: the next bytes of the file, at most `want`; -1 at the end.  `done` is false
        while the network has not delivered the current block. */
    method Read(server: Channel, rounds: seq<seq<nat>>, want: nat) returns (done: bool, rc: int, data: seq<Byte>)
      requires Valid() && Linked(server)
      modifies this, buffer, server, server.buffer
      ensures Linked(server) && file == old(file)
      ensures done ==> Valid() && got == old(got) + data && got <= file
      ensures done ==> (rc == -1 <==> old(got) == file)
      ensures done && rc != -1 ==> rc == |data| && (want > 0 ==> rc > 0)
      ensures done && rc != -1 ==> |data| <= want && (|data| == want || blen == 0)
      ensures done && rc == -1 ==> data == []
      ensures done <==> old(blen) > 0 || old(got) == file || AllArrive(rounds, old(Asked()))
    {
      hide Genuine, Missing, Accepted, Agrees, Stored, NetStart, Total;
      AtEnd();
      data := [];
      if blen == 0 {
        if ndcnt >= ndtotal {
          return true, -1, data;
        }
        done := Refill(server, rounds);
        if !done {
          return false, 0, data;
        }
      }
      AtEnd();
      done, rc := true, if blen >= want then want else blen;
      data := HandOut(rc);
      AtEnd();
    }

    /** internal_read: block `ndcnt` is in the buffer if all its packets arrive, and only then. */
    method FetchBlock(server: Channel, rounds: seq<seq<nat>>) returns (ok: bool, rc: nat, ghost n: nat)
      requires Valid() && Linked(server) && ndcnt < ndtotal
      modifies `requestMap, `map_, buffer, server, server.buffer
      ensures Linked(server) && Pending(ndcnt, n) && n == Asked()
      ensures NetStart(p, ndcnt) < fsize && rc == Min(p.net, fsize - NetStart(p, ndcnt))
      ensures ok <==> requestMap == 0
      ensures ok <==> AllArrive(rounds, n)
    {
      hide Genuine, Missing, Agrees, Stored, NetStart, Total, SizesOk, Derived, Arrived, AllArrive, Valid, Wanted;
      rc, n := Request();
      Exchange(server, rounds, ndcnt, n);
      Tiling(p);
      FirstArrive(rounds, n);
      ok := requestMap == 0;
    }

    /** The bookkeeping around it. */
    method Refill(server: Channel, rounds: seq<seq<nat>>) returns (ok: bool)
      requires Valid() && Linked(server) && blen == 0 && ndcnt < ndtotal
      modifies this, buffer, server, server.buffer
      ensures Linked(server) && file == old(file) && got == old(got)
      ensures ok ==> Valid() && blen > 0
      ensures ok <==> AllArrive(rounds, old(Asked()))
    {
      hide Genuine, Missing, Agrees, Stored, NetStart, Total, SizesOk, Derived, AllArrive, Wanted;
      AtEnd();
      ghost var nd := ndcnt;
      bidx := 0;
      var rc;
      ghost var n;
      ok, rc, n := FetchBlock(server, rounds);
      if ok {
        Complete(nd, n, rc);
        blen := rc;
        ndcnt := ndcnt + 1;
        NextPrefix(file, p, nd, rc);
        assert buffer[0..rc] == buffer[..rc];
      }
    }

    /** The copying part of cli_read. */
    method HandOut(rc: nat) returns (data: seq<Byte>)
      requires Valid() && rc <= blen
      modifies `bidx, `blen, `got
      ensures Valid() && |data| == rc && got == old(got) + data && got <= file
    {
      hide Accepted, NetStart, Total;
      data := buffer[bidx..bidx + rc];
      assert buffer[bidx..bidx + blen] == data + buffer[bidx + rc..bidx + blen];
      blen := blen - rc;
      bidx := bidx + rc;
      got := got + data;
    }

    lemma AtEnd()
      requires Valid()
      ensures p.net > 0
      ensures got == file <==> blen == 0 && ndcnt >= ndtotal
      ensures blen == 0 ==> got == file[..Min(NetStart(p, ndcnt), fsize)]
    {
      TotalExact(p, fsize, ndcnt);
    }

    /** When no packet is missing, the buffer starts with the block. */
    lemma Complete(nd: nat, n: nat, rc: nat)
      requires Pending(nd, n) && requestMap == 0 && NetStart(p, nd) < |file|
      requires n == Wanted(p, |file| - NetStart(p, nd)) && rc == Min(p.net, |file| - NetStart(p, nd))
      ensures 0 < rc <= MAX_TRANS && buffer[..rc] == file[NetStart(p, nd)..NetStart(p, nd) + rc]
    {
      MissingNone(map_);
      Tiling(p);
      Assembled(p, file, nd, buffer[..], n, rc);
    }

    method CopyIn(at: nat, data: seq<Byte>)
      requires at + |data| <= buffer.Length
      modifies buffer
      ensures buffer[..] == Put(old(buffer[..]), at, data)
    {
      forall x | 0 <= x < |data| {
        buffer[at + x] := data[x];
      }
    }
  }

  function Put(b: seq<Byte>, at: nat, data: seq<Byte>): seq<Byte>
    requires at + |data| <= |b|
  {
    b[..at] + data + b[at + |data|..]
  }

  /** Packet `i` of block `nd` has arrived and is in its place in `b`. */
  ghost predicate Stored(p: Params, file: seq<Byte>, nd: nat, b: seq<Byte>, i: nat)
  {
    && PacketLen(p, i) >= 0 && Offset(i) + PacketLen(p, i) <= |b|
    && Agrees(file, NetStart(p, nd) + Offset(i), b[Offset(i)..Offset(i) + PacketLen(p, i)])
  }

  lemma Within(p: Params, i: nat)
    requires Accepted(p) && i < p.packets
    ensures 1 <= PacketLen(p, i) && Offset(i) + PacketLen(p, i) <= p.net <= MAX_TRANS
  {
  }

  /** Storing a genuine packet puts it in place and disturbs no other. */
  lemma StoreKeeps(p: Params, file: seq<Byte>, nd: nat, b: seq<Byte>, b': seq<Byte>, pkt: Packet)
    requires Accepted(p) && |b| == MAX_TRANS && Genuine(p, file, nd, pkt)
    requires Offset(pkt.map_) + |pkt.data| <= |b| && b' == Put(b, Offset(pkt.map_), pkt.data)
    ensures Stored(p, file, nd, b', pkt.map_)
    ensures forall i :: 0 <= i < p.packets && i != pkt.map_ && Stored(p, file, nd, b, i) ==> Stored(p, file, nd, b', i)
  {
    hide Agrees, Stored, Put, PacketLen, Offset;
    StoreHere(p, file, nd, b, pkt);
    forall i | 0 <= i < p.packets && i != pkt.map_ && Stored(p, file, nd, b, i)
      ensures Stored(p, file, nd, b', i)
    {
      StoreElsewhere(p, file, nd, b, pkt, i);
    }
  }

  lemma StoreHere(p: Params, file: seq<Byte>, nd: nat, b: seq<Byte>, pkt: Packet)
    requires Accepted(p) && Genuine(p, file, nd, pkt) && Offset(pkt.map_) + |pkt.data| <= |b|
    ensures Stored(p, file, nd, Put(b, Offset(pkt.map_), pkt.data), pkt.map_)
  {
    hide Agrees;
    var o := Offset(pkt.map_);
    assert Put(b, o, pkt.data)[o..o + |pkt.data|] == pkt.data;
  }

  lemma StoreElsewhere(p: Params, file: seq<Byte>, nd: nat, b: seq<Byte>, pkt: Packet, i: nat)
    requires Accepted(p) && Genuine(p, file, nd, pkt) && Offset(pkt.map_) + |pkt.data| <= |b|
    requires i < p.packets && i != pkt.map_ && Stored(p, file, nd, b, i)
    ensures Stored(p, file, nd, Put(b, Offset(pkt.map_), pkt.data), i)
  {
    hide Agrees, Offset, PacketLen, Put;
    Within(p, i);
    Disjoint(p, i, pkt.map_);
    PutElsewhere(b, Offset(pkt.map_), pkt.data, Offset(i), Offset(i) + PacketLen(p, i));
    PutLength(b, Offset(pkt.map_), pkt.data);
  }

  lemma PutLength(b: seq<Byte>, at: nat, data: seq<Byte>)
    requires at + |data| <= |b|
    ensures |Put(b, at, data)| == |b|
  {
  }

  lemma PutElsewhere(b: seq<Byte>, at: nat, data: seq<Byte>, lo: nat, hi: nat)
    requires at + |data| <= |b| && lo <= hi <= |b| && (hi <= at || at + |data| <= lo)
    ensures Put(b, at, data)[lo..hi] == b[lo..hi]
  {
  }

  lemma Disjoint(p: Params, i: nat, m: nat)
    requires Accepted(p) && i < p.packets && m < p.packets && i != m
    ensures Offset(i) + PacketLen(p, i) <= Offset(m) || Offset(m) + PacketLen(p, m) <= Offset(i)
  {
  }

  lemma NextPrefix(file: seq<Byte>, p: Params, nd: nat, rc: nat)
    requires NetStart(p, nd) < |file| && rc == Min(p.net, |file| - NetStart(p, nd))
    ensures Min(NetStart(p, nd + 1), |file|) == NetStart(p, nd) + rc
    ensures file[..NetStart(p, nd)] + file[NetStart(p, nd)..NetStart(p, nd) + rc] == file[..NetStart(p, nd) + rc]
  {
    NetNext(p, nd);
  }

  /** Packets in place make up the block. */
  lemma Assembled(p: Params, file: seq<Byte>, nd: nat, b: seq<Byte>, n: nat, rc: nat)
    requires Accepted(p) && |b| == MAX_TRANS && n <= p.packets && NetStart(p, nd) < |file|
    requires n == Wanted(p, |file| - NetStart(p, nd)) && rc == Min(p.net, |file| - NetStart(p, nd))
    requires forall i :: 0 <= i < n ==> Stored(p, file, nd, b, i)
    ensures rc <= |b| && b[..rc] == file[NetStart(p, nd)..NetStart(p, nd) + rc]
  {
    hide NetStart;
    forall j | 0 <= j < rc
      ensures b[j] == file[NetStart(p, nd) + j]
    {
      InPacket(p, |file| - NetStart(p, nd), j);
      ByteStored(p, file, nd, b, j / CARRY, j);
    }
  }

  lemma InPacket(p: Params, len: nat, j: nat)
    requires Accepted(p) && j < p.net && j < len
    ensures j / CARRY < Wanted(p, len) && Covers(p, j / CARRY, j)
  {
  }

  lemma ByteStored(p: Params, file: seq<Byte>, nd: nat, b: seq<Byte>, i: nat, j: nat)
    requires Stored(p, file, nd, b, i) && Covers(p, i, j) && j < |b| && NetStart(p, nd) + j < |file|
    ensures b[j] == file[NetStart(p, nd) + j]
  {
    hide NetStart;
    var o := Offset(i);
    var piece := b[o..o + PacketLen(p, i)];
    assert piece[j - o] == b[j];
    assert NetStart(p, nd) + o + (j - o) == NetStart(p, nd) + j;
  }

  /** Reading until the end gives the whole file, whatever sizes are asked for and whatever the
      network does in each round; and the end is reached if every packet of a block arrives in
      one round or another of the read that fetches it. */
  method ReadFile(client: Client, server: Channel, plans: seq<seq<seq<nat>>>, wants: seq<nat>)
    returns (finished: bool, out: seq<Byte>)
    requires client.Valid() && client.Linked(server) && client.got == [] && |wants| == |plans|
    modifies client, client.buffer, server, server.buffer
    ensures finished ==> out == old(client.file)
    ensures |plans| > |old(client.file)| && Steady(client.p, plans, wants) ==> finished
  {
    hide Arrived;
    out, finished := [], false;
    for i := 0 to |plans|
      invariant client.Valid() && client.Linked(server) && client.file == old(client.file)
      invariant out == client.got && out <= client.file
      invariant Steady(client.p, plans, wants) ==> |out| >= i
    {
      client.AskedBound();
      var done, rc, data := client.Read(server, plans[i], wants[i]);
      if !done {
        return;
      }
      out := out + data;
      if rc == -1 {
        return true, out;
      }
    }
  }

  predicate Steady(p: Params, plans: seq<seq<seq<nat>>>, wants: seq<nat>) {
    && (forall i :: 0 <= i < |plans| ==> AllArrive(plans[i], p.packets))
    && (forall i :: 0 <= i < |wants| ==> wants[i] > 0)
  }
}
