/** Block and packet arithmetic of streamio_v2: which parameters the server accepts and how
    packets cut up a network block. */
module StreamParams {
  const CARRY: nat := 1439            // STIOV2_CARRY_DATASIZE
  const MAX_PACKET_MAP: nat := 23     // STIOV2_MAX_PACKET_MAP
  const MAX_TRANS: nat := 32768       // STIOV2_MAX_TRANS_BUFSIZE
  const MAX_DISK: nat := 1048576      // DEFAULT_DISKIO_BUFFER_FAVIOR
  const CHANNELS: nat := 4            // MAXIMUM_STIOV2_SERVICES

  type Byte = bv8

  /** The parameters of one channel. */
  datatype Params = Params(disk: nat, net: nat, fact: nat, packets: nat)

  /** The checks of stiov2_set_parameter on the two sizes. */
  predicate SizesOk(disk: int, net: int) {
    4096 <= disk <= MAX_DISK && 4096 <= net <= MAX_TRANS && net % 1024 == 0 && disk % net == 0
  }

  function Derived(disk: nat, net: nat): Params
    requires SizesOk(disk, net)
  {
    Params(disk, net, disk / net, net / CARRY + if net % CARRY > 0 then 1 else 0)
  }

  /** Parameters that the server has accepted. */
  predicate Accepted(p: Params) {
    SizesOk(p.disk, p.net) && p == Derived(p.disk, p.net)
  }

  /** The sizes at the edges of what is accepted. */
  lemma SizesAtEdges()
    ensures SizesOk(4096, 4096) && !SizesOk(3072, 3072) && !SizesOk(6144, 3072) && !SizesOk(0, 4096)
    ensures SizesOk(1048576, 32768) && !SizesOk(1048576 + 32768, 32768) && !SizesOk(33792, 33792)
    ensures !SizesOk(8194, 4097) && !SizesOk(12288, 8192)
  {
  }

  /** The largest network block: 23 packets, the last one of 1110 bytes. */
  lemma LargestBlock()
    ensures var p := Derived(1048576, 32768);
            && p == Params(1048576, 32768, 32, 23)
            && PacketLen(p, 0) == 1439 && PacketLen(p, 22) == 1110 && Offset(22) == 31658
  {
  }

  function Offset(i: nat): nat { i * CARRY }

  /** How many bytes packet `i` carries. */
  function PacketLen(p: Params, i: nat): int {
    if i == p.packets - 1 then p.net - i * CARRY else CARRY
  }

  /** Accepted parameters tile: packets follow one another without gap or overlap, the last one
      is not empty, together they cover the network block, and network blocks tile the disk
      buffer. */
  lemma Tiling(p: Params)
    requires Accepted(p)
    ensures 1 <= p.packets <= MAX_PACKET_MAP && p.fact >= 1 && p.disk == p.fact * p.net
    ensures forall i :: 0 <= i < p.packets ==> 1 <= PacketLen(p, i) <= CARRY
    ensures forall i :: 0 <= i < p.packets - 1 ==> Offset(i) + PacketLen(p, i) == Offset(i + 1)
    ensures Offset(p.packets - 1) + PacketLen(p, p.packets - 1) == p.net
  {
    FactorExact(p.disk, p.net);
  }

  lemma FactorExact(d: nat, n: nat)
    requires n > 0 && d % n == 0 && d > 0
    ensures d == d / n * n && d / n >= 1
  {
  }

  /** Byte `j` of the network block travels in packet `i`. */
  predicate Covers(p: Params, i: nat, j: nat) {
    Offset(i) <= j < Offset(i) + PacketLen(p, i)
  }

  /** Every byte of the network block is in exactly one packet. */
  lemma EveryByteOnce(p: Params, j: nat)
    requires Accepted(p) && j < p.net
    ensures exists i :: 0 <= i < p.packets && Covers(p, i, j)
    ensures forall i, k :: 0 <= i < p.packets && 0 <= k < p.packets && Covers(p, i, j) && Covers(p, k, j) ==> i == k
  {
    Tiling(p);
    assert Covers(p, j / CARRY, j);
  }

  /** A packet of entry `e` of the disk buffer lies inside the disk buffer. */
  lemma InsideDisk(p: Params, e: nat, i: nat)
    requires Accepted(p) && e < p.fact && i < p.packets
    ensures e * p.net + Offset(i) + PacketLen(p, i) <= p.disk
  {
    Tiling(p);
    assert (e + 1) * p.net <= p.fact * p.net by { MulMono(e + 1, p.fact, p.net); }
    assert (e + 1) * p.net == e * p.net + p.net;
  }

  lemma MulMono(a: nat, b: nat, n: nat)
    requires a <= b
    ensures a * n <= b * n
  {
    assert (b - a) * n >= 0;
    assert b * n == a * n + (b - a) * n;
  }

  /** Where network block `nd` starts in a file, and how many blocks a file has. */
  function NetStart(p: Params, nd: nat): nat { nd * p.net }

  function Total(p: Params, size: nat): nat
    requires p.net > 0
  {
    size / p.net + if size % p.net != 0 then 1 else 0
  }

  lemma NetNext(p: Params, nd: nat)
    ensures NetStart(p, 0) == 0 && NetStart(p, nd + 1) == NetStart(p, nd) + p.net
  {
  }

  /** The blocks that have a byte of the file are those before the total. */
  lemma TotalExact(p: Params, size: nat, nd: nat)
    requires p.net > 0
    ensures nd < Total(p, size) <==> NetStart(p, nd) < size
  {
    var q, r, n := size / p.net, size % p.net, p.net;
    assert size == q * n + r;
    if nd < q {
      MulMono(nd + 1, q, n);
      assert (nd + 1) * n == nd * n + n;
    } else if nd > q {
      MulMono(q + 1, nd, n);
      assert (q + 1) * n == q * n + n;
    }
  }

  predicate ChannelTestPasses(channel: int) { !(channel < 0 || channel > CHANNELS) }

  /** The channel test lets through exactly one channel that has no storage. */
  lemma ChannelGap(channel: int)
    ensures ChannelTestPasses(channel) && !(0 <= channel < CHANNELS) <==> channel == CHANNELS
  {
  }

  /** The server's per-channel parameters. */
  class Server {
    var started: bool
    var params: seq<Params>

    ghost predicate Valid()
      reads this
    {
      |params| == CHANNELS && forall c :: 0 <= c < CHANNELS ==> Accepted(params[c])
    }

    constructor ()
      ensures Valid() && !started
    {
      started := false;
      params := seq(CHANNELS, _ => Params(1048576, 32768, 32, 23));
    }

    /** stiov2_set_parameter, with a write outside the arrays as an outcome of its own. */
    method SetParameter(channel: int, disk: int, net: int) returns (r: Outcome)
      requires Valid()
      modifies this
      ensures Valid() && started == old(started)
      ensures r == Done <==> !started && 0 <= channel < CHANNELS && SizesOk(disk, net)
      ensures r == OutOfBounds <==> !started && channel == CHANNELS && SizesOk(disk, net)
      ensures params == if r == Done then old(params)[channel := Derived(disk, net)] else old(params)
    {
      if started {
        return Refused;
      }
      if !ChannelTestPasses(channel) {
        return Refused;
      }
      if disk < 4096 || disk > MAX_DISK {
        return Refused;
      }
      if net < 4096 || net > MAX_TRANS {
        return Refused;
      }
      if net % 1024 != 0 {
        return Refused;
      }
      if disk % net != 0 {
        return Refused;
      }
      if channel >= |params| {
        return OutOfBounds;
      }
      params := params[channel := Derived(disk, net)];
      return Done;
    }
  }

  datatype Outcome = Refused | Done | OutOfBounds
}
