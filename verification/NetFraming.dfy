/** The network thread of the PDSCH example: it cuts a byte stream into transport blocks and
    moves the incomplete remainder to the front of its receive buffer. */
module NetFraming {
  import opened Basics

  const DATA_BUFF_SZ: nat := 1024 * 1024

  /** Bytes of a packet for a transport block of tbs bits; the division truncates, so 0 bits give 1 byte. */
  function PacketBytes(tbs: nat): (r: nat)
    ensures r >= 1 && 8 * r >= tbs
    ensures tbs > 0 ==> 8 * (r - 1) < tbs
    ensures tbs == 0 ==> r == 1
  {
    if tbs == 0 then 1 else 1 + (tbs - 1) / 8
  }

  // ---------- specification: cutting a stream ----------

  function Packets(stream: Bytes, nbytes: nat): seq<Bytes>
    requires nbytes >= 1
    decreases |stream|
  {
    if |stream| < nbytes then [] else [stream[..nbytes]] + Packets(stream[nbytes..], nbytes)
  }

  function Rest(stream: Bytes, nbytes: nat): Bytes
    requires nbytes >= 1
    decreases |stream|
  {
    if |stream| < nbytes then stream else Rest(stream[nbytes..], nbytes)
  }

  function Flatten(packets: seq<Bytes>): Bytes {
    if packets == [] then [] else packets[0] + Flatten(packets[1..])
  }

  lemma {:induction false} FlattenAppend(a: seq<Bytes>, b: seq<Bytes>)
    ensures Flatten(a + b) == Flatten(a) + Flatten(b)
  {
    if a == [] {
      assert a + b == b;
    } else {
      FlattenAppend(a[1..], b);
      assert (a + b)[0] == a[0] && (a + b)[1..] == a[1..] + b;
      Associative(a[0], Flatten(a[1..]), Flatten(b));
    }
  }

  /** Cutting loses nothing, every packet is full, and what is kept is less than a packet. */
  lemma {:induction false} CutConserves(stream: Bytes, nbytes: nat)
    requires nbytes >= 1
    ensures Flatten(Packets(stream, nbytes)) + Rest(stream, nbytes) == stream
    ensures |Rest(stream, nbytes)| < nbytes
    ensures forall p :: p in Packets(stream, nbytes) ==> |p| == nbytes
    decreases |stream|
  {
    if |stream| >= nbytes {
      CutConserves(stream[nbytes..], nbytes);
      var tail := Packets(stream[nbytes..], nbytes);
      assert ([stream[..nbytes]] + tail)[1..] == tail;
      assert stream == stream[..nbytes] + stream[nbytes..];
    }
  }

  /** Cutting a stream in two instalments, the second behind what the first kept, is cutting it at once. */
  lemma {:induction false} CutInInstalments(a: Bytes, b: Bytes, nbytes: nat)
    requires nbytes >= 1
    ensures Packets(a + b, nbytes) == Packets(a, nbytes) + Packets(Rest(a, nbytes) + b, nbytes)
    ensures Rest(a + b, nbytes) == Rest(Rest(a, nbytes) + b, nbytes)
    decreases |a|
  {
    if |a| >= nbytes {
      CutInInstalments(a[nbytes..], b, nbytes);
      assert (a + b)[..nbytes] == a[..nbytes];
      assert (a + b)[nbytes..] == a[nbytes..] + b;
    }
  }

  // ---------- specification: a run of reads ----------

  /** One read of the loop: its bytes and the packet size in force when it is handled. */
  datatype Read = Read(bytes: Bytes, nbytes: nat)

  datatype Framing = Framing(packets: seq<Bytes>, kept: Bytes)

  function OnRead(f: Framing, r: Read): Framing
    requires r.nbytes >= 1
  {
    Framing(f.packets + Packets(f.kept + r.bytes, r.nbytes), Rest(f.kept + r.bytes, r.nbytes))
  }

  ghost predicate Sized(rs: seq<Read>) {
    forall i :: 0 <= i < |rs| ==> rs[i].nbytes >= 1
  }

  function FramingOf(rs: seq<Read>): Framing
    requires Sized(rs)
    decreases |rs|
  {
    if rs == [] then Framing([], [])
    else OnRead(FramingOf(rs[..|rs| - 1]), rs[|rs| - 1])
  }

  function Stream(rs: seq<Read>): Bytes
    decreases |rs|
  {
    if rs == [] then [] else Stream(rs[..|rs| - 1]) + rs[|rs| - 1].bytes
  }

  /** One read keeps the account balanced and leaves less than a packet behind. */
  lemma ReadConserves(f: Framing, r: Read)
    requires r.nbytes >= 1
    ensures var g := OnRead(f, r);
            Flatten(g.packets) + g.kept == Flatten(f.packets) + f.kept + r.bytes && |g.kept| < r.nbytes
  {
    var whole := f.kept + r.bytes;
    var packets, rest := Packets(whole, r.nbytes), Rest(whole, r.nbytes);
    CutConserves(whole, r.nbytes);
    FlattenAppend(f.packets, packets);
    Associative(Flatten(f.packets), Flatten(packets), rest);
    Associative(Flatten(f.packets), f.kept, r.bytes);
  }

  /** Over any run, whatever the packet sizes, packets followed by the kept bytes are the bytes read. */
  lemma {:induction false} RunConserves(rs: seq<Read>)
    requires Sized(rs)
    ensures var f := FramingOf(rs); Flatten(f.packets) + f.kept == Stream(rs)
    ensures rs != [] ==> |FramingOf(rs).kept| < rs[|rs| - 1].nbytes
    decreases |rs|
  {
    if rs != [] {
      var front, r := rs[..|rs| - 1], rs[|rs| - 1];
      RunConserves(front);
      ReadConserves(FramingOf(front), r);
    }
  }

  /** With a constant packet size the outcome does not depend on how the network chops the stream. */
  lemma {:induction false} ChunkingIsIrrelevant(rs: seq<Read>, nbytes: nat)
    requires nbytes >= 1
    requires forall i :: 0 <= i < |rs| ==> rs[i].nbytes == nbytes
    ensures FramingOf(rs) == Framing(Packets(Stream(rs), nbytes), Rest(Stream(rs), nbytes))
    decreases |rs|
  {
    if rs != [] {
      var front := rs[..|rs| - 1];
      ChunkingIsIrrelevant(front, nbytes);
      CutInInstalments(Stream(front), rs[|rs| - 1].bytes, nbytes);
    }
  }

  // ---------- handing a packet to the transmitter ----------

  /** What the encoder gets: one block in MBSFN mode, otherwise two that are both copied from the
      packet's first half. */
  datatype Delivery = Mbms(block: Bytes) | TwoBlocks(block0: Bytes, block1: Bytes)

  function Deliver(mbsfn: bool, packet: Bytes): Delivery {
    if mbsfn then Mbms(packet)
    else TwoBlocks(packet[..|packet| / 2], packet[..|packet| / 2])
  }

  function Payload(d: Delivery): Bytes {
    match d
    case Mbms(block) => block
    case TwoBlocks(block0, block1) => block0 + block1
  }

  /** A packet arrives whole in MBSFN mode; in the two-block mode only if its size is even and its second
      half happens to equal its first. */
  lemma DeliveredWhole(mbsfn: bool, packet: Bytes)
    ensures Payload(Deliver(mbsfn, packet)) == packet
       <==> mbsfn || (|packet| % 2 == 0 && packet[|packet| / 2..] == packet[..|packet| / 2])
  {
    var half := |packet| / 2;
    assert packet == packet[..half] + packet[half..];
    if !mbsfn && Payload(Deliver(mbsfn, packet)) == packet {
      assert (packet[..half] + packet[..half])[half..] == packet[..half];
    }
  }

  /** Byte by byte: in the two-block mode both blocks are the first half of the packet, rounded down, and
      in MBSFN mode the one block is all of it. */
  lemma DeliveredBytes(mbsfn: bool, packet: Bytes)
    ensures var d := Deliver(mbsfn, packet);
            && (mbsfn ==> d == Mbms(packet))
            && (!mbsfn ==>
                  && d.TwoBlocks? && |d.block0| == |packet| / 2 == |d.block1|
                  && forall i :: 0 <= i < |packet| / 2 ==> d.block0[i] == packet[i] == d.block1[i])
  {
  }

  /** In particular a two-block packet of odd size always loses a byte. */
  lemma OddPacketIsTruncated(packet: Bytes)
    requires |packet| % 2 == 1
    ensures |Payload(Deliver(false, packet))| == |packet| - 1
    ensures Payload(Deliver(false, packet)) != packet
  {
    DeliveredWhole(false, packet);
  }

  function Deliveries(mbsfn: bool, packets: seq<Bytes>): (ds: seq<Delivery>)
    ensures |ds| == |packets|
  {
    seq(|packets|, i requires 0 <= i < |packets| => Deliver(mbsfn, packets[i]))
  }

  lemma DeliveriesAppend(mbsfn: bool, a: seq<Bytes>, b: seq<Bytes>)
    ensures Deliveries(mbsfn, a + b) == Deliveries(mbsfn, a) + Deliveries(mbsfn, b)
  {
  }

  lemma NothingDelivered(mbsfn: bool)
    ensures Deliveries(mbsfn, []) == []
  {
  }

  lemma OneMoreDelivered(mbsfn: bool, packets: seq<Bytes>, packet: Bytes)
    ensures Deliveries(mbsfn, packets + [packet]) == Deliveries(mbsfn, packets) + [Deliver(mbsfn, packet)]
  {
    hide Deliver;
  }

  lemma LessThanAPacket(kept: Bytes, nbytes: nat)
    requires |kept| < nbytes
    ensures Packets(kept, nbytes) == [] && Rest(kept, nbytes) == kept
  {
  }

  // ---------- the thread ----------

  /** memcpy inside one array: the two ranges must not overlap. */
  method Memcpy(a: array<byte>, dst: nat, src: nat, n: nat)
    requires dst + n <= a.Length && src + n <= a.Length
    requires dst + n <= src || src + n <= dst
    modifies a
    ensures a[..] == old(a[..dst] + a[src..src + n] + a[dst + n..])
  {
    ghost var before := a[..];
    var i := 0;
    while i < n
      invariant 0 <= i <= n
      invariant forall k :: dst <= k < dst + i ==> a[k] == before[src + k - dst]
      invariant forall k :: 0 <= k < a.Length && !(dst <= k < dst + i) ==> a[k] == before[k]
    {
      a[dst + i] := a[src + i];
      i := i + 1;
    }
  }

  lemma CutAt(whole: Bytes, wpm: nat, nbytes: nat)
    requires nbytes >= 1 && wpm + nbytes <= |whole|
    ensures Packets(whole[wpm..], nbytes) == [whole[wpm..wpm + nbytes]] + Packets(whole[wpm + nbytes..], nbytes)
    ensures Rest(whole[wpm..], nbytes) == Rest(whole[wpm + nbytes..], nbytes)
  {
    assert whole[wpm..][..nbytes] == whole[wpm..wpm + nbytes];
    assert whole[wpm..][nbytes..] == whole[wpm + nbytes..];
  }

  lemma ReadStep(rs: seq<Read>, got: Bytes, nbytes: nat)
    requires Sized(rs) && nbytes >= 1
    ensures var f := FramingOf(rs);
            && Sized(rs + [Read(got, nbytes)])
            && FramingOf(rs + [Read(got, nbytes)])
               == Framing(f.packets + Packets(f.kept + got, nbytes), Rest(f.kept + got, nbytes))
  {
    var all := rs + [Read(got, nbytes)];
    assert all[..|all| - 1] == rs;
    hide Packets, Rest;
  }

  class NetThread {
    const mbsfn: bool
    const data2: array<byte>
    var rpm: nat
    var sent: seq<Delivery>
    /** The reads since the buffer was last emptied by a read of no bytes. */
    ghost var session: seq<Read>
    ghost var earlier: seq<Delivery>

    ghost predicate Valid()
      reads this, data2
    {
      && data2.Length == DATA_BUFF_SZ
      && rpm <= data2.Length
      && Sized(session)
      && Kept() == FramingOf(session).kept
      && sent == earlier + Deliveries(mbsfn, FramingOf(session).packets)
    }

    function Kept(): Bytes
      requires rpm <= data2.Length
      reads this, data2
    {
      data2[..rpm]
    }

    constructor (mbsfn: bool)
      ensures Valid() && fresh(data2) && session == [] && earlier == [] && this.mbsfn == mbsfn
    {
      this.mbsfn := mbsfn;
      data2 := new byte[DATA_BUFF_SZ];
      rpm, sent, session, earlier := 0, [], [], [];
    }

    /** The inner loop: send full packets from the front while there are any. */
    method SendPackets(nbytes: nat) returns (wpm: nat)
      requires nbytes >= 1 && rpm <= data2.Length
      modifies this`rpm, this`sent
      ensures wpm + rpm == old(rpm) && rpm < nbytes
      ensures wpm == 0 || wpm >= nbytes
      ensures data2[wpm..wpm + rpm] == Rest(old(Kept()), nbytes)
      ensures sent == old(sent) + Deliveries(mbsfn, Packets(old(Kept()), nbytes))
    {
      hide Packets, Rest, Deliveries, Deliver;
      ghost var whole := Kept();
      ghost var packets: seq<Bytes> := [];
      NothingDelivered(mbsfn);
      assert whole[0..] == whole;
      wpm := 0;
      while rpm >= nbytes
        invariant wpm + rpm == |whole| <= data2.Length
        invariant forall i :: 0 <= i < |whole| ==> data2[i] == whole[i]
        invariant wpm == 0 || wpm >= nbytes
        invariant Packets(whole, nbytes) == packets + Packets(whole[wpm..], nbytes)
        invariant Rest(whole, nbytes) == Rest(whole[wpm..], nbytes)
        invariant sent == old(sent) + Deliveries(mbsfn, packets)
        decreases rpm
      {
        var packet := data2[wpm..wpm + nbytes];
        CutAt(whole, wpm, nbytes);
        assert forall i :: 0 <= i < nbytes ==> packet[i] == whole[wpm + i];
        assert packet == whole[wpm..wpm + nbytes];
        OneMoreDelivered(mbsfn, packets, packet);
        Associative(packets, [packet], Packets(whole[wpm + nbytes..], nbytes));
        sent := sent + [Deliver(mbsfn, packet)];
        packets := packets + [packet];
        rpm := rpm - nbytes;
        wpm := wpm + nbytes;
      }
      assert data2[wpm..wpm + rpm] == whole[wpm..];
      LessThanAPacket(whole[wpm..], nbytes);
      assert packets + [] == packets;
    }

    /** The read puts its bytes behind those kept. */
    method Append(got: Bytes)
      requires rpm + |got| <= data2.Length
      modifies this`rpm, data2
      ensures rpm == old(rpm) + |got| && Kept() == old(Kept()) + got
    {
      forall i | 0 <= i < |got| {
        data2[rpm + i] := got[i];
      }
      rpm := rpm + |got|;
    }

    /** The bytes left over move to the front; what was sent is at least as long, so the ranges are
        disjoint. */
    method Compact(wpm: nat)
      requires wpm + rpm <= data2.Length && (wpm == 0 || rpm <= wpm)
      modifies data2
      ensures Kept() == old(data2[wpm..wpm + rpm])
    {
      if wpm > 0 {
        Memcpy(data2, 0, wpm, rpm);
      }
    }

    /** A read that returned bytes: at least one, and no more than there was space for. */
    method Receive(got: Bytes, tbs: nat)
      requires Valid()
      requires 1 <= |got| <= data2.Length - rpm
      modifies this`rpm, this`sent, this`session, data2
      ensures Valid()
      ensures session == old(session) + [Read(got, PacketBytes(tbs))]
      ensures rpm < PacketBytes(tbs)
      ensures PacketBytes(tbs) <= DATA_BUFF_SZ ==> rpm < data2.Length
    {
      ghost var f := FramingOf(session);
      var nbytes := PacketBytes(tbs);
      ghost var more := Packets(f.kept + got, nbytes);
      ReadStep(session, got, nbytes);
      DeliveriesAppend(mbsfn, f.packets, more);
      hide FramingOf, Packets, Rest, Deliveries, Sized;
      Associative(earlier, Deliveries(mbsfn, f.packets), Deliveries(mbsfn, more));
      Append(got);
      assert Kept() == f.kept + got;
      hide Kept;
      var wpm := SendPackets(nbytes);
      Compact(wpm);
      session := session + [Read(got, nbytes)];
    }

    /** A read of no bytes forgets what was kept. */
    method ReceiveNothing()
      requires Valid()
      modifies this`rpm, this`session, this`earlier
      ensures Valid() && rpm == 0 && session == [] && earlier == old(sent)
    {
      rpm := 0;
      session := [];
      earlier := sent;
    }
  }
}
