/**
  Messages as the application submits them, and the packets the driver carries
  for them (struct omx_evt_recv_msg in common/omx_io.h).
*/
module Messages {
  import opened Seqnums
  import opened Fragments

  datatype Kind = Tiny | Small | Medium | Rndv | Notify

  /** For a rendezvous or a notify, `data` is the descriptor carried by the packet. */
  datatype Msg = Msg(kind: Kind, info: bv64, data: seq<byte>)

  datatype Packet = Packet(
    seqnum: Seqnum,
    piggyack: Seqnum,
    kind: Kind,
    info: bv64,
    msgLength: nat,
    frag: nat,               // frag_seqnum, 0 unless medium
    data: seq<byte>)

  /** A medium is longer than the largest small message, hence not empty. */
  predicate ValidMsg(m: Msg) {
    m.kind == Medium ==> m.data != []
  }

  function PacketCount(m: Msg): nat {
    if m.kind == Medium then FragCount(|m.data|) else 1
  }

  /** The i-th packet of a message. */
  function PacketOf(m: Msg, seqnum: Seqnum, piggyack: Seqnum, i: nat): Packet
    requires i < PacketCount(m)
  {
    Packet(seqnum, piggyack, m.kind, m.info, |m.data|, i,
           if m.kind == Medium then FragData(m.data, i) else m.data)
  }

  ghost predicate IsPacketOf(p: Packet, m: Msg) {
    p.frag < PacketCount(m) && p == PacketOf(m, p.seqnum, p.piggyack, p.frag)
  }
}
