/** Where the receive path reads its lengths from: what a sender has to write into the header of a packet,
    and into the header of a frame. */
module BtFields {
  import opened Options
  import opened Words
  import opened BtFraming
  import opened BtReceive
  import opened BtTheorems

  // ---- the length of a packet

  /** Lengths below this fit into the length field: none, one byte, or two with 14 or 16 bits. */
  function Reach(d: PktDef): nat {
    if d.lsize == 0 then 1 else if d.lsize == 1 then 0x100 else if d.kind == 0x05 then 0x4000 else 0x1_0000
  }

  /** Writes length n into a header, least significant byte first. The two bits above the length of
      isochronous data are something else's. */
  function WithLength(d: PktDef, header: seq<byte>, n: nat, flags: nat): (h: seq<byte>)
    requires ValidDef(d) && d.lsize <= 2 && |header| == d.hlen && n < Reach(d) && flags < 4
    ensures |h| == |header|
  {
    if d.lsize == 0 then header
    else if d.lsize == 1 then header[d.loff := n]
    else header[d.loff := n % 256][d.loff + 1 := n / 256 + if d.kind == 0x05 then 64 * flags else 0]
  }

  // the two bytes of a length, with two bits above it or without
  lemma BytesOfLength(n: nat, flags: nat)
    requires n < 0x1_0000 && flags < 4
    ensures Le16(n % 256, n / 256) == n
    ensures n < 0x4000 ==> n / 256 + 64 * flags < 256 && (n / 256 + 64 * flags) % 64 == n / 256
  {}

  lemma LengthRead(d: PktDef, header: seq<byte>, n: nat, flags: nat)
    requires ValidDef(d) && d.lsize <= 2 && |header| == d.hlen && n < Reach(d) && flags < 4
    ensures DataLength(d, WithLength(d, header, n, flags)) == Some(n)
  {
    if d.lsize == 2 {
      BytesOfLength(n, flags);
      var h := WithLength(d, header, n, flags);
      assert h[d.loff] == n % 256;
      assert h[d.loff + 1] == n / 256 + if d.kind == 0x05 then 64 * flags else 0;
    }
  }

  /** What is written is what is read: every payload whose length fits the field and the buffer arrives,
      as exactly that packet, whatever else is in the header. */
  lemma AnnouncedArrives(t: Table, i: nat, out: seq<Packet>, header: seq<byte>, payload: seq<byte>, flags: nat)
    requires i < |t| && t[i].lsize <= 2 && |header| == t[i].hlen && flags < 4
    requires |payload| < Reach(t[i]) && |header| + |payload| <= t[i].room
    ensures var h := WithLength(t[i], header, |payload|, flags);
            H4Fold(t, NoPacket(out), [t[i].kind] + h + payload) == NoPacket(out + [Packet(t[i].kind, h + payload)])
  {
    var h, p := WithLength(t[i], header, |payload|, flags), Packet(t[i].kind, []);
    LengthRead(t[i], header, |payload|, flags);
    p := p.(data := h + payload);
    assert p.data[..t[i].hlen] == h;
    DataLengthOfHeader(t[i], p.data);
    EntryOfKind(t, i);
    H4FoldPacket(t, out, p);
    assert [t[i].kind] + h + payload == Wire(p);
  }

  lemma EntryOfKind(t: Table, i: nat)
    requires i < |t|
    ensures Entry(t, t[i].kind) == i
  {}

  /** The packet is of this type, fits its buffer, and has its own length in its header. */
  predicate HasOwnLength(d: PktDef, p: Packet, flags: nat)
    requires ValidDef(d)
  {
    && d.kind == p.kind && d.lsize <= 2 && flags < 4
    && d.hlen <= |p.data| <= d.room && |p.data| - d.hlen < Reach(d)
    && p.data[..d.hlen] == WithLength(d, p.data[..d.hlen], |p.data| - d.hlen, flags)
  }

  /** Well-formed packets are those with their own length in their header. */
  lemma PacketMeans(t: Table, p: Packet)
    ensures PacketOk(t, p) <==> exists i, flags: nat :: 0 <= i < |t| && HasOwnLength(t[i], p, flags)
  {
    if PacketOk(t, p) {
      var i := Entry(t, p.kind);
      var flags := HeaderWritten(t[i], p.data);
      assert HasOwnLength(t[i], p, flags);
    }
    forall i, flags: nat | 0 <= i < |t| && HasOwnLength(t[i], p, flags) ensures PacketOk(t, p) {
      LengthRead(t[i], p.data[..t[i].hlen], |p.data| - t[i].hlen, flags);
      DataLengthOfHeader(t[i], p.data);
      EntryOfKind(t, i);
    }
  }

  // a length of two bytes, read and written again
  lemma BytesWritten(lo: byte, hi: byte)
    ensures Le16(lo, hi) % 256 == lo && Le16(lo, hi) / 256 == hi
    ensures hi == hi % 64 + 64 * (hi / 64) && hi / 64 < 4 && Le16(lo, hi % 64) < 0x4000
    ensures Le16(lo, hi % 64) % 256 == lo && Le16(lo, hi % 64) / 256 == hi % 64
  {}

  lemma HeaderWritten(d: PktDef, data: seq<byte>) returns (flags: nat)
    requires ValidDef(d) && d.hlen <= |data| && DataLength(d, data) == Some(|data| - d.hlen)
    ensures d.lsize <= 2 && |data| - d.hlen < Reach(d) && flags < 4
    ensures data[..d.hlen] == WithLength(d, data[..d.hlen], |data| - d.hlen, flags)
  {
    flags := if d.lsize == 2 then data[d.loff + 1] / 64 else 0;
    if d.lsize == 2 { BytesWritten(data[d.loff], data[d.loff + 1]); }
  }

  // ---- which errors come up, and when

  /** A byte that no packet type has is an illegal sequence. */
  lemma UnknownType(t: Table, out: seq<Packet>, b: byte)
    requires forall i :: 0 <= i < |t| ==> t[i].kind != b
    ensures H4Fold(t, NoPacket(out), [b]) == H4(None, out, Some(EILSEQ))
  {
    H4FoldOne(t, NoPacket(out), b);
  }

  // type byte and header, once the last byte of the header is in
  lemma AtHeader(t: Table, i: nat, out: seq<Packet>, header: seq<byte>)
    requires i < |t| && |header| == t[i].hlen
    ensures H4Fold(t, NoPacket(out), [t[i].kind] + header)
              == Grown(t, NoPacket(out), Skb(t[i].kind, header, |header|))
  {
    var h1 := InPacket(out, t[i].kind, [], |header|);
    EntryOfKind(t, i);
    H4FoldOne(t, NoPacket(out), t[i].kind);
    H4Bulk(t, h1, header);
    assert [] + header == header;
    H4FoldConcat(t, NoPacket(out), [t[i].kind], header);
  }

  /** A header that announces more than the buffer holds is a message too long, ... */
  lemma TooLong(t: Table, i: nat, out: seq<Packet>, header: seq<byte>, n: nat, flags: nat)
    requires i < |t| && t[i].lsize <= 2 && |header| == t[i].hlen && flags < 4
    requires n < Reach(t[i]) && |header| + n > t[i].room
    ensures H4Fold(t, NoPacket(out), [t[i].kind] + WithLength(t[i], header, n, flags))
              == H4(None, out, Some(EMSGSIZE))
  {
    EntryOfKind(t, i);
    LengthRead(t[i], header, n, flags);
    AtHeader(t, i, out, WithLength(t[i], header, n, flags));
  }

  /** ... and a length field of any other size an illegal sequence. */
  lemma UnsupportedLength(t: Table, i: nat, out: seq<Packet>, header: seq<byte>)
    requires i < |t| && t[i].lsize > 2 && |header| == t[i].hlen
    ensures H4Fold(t, NoPacket(out), [t[i].kind] + header) == H4(None, out, Some(EILSEQ))
  {
    EntryOfKind(t, i);
    AtHeader(t, i, out, header);
  }

  // ---- the header of a frame

  /** Between frames, four bytes start a payload run exactly if the first is the STP prefix and the twelve
      bits of length in the next two are at most 2048; otherwise the search for a header starts over. Either
      way the reassembler sees nothing of them. */
  lemma HeaderMeans(t: Table, r: Rx, b0: byte, hi: byte, lo: byte, cs: byte)
    requires BetweenFrames(r.stp) && r.h4.err.None?
    ensures var n := (256 * hi + lo) % 0x1000;
            var r' := Fold(t, r, [b0, hi, lo, cs]);
            && r'.h4 == r.h4
            && if b0 == 0x80 && n <= 2048 then r'.stp.cursor == 6 && r'.stp.dlen == n
               else r'.stp.cursor == 2 && r'.stp.dlen == 0
  {
    FoldHeader(t, r, [b0, hi, lo, cs]);
    var pad := Padded(r.stp.pad, 2, [b0, hi, lo, cs]);
    assert pad[2] == b0 && pad[3] == hi && pad[4] == lo;
  }

  /** A frame, or four bytes of noise that are no frame's header. */
  datatype Piece = Sent(frame: Frame) | Noise(b0: byte, hi: byte, lo: byte, cs: byte)

  ghost predicate PieceOk(p: Piece) {
    match p
    case Sent(f) => Framed(f)
    case Noise(b0, hi, lo, _) => b0 != 0x80 || (256 * hi + lo) % 0x1000 > 2048
  }

  function BytesOf(ps: seq<Piece>): seq<byte> {
    if ps == [] then []
    else
      (match ps[0] case Sent(f) => AddStp(f) case Noise(b0, hi, lo, cs) => [b0, hi, lo, cs]) + BytesOf(ps[1..])
  }

  function PayloadOf(ps: seq<Piece>): seq<byte> {
    if ps == [] then []
    else (match ps[0] case Sent(f) => f.payload case _ => []) + PayloadOf(ps[1..])
  }

  /** One piece, if what it carries is taken without an error. */
  lemma FoldPiece(t: Table, r: Rx, p: Piece)
    requires BetweenFrames(r.stp) && r.h4.err.None? && PieceOk(p)
    requires p.Sent? ==> H4Fold(t, r.h4, p.frame.payload).err.None?
    ensures var r' := Fold(t, r, match p case Sent(f) => AddStp(f) case Noise(b0, hi, lo, cs) => [b0, hi, lo, cs]);
            && BetweenFrames(r'.stp)
            && r'.h4 == if p.Sent? then H4Fold(t, r.h4, p.frame.payload) else r.h4
  {
    match p
    case Sent(f) => FoldFrame(t, r, f);
    case Noise(b0, hi, lo, cs) => HeaderMeans(t, r, b0, hi, lo, cs);
  }

  lemma {:induction false} FoldPieces(t: Table, r: Rx, ps: seq<Piece>)
    requires BetweenFrames(r.stp) && H4Fold(t, r.h4, PayloadOf(ps)).err.None? && r.h4.err.None?
    requires forall i :: 0 <= i < |ps| ==> PieceOk(ps[i])
    ensures var r' := Fold(t, r, BytesOf(ps)); BetweenFrames(r'.stp) && r'.h4 == H4Fold(t, r.h4, PayloadOf(ps))
    decreases |ps|
  {
    if ps != [] {
      var first: seq<byte> := match ps[0] case Sent(f) => f.payload case _ => [];
      var bytes: seq<byte> := match ps[0] case Sent(f) => AddStp(f) case Noise(b0, hi, lo, cs) => [b0, hi, lo, cs];
      H4FoldConcat(t, r.h4, first, PayloadOf(ps[1..]));
      if H4Fold(t, r.h4, first).err.Some? { H4ErrorStays(t, H4Fold(t, r.h4, first), PayloadOf(ps[1..])); }
      FoldPiece(t, r, ps[0]);
      FoldConcat(t, r, bytes, BytesOf(ps[1..]));
      FoldPieces(t, Fold(t, r, bytes), ps[1..]);
    }
  }

  /** The round trip, with any number of such quadruples before, between and behind the frames. */
  lemma RoundTripThroughNoise(t: Table, r: Rx, packets: seq<Packet>, ps: seq<Piece>, chunks: seq<seq<byte>>)
    requires BetweenFrames(r.stp) && r.h4.skb.None? && r.h4.err.None?
    requires AllOk(t, packets)
    requires forall i :: 0 <= i < |ps| ==> PieceOk(ps[i])
    requires PayloadOf(ps) == WireAll(packets) && Flatten(chunks) == BytesOf(ps)
    ensures ErrorFree(t, r, chunks)
    ensures var r' := RecvAll(t, r, chunks);
            BetweenFrames(r'.stp) && r'.h4 == NoPacket(r.h4.out + packets)
  {
    H4RoundTrip(t, r.h4.out, packets);
    FoldPieces(t, r, ps);
    RecvAllIsFold(t, r, chunks);
  }
}
