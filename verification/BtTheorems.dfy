/** What the receive path of btmtk_main.c guarantees about whole byte streams: how they are cut into
    calls does not matter, no payload byte is lost, and framed packets come out as they went in. */
module BtTheorems {
  import opened Options
  import opened Words
  import opened BtFraming
  import opened BtReceive

  // ---- independence from how the stream is cut into calls

  /** The effect of one btmtk_recv call (BtDevice.BtmtkRecv), and of several in a row. */
  function Recv(t: Table, r: Rx, chunk: seq<byte>): Rx { AfterCall(Fold(t, r, chunk)) }

  function RecvAll(t: Table, r: Rx, chunks: seq<seq<byte>>): Rx
    decreases |chunks|
  {
    if chunks == [] then r else RecvAll(t, Recv(t, r, chunks[0]), chunks[1..])
  }

  /** No call returns an error. */
  predicate ErrorFree(t: Table, r: Rx, chunks: seq<seq<byte>>)
    decreases |chunks|
  {
    chunks == [] || (Fold(t, r, chunks[0]).h4.err.None? && ErrorFree(t, Recv(t, r, chunks[0]), chunks[1..]))
  }

  function Flatten(chunks: seq<seq<byte>>): seq<byte> {
    if chunks == [] then [] else chunks[0] + Flatten(chunks[1..])
  }

  lemma {:induction false} RecvAllIsFold(t: Table, r: Rx, chunks: seq<seq<byte>>)
    requires r.h4.err.None?
    ensures ErrorFree(t, r, chunks) <==> Fold(t, r, Flatten(chunks)).h4.err.None?
    ensures ErrorFree(t, r, chunks) ==> RecvAll(t, r, chunks) == Fold(t, r, Flatten(chunks))
    decreases |chunks|
  {
    if chunks != [] {
      var r1 := Fold(t, r, chunks[0]);
      FoldConcat(t, r, chunks[0], Flatten(chunks[1..]));
      if r1.h4.err.Some? {
        ErrorStays(t, r1, Flatten(chunks[1..]));
      } else {
        assert Recv(t, r, chunks[0]) == r1;
        RecvAllIsFold(t, r1, chunks[1..]);
      }
    }
  }

  /** Two cuts of one stream: if no call of the one reports an error, none of the other does, and they
      deliver the same packets in the same order and leave the same state. */
  lemma ChunkIndependence(t: Table, r: Rx, cut: seq<seq<byte>>, other: seq<seq<byte>>)
    requires r.h4.err.None? && Flatten(cut) == Flatten(other)
    ensures ErrorFree(t, r, cut) <==> ErrorFree(t, r, other)
    ensures ErrorFree(t, r, cut) ==> RecvAll(t, r, cut) == RecvAll(t, r, other)
  {
    RecvAllIsFold(t, r, cut);
    RecvAllIsFold(t, r, other);
  }

  lemma {:induction false} OutGrows(t: Table, r: Rx, bytes: seq<byte>)
    ensures r.h4.out <= Fold(t, r, bytes).h4.out
    decreases |bytes|
  {
    if bytes != [] { OutGrows(t, r, bytes[..|bytes| - 1]); }
  }

  lemma {:induction false} RecvAllGrows(t: Table, r: Rx, chunks: seq<seq<byte>>)
    ensures r.h4.out <= RecvAll(t, r, chunks).h4.out
    decreases |chunks|
  {
    if chunks != [] {
      OutGrows(t, r, chunks[0]);
      RecvAllGrows(t, Recv(t, r, chunks[0]), chunks[1..]);
    }
  }

  /** Also of a stream with errors, every cut delivers what comes before the first one. */
  lemma {:induction false} DeliveredBeforeError(t: Table, r: Rx, chunks: seq<seq<byte>>)
    requires r.h4.err.None?
    ensures Fold(t, r, Flatten(chunks)).h4.out <= RecvAll(t, r, chunks).h4.out
    decreases |chunks|
  {
    if chunks != [] {
      var r1 := Fold(t, r, chunks[0]);
      FoldConcat(t, r, chunks[0], Flatten(chunks[1..]));
      if r1.h4.err.Some? {
        ErrorStays(t, r1, Flatten(chunks[1..]));
        RecvAllGrows(t, Recv(t, r, chunks[0]), chunks[1..]);
      } else {
        DeliveredBeforeError(t, r1, chunks[1..]);
      }
    }
  }

  // ---- reassembly: what is delivered, and that nothing is lost

  function Wire(p: Packet): seq<byte> { [p.kind] + p.data }

  function WireAll(ps: seq<Packet>): seq<byte> {
    if ps == [] then [] else WireAll(ps[..|ps| - 1]) + Wire(ps[|ps| - 1])
  }

  /** What the wire has carried of an unfinished packet. */
  function Partial(skb: Option<Skb>): seq<byte> {
    match skb
    case None => []
    case Some(s) => [s.kind] + s.data
  }

  function Carried(h: H4): seq<byte> { WireAll(h.out) + Partial(h.skb) }

  lemma WireAllAppend(ps: seq<Packet>, p: Packet)
    ensures WireAll(ps + [p]) == WireAll(ps) + Wire(p)
  {
    assert (ps + [p])[..|ps|] == ps;
  }

  lemma H4ByteConserves(t: Table, h: H4, b: byte)
    ensures var r := H4Byte(t, h, b);
            && |Carried(r)| <= |Carried(h)| + 1
            && (r.err.None? ==> Carried(r) == Carried(h) + [b])
  {
    var r := H4Byte(t, h, b);
    if h.err.None? && h.skb.Some? {
      var skb := h.skb.value.(data := h.skb.value.data + [b]);
      WireAllAppend(h.out, Packet(skb.kind, skb.data));
      assert WireAll(h.out) + ([skb.kind] + skb.data) == Carried(h) + [b];
    }
  }

  /** As long as there is no error, delivered packets and partial packet are exactly the bytes fed in. */
  lemma {:induction false} H4Conserves(t: Table, h: H4, bytes: seq<byte>)
    ensures var r := H4Fold(t, h, bytes);
            && |Carried(r)| <= |Carried(h)| + |bytes|
            && (r.err.None? ==> Carried(r) == Carried(h) + bytes)
    decreases |bytes|
  {
    if bytes == [] {
      assert Carried(h) + [] == Carried(h);
    } else {
      var most, last := bytes[..|bytes| - 1], bytes[|bytes| - 1];
      H4Conserves(t, h, most);
      H4ByteConserves(t, H4Fold(t, h, most), last);
      assert most + [last] == bytes;
      assert Carried(h) + most + [last] == Carried(h) + bytes;
    }
  }

  /** A known type, a complete header, as much data as it announces, within the buffer. */
  ghost predicate PacketOk(t: Table, p: Packet) {
    var i := Entry(t, p.kind);
    && i < |t|
    && t[i].hlen <= |p.data| <= t[i].room
    && DataLength(t[i], p.data) == Some(|p.data| - t[i].hlen)
  }

  ghost predicate AllOk(t: Table, ps: seq<Packet>) { forall i :: 0 <= i < |ps| ==> PacketOk(t, ps[i]) }

  lemma GrownDelivers(t: Table, h: H4, skb: Skb, b: byte)
    requires SkbOk(t, skb)
    ensures var more := skb.(data := skb.data + [b]);
            var r := Grown(t, h, more);
            || r.out == h.out
            || (r.out == h.out + [Packet(skb.kind, more.data)] && PacketOk(t, Packet(skb.kind, more.data)))
  {
    var i := Entry(t, skb.kind);
    if |skb.data| >= t[i].hlen { LengthStays(t[i], skb.data, [b]); }
  }

  lemma {:induction false} FoldDeliversOk(t: Table, r: Rx, bytes: seq<byte>)
    requires RxOk(t, r) && AllOk(t, r.h4.out)
    ensures RxOk(t, Fold(t, r, bytes)) && AllOk(t, Fold(t, r, bytes).h4.out)
    decreases |bytes|
  {
    FoldOk(t, r, bytes);
    if bytes != [] {
      var most, last := bytes[..|bytes| - 1], bytes[|bytes| - 1];
      FoldDeliversOk(t, r, most);
      var h := Fold(t, r, most).h4;
      if h.err.None? && h.skb.Some? { GrownDelivers(t, h, h.skb.value, last); }
    }
  }

  /** Whatever arrives, in whatever chunks: only well-formed packets are delivered, and between calls
      a partial packet lacks bytes and the deframer's state is sane. */
  lemma {:induction false} ReceiveInvariant(t: Table, r: Rx, chunks: seq<seq<byte>>)
    requires RxOk(t, r) && AllOk(t, r.h4.out) && r.h4.err.None?
    ensures var r' := RecvAll(t, r, chunks); RxOk(t, r') && AllOk(t, r'.h4.out) && r'.h4.err.None?
    decreases |chunks|
  {
    if chunks != [] {
      FoldDeliversOk(t, r, chunks[0]);
      ReceiveInvariant(t, Recv(t, r, chunks[0]), chunks[1..]);
    }
  }

  lemma DataLengthOfHeader(d: PktDef, data: seq<byte>)
    requires ValidDef(d) && d.hlen <= |data|
    ensures DataLength(d, data[..d.hlen]) == DataLength(d, data)
  {}

  // the reassembler in front of a packet, of this type, and with its header
  function NoPacket(out: seq<Packet>): H4 { H4(None, out, None) }

  function InPacket(out: seq<Packet>, kind: byte, data: seq<byte>, expected: nat): H4 {
    H4(Some(Skb(kind, data, expected)), out, None)
  }

  function AfterHeader(out: seq<Packet>, kind: byte, header: seq<byte>, n: nat): H4 {
    if n == 0 then NoPacket(out + [Packet(kind, header)]) else InPacket(out, kind, header, |header| + n)
  }

  lemma GrownHeader(t: Table, out: seq<Packet>, kind: byte, header: seq<byte>, n: nat)
    requires var i := Entry(t, kind);
             && i < |t| && |header| == t[i].hlen && n <= t[i].room - t[i].hlen
             && DataLength(t[i], header) == Some(n)
    ensures Grown(t, InPacket(out, kind, [], |header|), Skb(kind, header, |header|))
              == AfterHeader(out, kind, header, n)
  {}

  /** After type byte and header: delivered, or waiting for the payload the header announces. */
  lemma H4FoldHeader(t: Table, out: seq<Packet>, kind: byte, header: seq<byte>, n: nat)
    requires var i := Entry(t, kind);
             && i < |t| && |header| == t[i].hlen && n <= t[i].room - t[i].hlen
             && DataLength(t[i], header) == Some(n)
    ensures H4Fold(t, NoPacket(out), [kind] + header) == AfterHeader(out, kind, header, n)
  {
    var h1 := InPacket(out, kind, [], |header|);
    assert H4Fold(t, NoPacket(out), [kind]) == h1 by { H4FoldOne(t, NoPacket(out), kind); }
    assert H4Fold(t, h1, header) == AfterHeader(out, kind, header, n) by {
      H4Bulk(t, h1, header);
      assert [] + header == header;
      GrownHeader(t, out, kind, header, n);
    }
    H4FoldConcat(t, NoPacket(out), [kind], header);
  }

  lemma GrownRest(t: Table, i: nat, out: seq<Packet>, kind: byte, header: seq<byte>, rest: seq<byte>)
    requires i == Entry(t, kind) && i < |t| && |header| == t[i].hlen && rest != []
    ensures H4Fold(t, InPacket(out, kind, header, |header + rest|), rest)
              == NoPacket(out + [Packet(kind, header + rest)])
  {
    H4Bulk(t, InPacket(out, kind, header, |header + rest|), rest);
  }

  lemma H4FoldRest(t: Table, i: nat, out: seq<Packet>, kind: byte, header: seq<byte>, rest: seq<byte>)
    requires i == Entry(t, kind) && i < |t| && |header| == t[i].hlen
    ensures H4Fold(t, AfterHeader(out, kind, header, |rest|), rest) == NoPacket(out + [Packet(kind, header + rest)])
  {
    if rest == [] {
      assert header + rest == header;
    } else {
      GrownRest(t, i, out, kind, header, rest);
    }
  }

  lemma H4FoldChain(t: Table, h0: H4, a: seq<byte>, h1: H4, b: seq<byte>, h2: H4)
    requires H4Fold(t, h0, a) == h1 && H4Fold(t, h1, b) == h2
    ensures H4Fold(t, h0, a + b) == h2
  {
    H4FoldConcat(t, h0, a, b);
  }

  lemma H4FoldPacket(t: Table, out: seq<Packet>, p: Packet)
    requires PacketOk(t, p)
    ensures H4Fold(t, NoPacket(out), Wire(p)) == NoPacket(out + [p])
  {
    var d := t[Entry(t, p.kind)];
    var header, rest := p.data[..d.hlen], p.data[d.hlen..];
    assert header + rest == p.data && [p.kind] + header + rest == Wire(p);
    var h1, h2 := AfterHeader(out, p.kind, header, |rest|), NoPacket(out + [p]);
    assert H4Fold(t, NoPacket(out), [p.kind] + header) == h1 by {
      DataLengthOfHeader(d, p.data);
      H4FoldHeader(t, out, p.kind, header, |rest|);
    }
    assert H4Fold(t, h1, rest) == h2 by { H4FoldRest(t, Entry(t, p.kind), out, p.kind, header, rest); }
    H4FoldChain(t, NoPacket(out), [p.kind] + header, h1, rest, h2);
  }

  lemma H4Append(t: Table, out: seq<Packet>, ps: seq<Packet>, p: Packet)
    requires H4Fold(t, NoPacket(out), WireAll(ps)) == NoPacket(out + ps) && PacketOk(t, p)
    ensures H4Fold(t, NoPacket(out), WireAll(ps + [p])) == NoPacket(out + (ps + [p]))
  {
    WireAllAppend(ps, p);
    H4FoldPacket(t, out + ps, p);
    H4FoldChain(t, NoPacket(out), WireAll(ps), NoPacket(out + ps), Wire(p), NoPacket(out + ps + [p]));
    assert out + ps + [p] == out + (ps + [p]);
  }

  lemma H4LastPacket(t: Table, out: seq<Packet>, ps: seq<Packet>)
    requires ps != [] && PacketOk(t, ps[|ps| - 1])
    requires H4Fold(t, NoPacket(out), WireAll(ps[..|ps| - 1])) == NoPacket(out + ps[..|ps| - 1])
    ensures H4Fold(t, NoPacket(out), WireAll(ps)) == NoPacket(out + ps)
  {
    assert ps[..|ps| - 1] + [ps[|ps| - 1]] == ps;
    H4Append(t, out, ps[..|ps| - 1], ps[|ps| - 1]);
  }

  /** Serialised packets back to back are reassembled into exactly those packets. */
  lemma {:induction false} H4RoundTrip(t: Table, out: seq<Packet>, ps: seq<Packet>)
    requires AllOk(t, ps)
    ensures H4Fold(t, NoPacket(out), WireAll(ps)) == NoPacket(out + ps)
    decreases |ps|
  {
    if ps == [] {
      assert out + ps == out;
    } else {
      H4RoundTrip(t, out, ps[..|ps| - 1]);
      H4LastPacket(t, out, ps);
    }
  }

  // ---- the deframer against mtk_add_stp

  datatype Frame = Frame(payload: seq<byte>, trailer: seq<byte>)

  /** mtk_add_stp: four header bytes in front, two trailer bytes of unspecified content behind. */
  function AddStp(f: Frame): seq<byte> {
    var n := |f.payload| % 0x1000;
    [MTK_STP_PREFIX, n / 256, n % 256, 0] + f.payload + f.trailer
  }

  function AddStpAll(fs: seq<Frame>): seq<byte> {
    if fs == [] then [] else AddStp(fs[0]) + AddStpAll(fs[1..])
  }

  function Payloads(fs: seq<Frame>): seq<byte> {
    if fs == [] then [] else fs[0].payload + Payloads(fs[1..])
  }

  ghost predicate Framed(f: Frame) { |f.payload| <= STP_MAX_DLEN && |f.trailer| == 2 }

  /** Between frames: the trailer is in, the next header is not. */
  predicate BetweenFrames(s: Stp) { s.cursor == 2 && s.dlen == 0 }

  lemma FoldHeaderBytes(t: Table, r: Rx, hi: byte, lo: byte)
    requires BetweenFrames(r.stp) && r.h4.err.None?
    ensures var n := Le16(lo, hi) % 0x1000;
            var r' := Fold(t, r, [MTK_STP_PREFIX, hi, lo, 0]);
            && r'.h4 == r.h4
            && if n <= STP_MAX_DLEN then r'.stp.cursor == 6 && r'.stp.dlen == n else BetweenFrames(r'.stp)
  {
    FoldHeader(t, r, [MTK_STP_PREFIX, hi, lo, 0]);
    var pad := Padded(r.stp.pad, 2, [MTK_STP_PREFIX, hi, lo, 0]);
    assert pad[2] == MTK_STP_PREFIX && pad[3] == hi && pad[4] == lo;
  }

  lemma SentLength(n: nat)
    requires n < 0x1000
    ensures n / 256 < 256 && Le16(n % 256, n / 256) % 0x1000 == n
  {}

  lemma FoldFrameHeader(t: Table, r: Rx, f: Frame)
    requires BetweenFrames(r.stp) && r.h4.err.None?
    ensures var n := |f.payload| % 0x1000;
            var r' := Fold(t, r, [MTK_STP_PREFIX, n / 256, n % 256, 0]);
            && r'.h4 == r.h4
            && if n <= STP_MAX_DLEN then r'.stp.cursor == 6 && r'.stp.dlen == n else BetweenFrames(r'.stp)
  {
    var n := |f.payload| % 0x1000;
    FoldHeaderBytes(t, r, n / 256, n % 256);
    SentLength(n);
  }

  /** After a payload the cursor starts over at 0, so the two trailer bytes lead to the next header. */
  lemma FoldTrailer(t: Table, r: Rx, trailer: seq<byte>)
    requires r.stp.cursor == 6 && r.stp.dlen == 0 && r.h4.err.None? && |trailer| == 2
    ensures var r' := Fold(t, r, trailer); BetweenFrames(r'.stp) && r'.h4 == r.h4
  {
    FoldRestarts(t, r, trailer);
    FoldHeader(t, r.(stp := r.stp.(cursor := 0)), trailer);
  }

  lemma FoldThree(t: Table, r: Rx, a: seq<byte>, b: seq<byte>, c: seq<byte>)
    ensures Fold(t, r, a + b + c) == Fold(t, Fold(t, Fold(t, r, a), b), c)
  {
    FoldConcat(t, r, a, b);
    FoldConcat(t, r, a + b, c);
  }

  lemma FoldBody(t: Table, r: Rx, f: Frame)
    requires r.stp.cursor == 6 && r.stp.dlen == |f.payload| && |f.trailer| == 2
    requires H4Fold(t, r.h4, f.payload).err.None?
    ensures var r' := Fold(t, Fold(t, r, f.payload), f.trailer);
            BetweenFrames(r'.stp) && r'.h4 == H4Fold(t, r.h4, f.payload)
  {
    FoldPayload(t, r, f.payload);
    FoldTrailer(t, Fold(t, r, f.payload), f.trailer);
  }

  lemma FoldFrame(t: Table, r: Rx, f: Frame)
    requires BetweenFrames(r.stp) && Framed(f) && H4Fold(t, r.h4, f.payload).err.None?
    ensures var r' := Fold(t, r, AddStp(f)); BetweenFrames(r'.stp) && r'.h4 == H4Fold(t, r.h4, f.payload)
  {
    var n := |f.payload| % 0x1000;
    var header := [MTK_STP_PREFIX, n / 256, n % 256, 0];
    if r.h4.err.Some? { H4ErrorStays(t, r.h4, f.payload); }
    FoldFrameHeader(t, r, f);
    FoldBody(t, Fold(t, r, header), f);
    FoldThree(t, r, header, f.payload, f.trailer);
  }

  lemma {:induction false} FoldFrames(t: Table, r: Rx, fs: seq<Frame>)
    requires BetweenFrames(r.stp) && H4Fold(t, r.h4, Payloads(fs)).err.None?
    requires forall i :: 0 <= i < |fs| ==> Framed(fs[i])
    ensures var r' := Fold(t, r, AddStpAll(fs)); BetweenFrames(r'.stp) && r'.h4 == H4Fold(t, r.h4, Payloads(fs))
    decreases |fs|
  {
    if fs != [] {
      var h1 := H4Fold(t, r.h4, fs[0].payload);
      H4FoldConcat(t, r.h4, fs[0].payload, Payloads(fs[1..]));
      if h1.err.Some? { H4ErrorStays(t, h1, Payloads(fs[1..])); }
      FoldFrame(t, r, fs[0]);
      FoldConcat(t, r, AddStp(fs[0]), AddStpAll(fs[1..]));
      FoldFrames(t, Fold(t, r, AddStp(fs[0])), fs[1..]);
    }
  }

  /** Any packets, split over STP frames in any way and cut into btmtk_recv calls in any way, arrive
      exactly, with no error, and leave the receiver as before. */
  lemma RoundTrip(t: Table, r: Rx, ps: seq<Packet>, fs: seq<Frame>, chunks: seq<seq<byte>>)
    requires BetweenFrames(r.stp) && r.h4.skb.None? && r.h4.err.None?
    requires AllOk(t, ps)
    requires forall i :: 0 <= i < |fs| ==> Framed(fs[i])
    requires Payloads(fs) == WireAll(ps) && Flatten(chunks) == AddStpAll(fs)
    ensures ErrorFree(t, r, chunks)
    ensures var r' := RecvAll(t, r, chunks);
            BetweenFrames(r'.stp) && r'.h4 == NoPacket(r.h4.out + ps)
  {
    H4RoundTrip(t, r.h4.out, ps);
    FoldFrames(t, r, fs);
    RecvAllIsFold(t, r, chunks);
  }

  // ---- frames longer than the deframer accepts

  /** Bytes that go into the pad add nothing to what the reassembler has carried. */
  lemma {:induction false} FoldCarries(t: Table, r: Rx, bytes: seq<byte>)
    ensures |Carried(Fold(t, r, bytes).h4)| <= |Carried(r.h4)| + |bytes|
    decreases |bytes|
  {
    if bytes != [] {
      var most, last := bytes[..|bytes| - 1], bytes[|bytes| - 1];
      FoldCarries(t, r, most);
      H4ByteConserves(t, Fold(t, r, most).h4, last);
    }
  }

  lemma PadCarriesNothing(t: Table, r: Rx, bytes: seq<byte>)
    requires r.stp.dlen == 0
    requires (r.stp.cursor == 6 && |bytes| == 6) || (r.stp.cursor == 2 && |bytes| == 4)
    ensures Fold(t, r, bytes).h4 == r.h4
  {
    if r.h4.err.Some? {
      ErrorStays(t, r, bytes);
    } else if r.stp.cursor == 6 {
      FoldRestarts(t, r, bytes);
      FoldHeader(t, r.(stp := r.stp.(cursor := 0)), bytes);
    } else {
      FoldHeader(t, r, bytes);
    }
  }

  /** Of `head + run + pad + rest` only run and rest can be payload. */
  lemma CarriedOfFrame(t: Table, r: Rx, head: seq<byte>, run: seq<byte>, pad: seq<byte>, rest: seq<byte>)
    requires var r1 := Fold(t, r, head);
             && r1.h4 == r.h4 && r1.stp.dlen == |run|
             && ((r1.stp.cursor == 6 && |pad| == 6) || (r1.stp.cursor == 2 && |pad| == 4))
    ensures |Carried(Fold(t, r, head + run + pad + rest).h4)| <= |Carried(r.h4)| + |run| + |rest|
  {
    var r1 := Fold(t, r, head);
    FoldConcat(t, r, head, run);
    FoldConcat(t, r, head + run, pad);
    FoldConcat(t, r, head + run + pad, rest);
    FoldPayload(t, r1, run);
    FoldCarries(t, r1, run);
    PadCarriesNothing(t, Fold(t, r1, run), pad);
    FoldCarries(t, Fold(t, r, head + run + pad), rest);
  }

  lemma Cut(s: seq<byte>, i: nat, j: nat)
    requires i <= j <= |s|
    ensures s == s[..i] + s[i..j] + s[j..]
  {}

  lemma FrameParts(f: Frame, i: nat, j: nat)
    requires i <= j <= |f.payload|
    ensures var n := |f.payload| % 0x1000;
            var body := f.payload + f.trailer;
            AddStp(f) == [MTK_STP_PREFIX, n / 256, n % 256, 0] + body[..i] + body[i..j] + body[j..]
  {
    var body: seq<byte> := f.payload + f.trailer;
    Cut(body, i, j);
  }

  lemma LongFrameFails(t: Table, r: Rx, f: Frame)
    requires BetweenFrames(r.stp) && r.h4.err.None? && |f.payload| > STP_MAX_DLEN && |f.trailer| == 2
    ensures |Carried(Fold(t, r, AddStp(f)).h4)| < |Carried(r.h4)| + |f.payload|
  {
    var n := |f.payload| % 0x1000;
    FoldFrameHeader(t, r, f);
    var body: seq<byte> := f.payload + f.trailer;
    var i := if n <= STP_MAX_DLEN then n else 0;
    var j := if n <= STP_MAX_DLEN then n + 6 else 4;
    FrameParts(f, i, j);
    CarriedOfFrame(t, r, [MTK_STP_PREFIX, n / 256, n % 256, 0], body[..i], body[i..j], body[j..]);
  }

  /** mtk_add_stp does not look at the length. A packet sent in one frame arrives exactly when the
      frame's payload is at most 2048 bytes. */
  lemma OneFrameArrives(t: Table, r: Rx, p: Packet, trailer: seq<byte>)
    requires BetweenFrames(r.stp) && r.h4.skb.None? && r.h4.err.None? && PacketOk(t, p) && |trailer| == 2
    ensures Fold(t, r, AddStp(Frame(Wire(p), trailer))).h4.out == r.h4.out + [p] <==> |Wire(p)| <= STP_MAX_DLEN
  {
    var f := Frame(Wire(p), trailer);
    if |Wire(p)| <= STP_MAX_DLEN {
      H4FoldPacket(t, r.h4.out, p);
      FoldFrame(t, r, f);
    } else {
      LongFrameFails(t, r, f);
      WireAllAppend(r.h4.out, p);
    }
  }

  /** The longer packets need a table with larger buffers than the source's: where no buffer holds more
      than 2047 bytes, every packet fits one frame. */
  lemma SmallTablesFit(t: Table, p: Packet)
    requires PacketOk(t, p) && forall i :: 0 <= i < |t| ==> t[i].room < STP_MAX_DLEN
    ensures |Wire(p)| <= STP_MAX_DLEN
  {
    assert t[Entry(t, p.kind)].room < STP_MAX_DLEN;
  }
}
