/** The Bluetooth receive path of btmtk_main.c as two automata that take one byte at a time: the STP
    deframer (mtk_stp_split) and the H:4 reassembler (h4_recv_buf) it feeds. BtReceive proves that the
    chunk-wise code computes their fold. */
module BtFraming {
  import opened Options
  import opened Words

  // the error codes h4_recv_buf returns
  datatype Error = EILSEQ | EMSGSIZE

  /** struct h4_recv_pkt; room is what the allocated buffer holds, at least maxlen. */
  datatype PktDef = PktDef(kind: byte, hlen: nat, loff: nat, lsize: nat, room: nat)

  /** The H:4 indicator of isochronous data, whose length field has 14 bits. */
  const HCI_ISODATA_PKT: byte := 0x05

  predicate ValidDef(d: PktDef) {
    && 0 < d.hlen <= d.room <= 0xFFFF
    && (d.lsize == 1 || d.lsize == 2 ==> d.loff + d.lsize <= d.hlen)
  }

  ghost predicate ValidTable(t: seq<PktDef>) {
    && (forall i :: 0 <= i < |t| ==> ValidDef(t[i]))
    && (forall i, j :: 0 <= i < j < |t| ==> t[i].kind != t[j].kind)
  }

  /** A packet table as the code's is: distinct types, and every length field inside its header. */
  type Table = t: seq<PktDef> | ValidTable(t) ghost witness []

  /** The first entry for this packet type from i on, or |t|. */
  function EntryFrom(t: seq<PktDef>, kind: byte, i: nat): (e: nat)
    requires i <= |t|
    ensures i <= e <= |t|
    ensures e < |t| ==> t[e].kind == kind
    ensures forall j :: i <= j < e ==> t[j].kind != kind
    decreases |t| - i
  {
    if i == |t| || t[i].kind == kind then i else EntryFrom(t, kind, i + 1)
  }

  function Entry(t: seq<PktDef>, kind: byte): nat { EntryFrom(t, kind, 0) }

  datatype Skb = Skb(kind: byte, data: seq<byte>, expected: nat)

  /** What a recv callback is handed: type, header and payload. */
  datatype Packet = Packet(kind: byte, data: seq<byte>)

  /** The reassembler: its partial packet, what it has delivered, and the error that stopped it. */
  datatype H4 = H4(skb: Option<Skb>, out: seq<Packet>, err: Option<Error>)

  /** The payload length a complete header announces; None for an unsupported length field. */
  function DataLength(d: PktDef, header: seq<byte>): Option<nat>
    requires ValidDef(d) && d.hlen <= |header|
  {
    if d.lsize == 0 then Some(0)
    else if d.lsize == 1 then Some(header[d.loff] as nat)
    else if d.lsize == 2 then
      var hi := header[d.loff + 1];
      Some(Le16(header[d.loff], if d.kind == HCI_ISODATA_PKT then hi % 0x40 else hi))
    else None
  }

  function Failed(h: H4, e: Error): H4 { H4(None, h.out, Some(e)) }

  function Delivered(h: H4, skb: Skb): H4 { H4(None, h.out + [Packet(skb.kind, skb.data)], None) }

  /** What follows each copy into the packet: partial, header complete, or packet complete. */
  function Grown(t: Table, h: H4, skb: Skb): H4
  {
    if |skb.data| < skb.expected then H4(Some(skb), h.out, None)
    else
      var i := Entry(t, skb.kind);
      if i == |t| then Failed(h, EILSEQ)
      else if |skb.data| == t[i].hlen then
        match DataLength(t[i], skb.data)
        case None => Failed(h, EILSEQ)
        case Some(n) =>
          if t[i].room - |skb.data| < n then Failed(h, EMSGSIZE)
          else if n == 0 then Delivered(h, skb)
          else H4(Some(skb.(expected := (skb.expected + n) % 0x1_0000)), h.out, None)
      else Delivered(h, skb)
  }

  /** One byte of H:4 data; an error is final until the end of the call. */
  function H4Byte(t: Table, h: H4, b: byte): H4
  {
    if h.err.Some? then h
    else match h.skb
      case None =>
        var i := Entry(t, b);
        if i == |t| then Failed(h, EILSEQ) else H4(Some(Skb(b, [], t[i].hlen)), h.out, None)
      case Some(skb) => Grown(t, h, skb.(data := skb.data + [b]))
  }

  function H4Fold(t: Table, h: H4, bytes: seq<byte>): H4
    decreases |bytes|
  {
    if bytes == [] then h
    else H4Byte(t, H4Fold(t, h, bytes[..|bytes| - 1]), bytes[|bytes| - 1])
  }

  // ---- STP

  const MTK_STP_PREFIX: byte := 0x80

  const STP_MAX_DLEN := 2048

  type Pad = pad: seq<byte> | |pad| == 6 witness [0, 0, 0, 0, 0, 0]

  /** stp_pad, stp_cursor and stp_dlen; pad[0..2] takes the trailer of the frame before. */
  datatype Stp = Stp(pad: Pad, cursor: nat, dlen: nat)

  ghost predicate StpOk(s: Stp) {
    s.cursor <= 6 && s.dlen <= STP_MAX_DLEN && (s.dlen > 0 ==> s.cursor == 6)
  }

  function HeaderLength(pad: Pad): nat
  {
    Le16(pad[4], pad[3]) % 0x1000   // sent most significant byte first
  }

  predicate HeaderSane(pad: Pad)
  {
    pad[2] == MTK_STP_PREFIX && HeaderLength(pad) <= STP_MAX_DLEN
  }

  /** A complete pad: either a payload follows, or the search for a header starts over. */
  function Parsed(pad: Pad): Stp
  {
    if HeaderSane(pad) then Stp(pad, 6, HeaderLength(pad)) else Stp(pad, 2, 0)
  }

  function StpHeaderByte(s: Stp, b: byte): (r: Stp)
  {
    var c := if s.cursor >= 6 then 0 else s.cursor;
    var pad := s.pad[c := b];
    if c + 1 < 6 then Stp(pad, c + 1, 0) else Parsed(pad)
  }

  // ---- the two together

  datatype Rx = Rx(stp: Stp, h4: H4)

  /** One byte off the wire. Once the reassembler has failed, the deframer only runs to the end of
      the payload it was in: that is all the code does with the rest of the chunk. */
  function RxByte(t: Table, r: Rx, b: byte): (r': Rx)
  {
    if r.stp.dlen > 0 then Rx(r.stp.(dlen := r.stp.dlen - 1), H4Byte(t, r.h4, b))
    else if r.h4.err.Some? then r
    else Rx(StpHeaderByte(r.stp, b), r.h4)
  }

  function Fold(t: Table, r: Rx, bytes: seq<byte>): (r': Rx)
    decreases |bytes|
  {
    if bytes == [] then r
    else RxByte(t, Fold(t, r, bytes[..|bytes| - 1]), bytes[|bytes| - 1])
  }

  lemma {:induction false} H4FoldConcat(t: Table, h: H4, a: seq<byte>, b: seq<byte>)
    ensures H4Fold(t, h, a + b) == H4Fold(t, H4Fold(t, h, a), b)
    decreases |b|
  {
    if b == [] {
      assert a + b == a;
    } else {
      var b' := b[..|b| - 1];
      assert (a + b)[..|a + b| - 1] == a + b';
      H4FoldConcat(t, h, a, b');
    }
  }

  lemma {:induction false} FoldConcat(t: Table, r: Rx, a: seq<byte>, b: seq<byte>)
    ensures Fold(t, r, a + b) == Fold(t, Fold(t, r, a), b)
    decreases |b|
  {
    if b == [] {
      assert a + b == a;
    } else {
      var b' := b[..|b| - 1];
      assert (a + b)[..|a + b| - 1] == a + b';
      FoldConcat(t, r, a, b');
    }
  }

  // ---- invariants of the automata

  /** A partial packet lacks at least one byte; past its header it expects what the header announces. */
  ghost predicate SkbOk(t: Table, skb: Skb)
  {
    var i := Entry(t, skb.kind);
    && i < |t|
    && |skb.data| < skb.expected <= t[i].room
    && (if |skb.data| < t[i].hlen then skb.expected == t[i].hlen
        else DataLength(t[i], skb.data) == Some(skb.expected - t[i].hlen))
  }

  ghost predicate H4Ok(t: Table, h: H4)
  {
    (h.skb.Some? ==> SkbOk(t, h.skb.value)) && (h.err.Some? ==> h.skb.None?)
  }

  ghost predicate RxOk(t: Table, r: Rx)
  {
    StpOk(r.stp) && H4Ok(t, r.h4)
  }

  lemma LengthStays(d: PktDef, header: seq<byte>, more: seq<byte>)
    requires ValidDef(d) && d.hlen <= |header|
    ensures DataLength(d, header + more) == DataLength(d, header)
  {}

  lemma GrownOk(t: Table, h: H4, skb: Skb, b: byte)
    requires SkbOk(t, skb)
    ensures H4Ok(t, Grown(t, h, skb.(data := skb.data + [b])))
  {
    var i := Entry(t, skb.kind);
    if |skb.data| >= t[i].hlen { LengthStays(t[i], skb.data, [b]); }
  }

  lemma H4ByteOk(t: Table, h: H4, b: byte)
    requires H4Ok(t, h)
    ensures H4Ok(t, H4Byte(t, h, b))
  {
    if h.err.None? && h.skb.Some? { GrownOk(t, h, h.skb.value, b); }
  }

  /** Between any two bytes: |partial| < expected, dlen <= 2048, and dlen > 0 only with a full pad. */
  lemma {:induction false} FoldOk(t: Table, r: Rx, bytes: seq<byte>)
    requires RxOk(t, r)
    ensures RxOk(t, Fold(t, r, bytes))
    decreases |bytes|
  {
    if bytes != [] {
      FoldOk(t, r, bytes[..|bytes| - 1]);
      H4ByteOk(t, Fold(t, r, bytes[..|bytes| - 1]).h4, bytes[|bytes| - 1]);
    }
  }

  lemma {:induction false} H4FoldOk(t: Table, h: H4, bytes: seq<byte>)
    requires H4Ok(t, h)
    ensures H4Ok(t, H4Fold(t, h, bytes))
    decreases |bytes|
  {
    if bytes != [] {
      H4FoldOk(t, h, bytes[..|bytes| - 1]);
      H4ByteOk(t, H4Fold(t, h, bytes[..|bytes| - 1]), bytes[|bytes| - 1]);
    }
  }

  // ---- what the chunk-wise code relies on

  /** Copying k bytes at once, up to what the packet expects, is k single bytes. */
  lemma {:induction false} H4Bulk(t: Table, h: H4, bytes: seq<byte>)
    requires h.err.None? && h.skb.Some?
    requires 0 < |bytes| && |h.skb.value.data| + |bytes| <= h.skb.value.expected
    ensures H4Fold(t, h, bytes) == Grown(t, h, h.skb.value.(data := h.skb.value.data + bytes))
    decreases |bytes|
  {
    var most, last := bytes[..|bytes| - 1], bytes[|bytes| - 1];
    var skb := h.skb.value;
    if |bytes| > 1 {
      H4Bulk(t, h, most);
      assert skb.data + most + [last] == skb.data + bytes;
    } else {
      assert most == [] && skb.data + [last] == skb.data + bytes;
    }
  }

  lemma {:induction false} H4ErrorStays(t: Table, h: H4, bytes: seq<byte>)
    requires h.err.Some?
    ensures H4Fold(t, h, bytes) == h
    decreases |bytes|
  {
    if bytes != [] { H4ErrorStays(t, h, bytes[..|bytes| - 1]); }
  }

  /** Within a payload the deframer just hands bytes on. */
  lemma {:induction false} FoldPayload(t: Table, r: Rx, bytes: seq<byte>)
    requires |bytes| <= r.stp.dlen
    ensures Fold(t, r, bytes) == Rx(r.stp.(dlen := r.stp.dlen - |bytes|), H4Fold(t, r.h4, bytes))
    decreases |bytes|
  {
    if bytes != [] { FoldPayload(t, r, bytes[..|bytes| - 1]); }
  }

  /** After an error and the end of the payload it occurred in, the rest of the chunk has no effect. */
  lemma {:induction false} FoldStopped(t: Table, r: Rx, bytes: seq<byte>)
    requires r.h4.err.Some? && r.stp.dlen == 0
    ensures Fold(t, r, bytes) == r
    decreases |bytes|
  {
    if bytes != [] { FoldStopped(t, r, bytes[..|bytes| - 1]); }
  }

  lemma {:induction false} ErrorStays(t: Table, r: Rx, bytes: seq<byte>)
    requires r.h4.err.Some?
    ensures Fold(t, r, bytes).h4 == r.h4
    decreases |bytes|
  {
    if bytes != [] { ErrorStays(t, r, bytes[..|bytes| - 1]); }
  }
}
