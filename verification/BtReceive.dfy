/** h4_recv_buf, mtk_stp_split and btmtk_recv of btmtk_main.c, chunk by chunk, proved to compute the
    byte-wise fold of BtFraming. */
module BtReceive {
  import opened Options
  import opened Words
  import opened BtFraming

  // what btmtk_recv returns
  function Code(err: Option<Error>): int {
    match err
    case None => 0
    case Some(EILSEQ) => -84
    case Some(EMSGSIZE) => -90
  }

  /** The state a call leaves: an error is reported by its code and not kept. */
  function AfterCall(r: Rx): Rx { r.(h4 := r.h4.(err := None)) }

  lemma H4FoldOne(t: Table, h: H4, b: byte)
    ensures H4Fold(t, h, [b]) == H4Byte(t, h, b)
  {
    assert [b][..0] == [];
  }

  /** From a to c is from a to b and on to c. */
  lemma H4Through(t: Table, h: H4, data: seq<byte>, a: nat, b: nat, c: nat)
    requires a <= b <= c <= |data|
    ensures H4Fold(t, h, data[a..c]) == H4Fold(t, H4Fold(t, h, data[a..b]), data[b..c])
  {
    assert data[a..b] + data[b..c] == data[a..c];
    H4FoldConcat(t, h, data[a..b], data[b..c]);
  }

  lemma H4Stopped(t: Table, h: H4, data: seq<byte>, a: nat, b: nat, c: nat)
    requires a <= b <= c <= |data| && H4Fold(t, h, data[a..b]).err.Some?
    ensures H4Fold(t, h, data[a..c]) == H4Fold(t, h, data[a..b])
  {
    H4Through(t, h, data, a, b, c);
    H4ErrorStays(t, H4Fold(t, h, data[a..b]), data[b..c]);
  }

  lemma FoldThrough(t: Table, r: Rx, data: seq<byte>, b: nat, c: nat)
    requires b <= c <= |data|
    ensures Fold(t, r, data[..c]) == Fold(t, Fold(t, r, data[..b]), data[b..c])
  {
    assert data[..b] + data[b..c] == data[..c];
    FoldConcat(t, r, data[..b], data[b..c]);
  }

  /** Deframing up to b, with the payload run up to c already counted off in r1, and reassembling
      that run is folding all bytes up to c. */
  lemma RunAfterSplit(t: Table, r0: Rx, data: seq<byte>, a: nat, b: nat, c: nat, r1: Rx, h: H4)
    requires a <= b <= c <= |data|
    requires var r := Fold(t, r0, data[a..b]);
             c - b <= r.stp.dlen && r1 == r.(stp := r.stp.(dlen := r.stp.dlen - (c - b)))
    requires h == H4Fold(t, r1.h4, data[b..c])
    ensures Fold(t, r0, data[a..c]) == Rx(r1.stp, h)
  {
    FoldPayload(t, Fold(t, r0, data[a..b]), data[b..c]);
    FoldConcat(t, r0, data[a..b], data[b..c]);
    assert data[a..b] + data[b..c] == data[a..c];
  }

  // the pad after these bytes have been stored from position c on
  function Padded(pad: Pad, c: nat, bytes: seq<byte>): (r: Pad)
    requires c + |bytes| <= |pad|
    ensures bytes == [] ==> r == pad
  {
    pad[..c] + bytes + pad[c + |bytes|..]
  }

  lemma PadGrows(pad: Pad, c: nat, bytes: seq<byte>, b: byte)
    requires c + |bytes| < |pad|
    ensures Padded(pad, c, bytes)[c + |bytes| := b] == Padded(pad, c, bytes + [b])
  {}

  lemma PadGrowsBy(pad: Pad, c: nat, data: seq<byte>, pos: nat, used: nat)
    requires c + used < |pad| && pos + used < |data|
    ensures Padded(pad, c, data[pos..pos + used])[c + used := data[pos + used]]
              == Padded(pad, c, data[pos..pos + used + 1])
  {
    assert data[pos..pos + used] + [data[pos + used]] == data[pos..pos + used + 1];
    PadGrows(pad, c, data[pos..pos + used], data[pos + used]);
  }

  /** Bytes that go into the pad. */
  lemma {:induction false} FoldHeader(t: Table, r: Rx, bytes: seq<byte>)
    requires r.stp.dlen == 0 && r.h4.err.None?
    requires r.stp.cursor < 6 && r.stp.cursor + |bytes| <= 6
    ensures var c := r.stp.cursor + |bytes|;
            var pad := Padded(r.stp.pad, r.stp.cursor, bytes);
            Fold(t, r, bytes) == Rx(if c < 6 then Stp(pad, c, 0) else Parsed(pad), r.h4)
    decreases |bytes|
  {
    if bytes != [] {
      var most, last := bytes[..|bytes| - 1], bytes[|bytes| - 1];
      FoldHeader(t, r, most);
      PadGrows(r.stp.pad, r.stp.cursor, most, last);
      assert most + [last] == bytes;
    }
  }

  /** A consumed frame is followed by its trailer: the cursor starts over at 0. */
  lemma {:induction false} FoldRestarts(t: Table, r: Rx, bytes: seq<byte>)
    requires StpOk(r.stp) && r.stp.dlen == 0 && r.stp.cursor == 6 && r.h4.err.None? && bytes != []
    ensures Fold(t, r, bytes) == Fold(t, r.(stp := r.stp.(cursor := 0)), bytes)
    decreases |bytes|
  {
    var r0 := r.(stp := r.stp.(cursor := 0));
    if |bytes| > 1 {
      FoldRestarts(t, r, bytes[..|bytes| - 1]);
    } else {
      assert bytes[..0] == [];
      assert Fold(t, r, bytes) == RxByte(t, r, bytes[0]);
      assert Fold(t, r0, bytes) == RxByte(t, r0, bytes[0]);
    }
  }

  /** The part of struct btmtk_dev that receiving uses; `received` is what the recv callbacks got. */
  class BtDevice {
    const pkts: Table
    var rxSkb: Option<Skb>
    const stpPad: array<byte>
    var stpCursor: nat
    var stpDlen: nat
    var received: seq<Packet>

    ghost predicate Valid()
      reads this, stpPad
    {
      stpPad.Length == 6 && RxOk(pkts, View())
    }

    ghost function StpView(): Stp
      requires stpPad.Length == 6
      reads this`stpCursor, this`stpDlen, stpPad
    {
      Stp(stpPad[..], stpCursor, stpDlen)
    }

    ghost function View(): Rx
      requires stpPad.Length == 6
      reads this, stpPad
    {
      Rx(StpView(), H4(rxSkb, received, None))
    }

    constructor (pkts: Table)
      ensures Valid() && this.pkts == pkts && fresh(stpPad)
      ensures stpCursor == 2 && stpDlen == 0 && rxSkb == None && received == []
    {
      this.pkts := pkts;
      rxSkb, received := None, [];
      stpPad := new byte[6](_ => 0);
      stpCursor, stpDlen := 2, 0;
    }

    method FindEntry(kind: byte) returns (i: nat)
      ensures i == Entry(pkts, kind)
    {
      i := 0;
      while i < |pkts| && pkts[i].kind != kind
        invariant i <= |pkts|
        invariant EntryFrom(pkts, kind, i) == Entry(pkts, kind)
      {
        i := i + 1;
      }
    }

    /** The second half of the loop body of h4_recv_buf, for a packet with all the bytes expected. */
    method Complete(packet: Skb) returns (skb: Option<Skb>, err: Option<Error>)
      requires |packet.data| >= packet.expected
      modifies this`received
      ensures H4(skb, received, err) == Grown(pkts, H4(None, old(received), None), packet)
    {
      skb, err := None, None;
      var i := FindEntry(packet.kind);
      if i >= |pkts| { return None, Some(EILSEQ); }
      var pkt := pkts[i];
      if |packet.data| == pkt.hlen {
        var dlen := 0;
        var expected := packet.expected;
        if pkt.lsize == 1 {
          dlen := packet.data[pkt.loff];
          expected := (expected + dlen) % 0x1_0000;
          if pkt.room - |packet.data| < dlen { return None, Some(EMSGSIZE); }
        } else if pkt.lsize == 2 {
          var hi := packet.data[pkt.loff + 1];
          if pkt.kind == HCI_ISODATA_PKT { hi := hi % 0x40; }
          dlen := Le16(packet.data[pkt.loff], hi);
          expected := (expected + dlen) % 0x1_0000;
          if pkt.room - |packet.data| < dlen { return None, Some(EMSGSIZE); }
        } else if pkt.lsize != 0 {
          return None, Some(EILSEQ);
        }
        if dlen == 0 {
          received := received + [Packet(packet.kind, packet.data)];
        } else {
          skb := Some(packet.(expected := expected));
        }
      } else {
        received := received + [Packet(packet.kind, packet.data)];
      }
    }

    /** The first part of a pass of h4_recv_buf: a packet starts with its type byte. */
    method Start(data: seq<byte>, pos: nat, start: Option<Skb>)
      returns (skb: Option<Skb>, used: nat, err: Option<Error>)
      requires pos < |data| && H4Ok(pkts, H4(start, received, None))
      ensures if start.Some? then skb == start && used == 0 && err.None?
              else used == 1 && H4(skb, received, err) == H4Byte(pkts, H4(None, received, None), data[pos])
      ensures err.None? ==> skb.Some? && |skb.value.data| < skb.value.expected
    {
      skb, used, err := start, 0, None;
      if skb.None? {
        var i := FindEntry(data[pos]);
        if i == |pkts| { return None, 1, Some(EILSEQ); }
        skb := Some(Skb(data[pos], [], pkts[i].hlen));
        used := 1;
      }
    }

    /** One pass of the loop of h4_recv_buf. It consumes at least one byte. */
    method H4Pass(data: seq<byte>, pos: nat, left: nat, start: Option<Skb>)
      returns (skb: Option<Skb>, used: nat, err: Option<Error>)
      requires 0 < left && pos + left <= |data|
      requires H4Ok(pkts, H4(start, received, None))
      modifies this`received
      ensures 0 < used <= left
      ensures H4(skb, received, err) == H4Fold(pkts, H4(start, old(received), None), data[pos..pos + used])
    {
      ghost var h0 := H4(start, received, None);
      skb, used, err := Start(data, pos, start);
      ghost var head, h := data[pos..pos + used], H4(skb, received, err);
      assert h == H4Fold(pkts, h0, head) by {
        if start.None? {
          assert head == [data[pos]];
          H4FoldOne(pkts, h0, data[pos]);
        }
      }
      if err.Some? { return; }
      var packet := skb.value;
      var len := Min(packet.expected - |packet.data|, left - used);
      ghost var bytes := data[pos + used..pos + used + len];
      assert H4Fold(pkts, h0, data[pos..pos + used + len]) == H4Fold(pkts, h, bytes) by {
        assert head + bytes == data[pos..pos + used + len];
        H4FoldConcat(pkts, h0, head, bytes);
      }
      packet := packet.(data := packet.data + data[pos + used..pos + used + len]);
      assert H4Fold(pkts, h, bytes) == Grown(pkts, h, packet) by {
        if len > 0 { H4Bulk(pkts, h, bytes); }
      }
      used := used + len;
      if |packet.data| < packet.expected {
        skb := Some(packet);
      } else {
        skb, err := Complete(packet);
      }
    }

    /** h4_recv_buf on `count` bytes of data from position `at`. */
    method H4RecvBuf(data: seq<byte>, at: nat, count: nat) returns (err: Option<Error>)
      requires Valid() && at + count <= |data|
      modifies this`rxSkb, this`received
      ensures H4(rxSkb, received, err) == H4Fold(pkts, old(View()).h4, data[at..at + count])
      ensures Valid()
    {
      ghost var start := View().h4;
      err := None;
      var skb, pos, left := rxSkb, at, count;
      while left > 0
        invariant at <= pos && pos + left == at + count && err.None?
        invariant H4(skb, received, None) == H4Fold(pkts, start, data[at..pos])
        decreases left
      {
        H4FoldOk(pkts, start, data[at..pos]);
        var used;
        skb, used, err := H4Pass(data, pos, left, skb);
        H4Through(pkts, start, data, at, pos, pos + used);
        pos, left := pos + used, left - used;
        if err.Some? {
          H4Stopped(pkts, start, data, at, pos, at + count);
          break;
        }
      }
      H4FoldOk(pkts, start, data[at..at + count]);
      rxSkb := skb;
    }

    method PutPad(b: byte)
      requires stpPad.Length == 6 && stpCursor < 6
      modifies this`stpCursor, stpPad
      ensures stpPad[..] == old(stpPad[..])[old(stpCursor) := b] && stpCursor == old(stpCursor) + 1
    {
      stpPad[stpCursor] := b;
      stpCursor := stpCursor + 1;
    }

    /** The while loop of mtk_stp_split: fills the pad until it holds a header or the data ends. */
    method FillPad(data: seq<byte>, pos: nat, count: nat) returns (used: nat)
      requires stpPad.Length == 6 && pos + count <= |data| && stpCursor <= 6
      modifies this`stpCursor, stpPad
      ensures used == Min(count, 6 - old(stpCursor)) && stpCursor == old(stpCursor) + used
      ensures stpPad[..] == Padded(old(stpPad[..]), old(stpCursor), data[pos..pos + used])
    {
      used := 0;
      ghost var pad, c := stpPad[..], stpCursor;
      while stpCursor < 6 && used < count
        invariant used <= count && stpCursor == c + used <= 6
        invariant stpPad[..] == Padded(pad, c, data[pos..pos + used])
      {
        PadGrowsBy(pad, c, data, pos, used);
        PutPad(data[pos + used]);
        used := used + 1;
      }
    }

    method ParseHeader()
      requires stpPad.Length == 6 && stpCursor == 6
      modifies this`stpCursor, this`stpDlen
      ensures StpView() == Parsed(old(stpPad[..]))
    {
      stpDlen := Le16(stpPad[4], stpPad[3]) % 0x1000;
      if stpPad[2] != MTK_STP_PREFIX || stpDlen > STP_MAX_DLEN {
        stpCursor, stpDlen := 2, 0;
      }
    }

    /** The first part of mtk_stp_split, up to where it knows how much payload may follow. */
    method SkipHeader(data: seq<byte>, pos: nat, count: nat) returns (adv: nat)
      requires Valid() && 0 < count && pos + count <= |data|
      modifies this`stpCursor, this`stpDlen, stpPad
      ensures adv <= count && (old(stpDlen) == 0 ==> adv > 0)
      ensures View() == Fold(pkts, old(View()), data[pos..pos + adv])
    {
      ghost var r0 := View();
      if stpDlen == 0 && stpCursor >= 6 { stpCursor := 0; }
      ghost var r1 := View();
      adv := FillPad(data, pos, count);
      ghost var bytes := data[pos..pos + adv];
      if stpDlen == 0 && stpCursor >= 6 { ParseHeader(); }
      HeaderDone(r0, r1, bytes, View());
    }

    ghost predicate HeaderRead(r1: Rx, bytes: seq<byte>, r: Rx) {
      && |r1.stp.pad| == 6
      && if r1.stp.cursor == 6 then bytes == [] && r == r1
         else
           var c := r1.stp.cursor + |bytes|;
           && c <= 6
           && var pad := Padded(r1.stp.pad, r1.stp.cursor, bytes);
              r == Rx(if c < 6 then Stp(pad, c, 0) else Parsed(pad), r1.h4)
    }

    lemma HeaderDone(r0: Rx, r1: Rx, bytes: seq<byte>, r: Rx)
      requires RxOk(pkts, r0) && r0.h4.err.None?
      requires r1 == if r0.stp.dlen == 0 && r0.stp.cursor == 6 then r0.(stp := r0.stp.(cursor := 0)) else r0
      requires HeaderRead(r1, bytes, r) && (r1.stp.cursor < 6 ==> bytes != [])
      ensures r == Fold(pkts, r0, bytes)
    {
      if r1.stp.cursor < 6 { FoldHeader(pkts, r1, bytes); }
      if r1 != r0 { FoldRestarts(pkts, r0, bytes); }
    }

    /** mtk_stp_split: skips STP framing from position `pos`. When something is left for H:4 (`found`),
        `sz` bytes at pos + adv are payload, and stp_dlen already excludes them. Either the pad or the
        payload advances. */
    method StpSplit(data: seq<byte>, pos: nat, count: nat) returns (found: bool, adv: nat, sz: nat)
      requires Valid() && 0 < count && pos + count <= |data|
      modifies this`stpCursor, this`stpDlen, stpPad
      ensures Valid() && adv <= count
      ensures var r := Fold(pkts, old(View()), data[pos..pos + adv]);
              if found then
                && adv < count && sz == Min(count - adv, r.stp.dlen) && adv + sz > 0
                && View() == r.(stp := r.stp.(dlen := r.stp.dlen - sz))
              else adv == count && View() == r
    {
      ghost var r0 := View();
      adv := SkipHeader(data, pos, count);
      FoldOk(pkts, r0, data[pos..pos + adv]);
      if count - adv <= 0 { return false, adv, 0; }
      sz := Min(count - adv, stpDlen);
      stpDlen := stpDlen - sz;
      found := true;
    }

    /** One pass of the loop of btmtk_recv. */
    method RecvPass(data: seq<byte>, pos: nat) returns (next: nat, err: Option<Error>)
      requires Valid() && pos < |data|
      modifies this`rxSkb, this`received, this`stpCursor, this`stpDlen, stpPad
      ensures Valid() && pos < next <= |data|
      ensures var r := Fold(pkts, old(View()), data[pos..next]);
              View() == AfterCall(r) && err == r.h4.err && (err.Some? ==> next == |data| || stpDlen == 0)
    {
      ghost var r0 := View();
      var found, adv, sz := StpSplit(data, pos, |data| - pos);
      next := pos + adv;
      if !found { return next, None; }
      ghost var r1 := View();
      err := H4RecvBuf(data, next, sz);
      assert StpView() == r1.stp;
      RunAfterSplit(pkts, r0, data, pos, next, next + sz, r1, H4(rxSkb, received, err));
      next := next + sz;
    }

    /** btmtk_recv: the chunk has the effect of its bytes, one by one; on an error the rest of the
        payload run is skipped and the rest of the chunk dropped. */
    method BtmtkRecv(data: seq<byte>) returns (code: int)
      requires Valid()
      modifies this`rxSkb, this`received, this`stpCursor, this`stpDlen, stpPad
      ensures Valid()
      ensures var r := Fold(pkts, old(View()), data);
              && View() == AfterCall(r)
              && code == if r.h4.err == None then 0 else if r.h4.err == Some(EILSEQ) then -84 else -90
    {
      ghost var r0 := View();
      var pos := 0;
      assert data[..0] == [];
      while pos < |data|
        invariant Valid() && pos <= |data|
        invariant View() == Fold(pkts, r0, data[..pos])
        decreases |data| - pos
      {
        var next, err := RecvPass(data, pos);
        FoldThrough(pkts, r0, data, pos, next);
        if err.Some? {
          FoldThrough(pkts, r0, data, next, |data|);
          assert data[..|data|] == data;
          ghost var r := Fold(pkts, r0, data[..next]);
          if next < |data| { FoldStopped(pkts, r, data[next..]); }
          return Code(err);
        }
        pos := next;
      }
      assert data[..|data|] == data;
      code := 0;
    }
  }
}
