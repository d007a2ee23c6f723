/** Which streams btmtk_recv takes without an error, said without the automata, and what an error does to
    the independence from how the stream is cut into calls. */
module BtErrors {
  import opened Options
  import opened Words
  import opened BtFraming
  import opened BtReceive
  import opened BtTheorems

  // ---- the deframer on its own

  /** The deframer's state after these bytes, and the payload in them, as long as there is no error. */
  function Deframe(s: Stp, bytes: seq<byte>): (Stp, seq<byte>)
    decreases |bytes|
  {
    if bytes == [] then (s, [])
    else
      var (m, payload) := Deframe(s, bytes[..|bytes| - 1]);
      var last := bytes[|bytes| - 1];
      if m.dlen > 0 then (m.(dlen := m.dlen - 1), payload + [last]) else (StpHeaderByte(m, last), payload)
  }

  lemma H4FoldMore(t: Table, h: H4, bytes: seq<byte>, b: byte)
    ensures H4Fold(t, h, bytes + [b]) == H4Byte(t, H4Fold(t, h, bytes), b)
  {
    assert (bytes + [b])[..|bytes|] == bytes;
  }

  /** The two automata run side by side: an error depends on the payload only. */
  lemma {:induction false} FoldIsDeframe(t: Table, r: Rx, bytes: seq<byte>)
    requires r.h4.err.None?
    ensures var (s, payload) := Deframe(r.stp, bytes);
            && (Fold(t, r, bytes).h4.err.None? <==> H4Fold(t, r.h4, payload).err.None?)
            && (Fold(t, r, bytes).h4.err.None? ==> Fold(t, r, bytes) == Rx(s, H4Fold(t, r.h4, payload)))
    decreases |bytes|
  {
    if bytes != [] {
      var most, last := bytes[..|bytes| - 1], bytes[|bytes| - 1];
      FoldIsDeframe(t, r, most);
      H4FoldMore(t, r.h4, Deframe(r.stp, most).1, last);
    }
  }

  // ---- which payloads are taken without an error

  /** What was delivered before makes no difference. */
  lemma {:induction false} H4Shift(t: Table, h: H4, out: seq<Packet>, bytes: seq<byte>)
    ensures var r, r' := H4Fold(t, h, bytes), H4Fold(t, h.(out := out + h.out), bytes);
            r' == r.(out := out + r.out)
    decreases |bytes|
  {
    if bytes != [] {
      var most, last := bytes[..|bytes| - 1], bytes[|bytes| - 1];
      H4Shift(t, h, out, most);
      ByteShift(t, H4Fold(t, h, most), out, last);
    }
  }

  lemma ByteShift(t: Table, h: H4, out: seq<Packet>, b: byte)
    ensures H4Byte(t, h.(out := out + h.out), b) == H4Byte(t, h, b).(out := out + H4Byte(t, h, b).out)
  {
    if h.skb.Some? {
      var p := Packet(h.skb.value.kind, h.skb.value.data + [b]);
      assert out + (h.out + [p]) == out + h.out + [p];
    }
  }

  /** Whole packets of known types with the announced lengths, and perhaps the beginning of one more. */
  ghost predicate WellFormed(t: Table, ps: seq<Packet>, skb: Option<Skb>) {
    AllOk(t, ps) && (skb.Some? ==> SkbOk(t, skb.value))
  }

  lemma {:induction false} H4DeliversOk(t: Table, h: H4, bytes: seq<byte>)
    requires H4Ok(t, h) && AllOk(t, h.out)
    ensures H4Ok(t, H4Fold(t, h, bytes)) && AllOk(t, H4Fold(t, h, bytes).out)
    decreases |bytes|
  {
    H4FoldOk(t, h, bytes);
    if bytes != [] {
      var most, last := bytes[..|bytes| - 1], bytes[|bytes| - 1];
      H4DeliversOk(t, h, most);
      var m := H4Fold(t, h, most);
      if m.err.None? && m.skb.Some? { GrownDelivers(t, m, m.skb.value, last); }
    }
  }

  /** The bytes of the beginning of a packet lead to the partial packet. */
  lemma H4FoldPartial(t: Table, out: seq<Packet>, skb: Skb)
    requires SkbOk(t, skb)
    ensures H4Fold(t, NoPacket(out), Partial(Some(skb))) == InPacket(out, skb.kind, skb.data, skb.expected)
  {
    if |skb.data| < t[Entry(t, skb.kind)].hlen {
      ShortPartial(t, out, skb);
    } else {
      LongPartial(t, out, skb);
    }
  }

  lemma LongPartial(t: Table, out: seq<Packet>, skb: Skb)
    requires SkbOk(t, skb) && |skb.data| >= t[Entry(t, skb.kind)].hlen
    ensures H4Fold(t, NoPacket(out), [skb.kind] + skb.data) == InPacket(out, skb.kind, skb.data, skb.expected)
  {
    var d := t[Entry(t, skb.kind)];
    var header, rest := skb.data[..d.hlen], skb.data[d.hlen..];
    assert header + rest == skb.data;
    HeaderOfPartial(t, out, skb, header);
    RestOfPartial(t, out, skb, header, rest);
    assert [skb.kind] + header + rest == [skb.kind] + skb.data;
    H4FoldChain(t, NoPacket(out), [skb.kind] + header, InPacket(out, skb.kind, header, skb.expected),
                rest, InPacket(out, skb.kind, skb.data, skb.expected));
  }

  lemma HeaderOfPartial(t: Table, out: seq<Packet>, skb: Skb, header: seq<byte>)
    requires SkbOk(t, skb)
    requires var hlen := t[Entry(t, skb.kind)].hlen; hlen <= |skb.data| && header == skb.data[..hlen]
    ensures H4Fold(t, NoPacket(out), [skb.kind] + header) == InPacket(out, skb.kind, header, skb.expected)
  {
    var d := t[Entry(t, skb.kind)];
    DataLengthOfHeader(d, skb.data);
    H4FoldHeader(t, out, skb.kind, header, skb.expected - d.hlen);
  }

  lemma ShortPartial(t: Table, out: seq<Packet>, skb: Skb)
    requires SkbOk(t, skb) && |skb.data| < t[Entry(t, skb.kind)].hlen
    ensures H4Fold(t, NoPacket(out), [skb.kind] + skb.data) == InPacket(out, skb.kind, skb.data, skb.expected)
  {
    var h := InPacket(out, skb.kind, [], skb.expected);
    H4FoldOne(t, NoPacket(out), skb.kind);
    H4FoldConcat(t, NoPacket(out), [skb.kind], skb.data);
    if skb.data != [] {
      H4Bulk(t, h, skb.data);
      assert [] + skb.data == skb.data;
    }
  }

  lemma RestOfPartial(t: Table, out: seq<Packet>, skb: Skb, header: seq<byte>, rest: seq<byte>)
    requires header + rest == skb.data && |skb.data| < skb.expected && header != []
    ensures H4Fold(t, InPacket(out, skb.kind, header, skb.expected), rest)
              == InPacket(out, skb.kind, skb.data, skb.expected)
  {
    if rest == [] {
      assert header == skb.data;
    } else {
      H4Bulk(t, InPacket(out, skb.kind, header, skb.expected), rest);
    }
  }

  lemma H4FoldWellFormed(t: Table, ps: seq<Packet>, skb: Option<Skb>)
    requires WellFormed(t, ps, skb)
    ensures H4Fold(t, NoPacket([]), WireAll(ps) + Partial(skb)) == H4(skb, ps, None)
  {
    H4RoundTrip(t, [], ps);
    assert [] + ps == ps;
    if skb.Some? { H4FoldPartial(t, ps, skb.value); }
    H4FoldChain(t, NoPacket([]), WireAll(ps), NoPacket(ps), Partial(skb), H4(skb, ps, None));
  }

  /** A reassembler that holds the beginning `skb` takes `bytes` without an error. */
  lemma TakenMeans(t: Table, skb: Option<Skb>, bytes: seq<byte>)
    requires skb.Some? ==> SkbOk(t, skb.value)
    ensures H4Fold(t, H4(skb, [], None), bytes).err.None? <==>
            exists ps, rest :: WellFormed(t, ps, rest) && WireAll(ps) + Partial(rest) == Partial(skb) + bytes
  {
    var h := H4(skb, [], None);
    var r := H4Fold(t, h, bytes);
    if r.err.None? {
      H4DeliversOk(t, h, bytes);
      H4Conserves(t, h, bytes);
      assert WellFormed(t, r.out, r.skb);
    }
    H4FoldWellFormed(t, [], skb);
    assert WireAll([]) + Partial(skb) == Partial(skb);
    H4FoldConcat(t, NoPacket([]), Partial(skb), bytes);
    forall ps, rest | WellFormed(t, ps, rest) && WireAll(ps) + Partial(rest) == Partial(skb) + bytes
      ensures r.err.None?
    {
      H4FoldWellFormed(t, ps, rest);
    }
  }

  /** No call reports an error exactly if the payload in the stream, behind what was already there of a
      packet, is a sequence of well-formed packets with perhaps the beginning of one more. */
  lemma ErrorFreeMeans(t: Table, r: Rx, chunks: seq<seq<byte>>)
    requires RxOk(t, r) && r.h4.err.None?
    ensures var payload := Deframe(r.stp, Flatten(chunks)).1;
            ErrorFree(t, r, chunks) <==>
            exists ps, rest :: WellFormed(t, ps, rest) && WireAll(ps) + Partial(rest) == Partial(r.h4.skb) + payload
  {
    var payload := Deframe(r.stp, Flatten(chunks)).1;
    RecvAllIsFold(t, r, chunks);
    FoldIsDeframe(t, r, Flatten(chunks));
    H4Shift(t, H4(r.h4.skb, [], None), r.h4.out, payload);
    assert r.h4.out + [] == r.h4.out;
    TakenMeans(t, r.h4.skb, payload);
  }

  // ---- after an error

  /** An error can only come up in a payload, so the deframer stops there. */
  lemma {:induction false} ErrorInPayload(t: Table, r: Rx, bytes: seq<byte>)
    requires RxOk(t, r) && r.h4.err.None?
    ensures Fold(t, r, bytes).h4.err.Some? ==> Fold(t, r, bytes).stp.cursor == 6
    decreases |bytes|
  {
    if bytes != [] {
      ErrorInPayload(t, r, bytes[..|bytes| - 1]);
      FoldOk(t, r, bytes[..|bytes| - 1]);
    }
  }

  function Copies(p: Packet, k: nat): seq<Packet> { if k == 0 then [] else Copies(p, k - 1) + [p] }

  lemma {:induction false} CopiesOk(t: Table, p: Packet, k: nat)
    requires PacketOk(t, p)
    ensures AllOk(t, Copies(p, k)) && |Copies(p, k)| == k
    decreases k
  {
    if k > 0 { CopiesOk(t, p, k - 1); }
  }

  /** So many copies that they fill a payload run of `len` bytes and leave at most one frame. */
  lemma {:induction false} EnoughCopies(p: Packet, len: nat) returns (k: nat)
    requires |Wire(p)| <= STP_MAX_DLEN
    ensures k > 0 && len <= |WireAll(Copies(p, k))| <= len + STP_MAX_DLEN
    decreases len
  {
    var w := |Wire(p)|;
    if len <= w {
      k := 1;
      assert Copies(p, 1) == Copies(p, 0) + [p];
    } else {
      k := EnoughCopies(p, len - w);
      k := k + 1;
    }
    WireAllAppend(Copies(p, k - 1), p);
  }

  /** A prefix of an error-free payload is error-free. */
  lemma PrefixTaken(t: Table, h: H4, a: seq<byte>, b: seq<byte>)
    requires H4Fold(t, h, a + b).err.None?
    ensures H4Fold(t, h, a).err.None? && H4Fold(t, H4Fold(t, h, a), b) == H4Fold(t, h, a + b)
  {
    H4FoldConcat(t, h, a, b);
    if H4Fold(t, h, a).err.Some? { H4ErrorStays(t, H4Fold(t, h, a), b); }
  }

  /** In the middle of a payload run, or behind it: the rest of the run, a trailer and one frame. */
  lemma Resumes(t: Table, r: Rx, x: seq<byte>, y: seq<byte>, trailer: seq<byte>)
    requires r.stp.cursor == 6 && r.stp.dlen == |x| && |y| <= STP_MAX_DLEN && |trailer| == 2
    requires H4Fold(t, r.h4, x + y).err.None?
    ensures Fold(t, r, x + trailer + AddStp(Frame(y, trailer))).h4 == H4Fold(t, r.h4, x + y)
  {
    PrefixTaken(t, r.h4, x, y);
    FoldBody(t, r, Frame(x, trailer));
    var r2 := Fold(t, Fold(t, r, x), trailer);
    FoldFrame(t, r2, Frame(y, trailer));
    FoldThree(t, r, x, trailer, AddStp(Frame(y, trailer)));
  }

  /** The next call can go on without an error: the rest of the payload run and one more frame carry
      copies of a packet. */
  lemma Recovery(t: Table, r: Rx, p: Packet) returns (b: seq<byte>, k: nat)
    requires r.stp.cursor == 6 && r.h4 == NoPacket(r.h4.out) && PacketOk(t, p) && |Wire(p)| <= STP_MAX_DLEN
    ensures k > 0 && Fold(t, r, b).h4 == NoPacket(r.h4.out + Copies(p, k))
  {
    k := EnoughCopies(p, r.stp.dlen);
    CopiesOk(t, p, k);
    var w := WireAll(Copies(p, k));
    var x, y := w[..r.stp.dlen], w[r.stp.dlen..];
    assert x + y == w;
    H4RoundTrip(t, r.h4.out, Copies(p, k));
    Resumes(t, r, x, y, [0, 0]);
    b := x + [0, 0] + AddStp(Frame(y, [0, 0]));
  }

  /** b has no error in a call of its own after one with a. */
  predicate GoesOn(t: Table, r: Rx, a: seq<byte>, b: seq<byte>) {
    Fold(t, Recv(t, r, a), b).h4.err.None?
  }

  ghost predicate CutsAgree(t: Table, r: Rx, stream: seq<byte>) {
    forall cut, other :: Flatten(cut) == stream && Flatten(other) == stream ==>
      RecvAll(t, r, cut).h4.out == RecvAll(t, r, other).h4.out
  }

  lemma OneCall(t: Table, r: Rx, a: seq<byte>)
    ensures Flatten([a]) == a && RecvAll(t, r, [a]) == Recv(t, r, a)
  {
    assert [a][1..] == [];
    assert a + [] == a;
  }

  lemma TwoCalls(t: Table, r: Rx, a: seq<byte>, b: seq<byte>)
    ensures Flatten([a, b]) == a + b && RecvAll(t, r, [a, b]) == Recv(t, Recv(t, r, a), b)
  {
    OneCall(t, Recv(t, r, a), b);
    assert [a, b][1..] == [b];
  }

  /** After any error, in any state, there is a continuation that a call of its own takes without an
      error, and that is lost when it comes in the same call. */
  lemma ErrorsDependOnTheCut(t: Table, r: Rx, a: seq<byte>, p: Packet) returns (b: seq<byte>)
    requires RxOk(t, r) && r.h4.err.None? && Fold(t, r, a).h4.err.Some?
    requires PacketOk(t, p) && |Wire(p)| <= STP_MAX_DLEN
    ensures GoesOn(t, r, a, b)
    ensures Flatten([a + b]) == Flatten([a, b])
    ensures RecvAll(t, r, [a + b]).h4.out != RecvAll(t, r, [a, b]).h4.out
  {
    var k;
    ErrorInPayload(t, r, a);
    FoldOk(t, r, a);
    b, k := Recovery(t, Recv(t, r, a), p);
    CopiesOk(t, p, k);
    OneCall(t, r, a + b);
    TwoCalls(t, r, a, b);
    FoldConcat(t, r, a, b);
    ErrorStays(t, Fold(t, r, a), b);
  }

  lemma AgreeWithout(t: Table, r: Rx, a: seq<byte>, b: seq<byte>)
    requires r.h4.err.None? && Fold(t, r, a).h4.err.None? && GoesOn(t, r, a, b)
    ensures CutsAgree(t, r, a + b)
  {
    FoldConcat(t, r, a, b);
    assert Recv(t, r, a) == Fold(t, r, a);
    forall cut, other | Flatten(cut) == a + b && Flatten(other) == a + b
      ensures RecvAll(t, r, cut).h4.out == RecvAll(t, r, other).h4.out
    {
      RecvAllIsFold(t, r, cut);
      RecvAllIsFold(t, r, other);
    }
  }

  /** Chunk independence, exactly: a stream has no error if and only if, whatever comes after it without
      an error of its own, all ways of cutting the two into calls deliver the same packets. */
  lemma CutsAgreeExactly(t: Table, r: Rx, a: seq<byte>, p: Packet)
    requires RxOk(t, r) && r.h4.err.None? && PacketOk(t, p) && |Wire(p)| <= STP_MAX_DLEN
    ensures Fold(t, r, a).h4.err.None? <==> forall b :: GoesOn(t, r, a, b) ==> CutsAgree(t, r, a + b)
  {
    if Fold(t, r, a).h4.err.None? {
      forall b | GoesOn(t, r, a, b) ensures CutsAgree(t, r, a + b) { AgreeWithout(t, r, a, b); }
    } else {
      var b := ErrorsDependOnTheCut(t, r, a, p);
      OneCall(t, r, a + b);
      assert !CutsAgree(t, r, a + b);
    }
  }
}
