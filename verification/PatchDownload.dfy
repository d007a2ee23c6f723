/** btmtk_load_fw_patch_using_wmt_cmd of btmtk_main.c: a firmware patch goes out in blocks of at most
    `unit` bytes (UPLOAD_PATCH_UNIT - PATCH_HEADER_SIZE), each marked with the phase of the download. */
module PatchDownload {
  import opened Words

  datatype Phase = PHASE1 | PHASE2 | PHASE3

  function PhaseCode(p: Phase): byte {
    match p
    case PHASE1 => 1
    case PHASE2 => 2
    case PHASE3 => 3
  }

  // payloads whose length fits the two length fields
  type Payload = p: seq<byte> | |p| <= 0xFFFF - 5 witness []

  datatype Block = Block(phase: Phase, payload: Payload)

  predicate ValidUnit(unit: nat) { 0 < unit <= 0xFFFF - 5 }

  /** What goes over the wire for a block: HCI header, WMT header, payload. */
  function Image(b: Block): seq<byte>
  {
    var hci, wmt := |b.payload| + 5, |b.payload| + 1;
    [0x02, 0x6F, 0xFC, hci % 256, hci / 256, 0x01, 0x01, wmt % 256, wmt / 256, PhaseCode(b.phase)] + b.payload
  }

  /** The phase of the next block when `left` bytes are left. */
  function PhaseFor(left: nat, unit: nat, first: bool): Phase {
    if first then (if left < unit then PHASE3 else PHASE1)
    else if left > unit then PHASE2 else PHASE3
  }

  /** The blocks for these bytes. */
  function Blocks(data: seq<byte>, unit: nat, first: bool): seq<Block>
    requires ValidUnit(unit)
    decreases |data|
  {
    if data == [] then []
    else
      var n := Min(unit, |data|);
      [Block(PhaseFor(|data|, unit, first), data[..n])] + Blocks(data[n..], unit, false)
  }

  function Payloads(bs: seq<Block>): seq<byte> { if bs == [] then [] else bs[0].payload + Payloads(bs[1..]) }

  /** The payloads are the data, in order; each is full but the last. */
  lemma {:induction false} BlocksCover(data: seq<byte>, unit: nat, first: bool)
    requires ValidUnit(unit)
    ensures var bs := Blocks(data, unit, first);
            && Payloads(bs) == data
            && (forall i :: 0 <= i < |bs| ==> 0 < |bs[i].payload| <= unit)
            && (forall i :: 0 <= i < |bs| - 1 ==> |bs[i].payload| == unit)
    decreases |data|
  {
    if data != [] {
      var n := Min(unit, |data|);
      BlocksCover(data[n..], unit, false);
      assert data[..n] + data[n..] == data;
      var bs, rest := Blocks(data, unit, first), Blocks(data[n..], unit, false);
      assert bs[1..] == rest;
      forall i | 0 <= i < |bs| - 1 ensures |bs[i].payload| == unit {
        if i > 0 { assert bs[i] == rest[i - 1]; }
      }
    }
  }

  lemma {:induction false} LaterPhases(data: seq<byte>, unit: nat)
    requires ValidUnit(unit)
    ensures var bs := Blocks(data, unit, false);
            && (bs == [] <==> data == [])
            && forall i :: 0 <= i < |bs| ==> bs[i].phase == if i == |bs| - 1 then PHASE3 else PHASE2
    decreases |data|
  {
    if data != [] {
      var n := Min(unit, |data|);
      LaterPhases(data[n..], unit);
      var bs, rest := Blocks(data, unit, false), Blocks(data[n..], unit, false);
      forall i | 0 < i < |bs| ensures bs[i] == rest[i - 1] {}
    }
  }

  /** PHASE3 marks the last block and only it, PHASE1 the first of several, for every length but that of
      exactly one full block: there the only block is marked PHASE1 and PHASE3 is never sent. */
  lemma PhasesMark(data: seq<byte>, unit: nat)
    requires ValidUnit(unit) && data != []
    ensures var bs := Blocks(data, unit, true);
            && |bs| > 0
            && (bs[|bs| - 1].phase == PHASE3 <==> |data| != unit)
            && (forall i :: 0 <= i < |bs| - 1 ==> bs[i].phase == if i == 0 then PHASE1 else PHASE2)
            && (|data| == unit ==> bs == [Block(PHASE1, data)])
  {
    var n := Min(unit, |data|);
    LaterPhases(data[n..], unit);
    var bs, rest := Blocks(data, unit, true), Blocks(data[n..], unit, false);
    forall i | 0 < i < |bs| ensures bs[i] == rest[i - 1] {}
    if |data| == unit { assert data[..n] == data; }
  }

  /** The headers announce what follows them, least significant byte first, and the payload is behind them:
      a packet of type 2 with command 0xFC6F, and in it command 1 of direction 1 with the phase, 1 to 3. */
  lemma ImageAnnounces(b: Block)
    ensures var m := Image(b);
            && |m| == |b.payload| + 10 && m[10..] == b.payload
            && m[0] == 2 && Word(m, 1) == 0xFC6F && Word(m, 3) == |m| - 5
            && m[5] == 1 && m[6] == 1 && Word(m, 7) == |m| - 9
            && (b.phase == PHASE1 ==> m[9] == 1) && (b.phase == PHASE2 ==> m[9] == 2)
            && (b.phase == PHASE3 ==> m[9] == 3)
  {}

  function Word(m: seq<byte>, i: nat): int
    requires i + 1 < |m|
  {
    var lo: int, hi: int := m[i], m[i + 1];
    lo + 256 * hi
  }

  // the index of the first failing send of n, or n
  function FirstFailure(replies: seq<int>, n: nat, i: nat): (r: nat)
    requires i <= n <= |replies|
    ensures i <= r <= n
    ensures forall k :: i <= k < r ==> replies[k] >= 0
    ensures r < n ==> replies[r] < 0
    decreases n - i
  {
    if i == n || replies[i] < 0 then i else FirstFailure(replies, n, i + 1)
  }

  lemma BlocksFrom(fwbuf: seq<byte>, at: nat, end: nat, unit: nat, first: bool)
    requires at < end <= |fwbuf| && ValidUnit(unit)
    ensures var n := Min(unit, end - at);
            Blocks(fwbuf[at..end], unit, first)
              == [Block(PhaseFor(end - at, unit, first), fwbuf[at..at + n])] + Blocks(fwbuf[at + n..end], unit, false)
  {
    var n := Min(unit, end - at);
    assert fwbuf[at..end][..n] == fwbuf[at..at + n] && fwbuf[at..end][n..] == fwbuf[at + n..end];
  }

  function Images(bs: seq<Block>): (r: seq<seq<byte>>)
    ensures |r| == |bs|
  {
    seq(|bs|, i requires 0 <= i < |bs| => Image(bs[i]))
  }

  // the k-th block is out
  lemma OneMore(bs: seq<Block>, k: nat, b: Block, rest: seq<Block>)
    requires k < |bs| && bs[k..] == [b] + rest
    ensures bs[k] == b && bs[k + 1..] == rest && Images(bs[..k + 1]) == Images(bs[..k]) + [Image(b)]
  {
    assert bs[k] == bs[k..][0] && bs[k + 1..] == bs[k..][1..];
    assert bs[..k + 1] == bs[..k] + [b];
  }

  /** From the k-th on, the blocks are those for the `left` bytes at position `at`. */
  ghost predicate Pending(bs: seq<Block>, k: nat, fwbuf: seq<byte>, at: nat, left: nat, unit: nat, first: bool) {
    && ValidUnit(unit) && k <= |bs| && at + left <= |fwbuf|
    && bs[k..] == Blocks(fwbuf[at..at + left], unit, first)
  }

  /** The block made in one pass of the loop. */
  method NextBlock(fwbuf: seq<byte>, at: nat, left: nat, unit: nat, first: bool, ghost bs: seq<Block>, ghost k: nat)
    returns (b: Block)
    requires Pending(bs, k, fwbuf, at, left, unit, first) && left > 0
    ensures k < |bs| && b == bs[k] && 0 < |b.payload| <= left
    ensures Pending(bs, k + 1, fwbuf, at + |b.payload|, left - |b.payload|, unit, false)
    ensures Images(bs[..k + 1]) == Images(bs[..k]) + [Image(b)]
  {
    BlocksFrom(fwbuf, at, at + left, unit, first);
    var sentLen := if left >= unit then unit else left;
    var phase;
    if first {
      phase := if sentLen < unit then PHASE3 else PHASE1;
    } else if sentLen == unit {
      phase := if left == unit then PHASE3 else PHASE2;
    } else {
      phase := PHASE3;
    }
    b := Block(phase, fwbuf[at..at + sentLen]);
    OneMore(bs, k, b, Blocks(fwbuf[at + sentLen..at + left], unit, false));
  }

  /** sent: the commands handed to btmtk_main_send_cmd, whose k-th call returns replies[k]. If all
      succeed, exactly the blocks of the patch are sent; otherwise those up to the first that fails,
      whose error is returned. */
  method LoadFwPatch(fwbuf: seq<byte>, offset: nat, patchLen: u32, unit: nat, replies: seq<int>)
    returns (sent: seq<seq<byte>>, ret: int)
    requires ValidUnit(unit) && offset + patchLen <= |fwbuf|
    requires |Blocks(fwbuf[offset..offset + patchLen], unit, true)| <= |replies|
    ensures var bs := Blocks(fwbuf[offset..offset + patchLen], unit, true);
            var failed := FirstFailure(replies, |bs|, 0);
            && sent == Images(if failed < |bs| then bs[..failed + 1] else bs)
            && ret == if failed < |bs| then replies[failed] else if |bs| > 0 then replies[|bs| - 1] else 0
  {
    ghost var bs := Blocks(fwbuf[offset..offset + patchLen], unit, true);
    assert bs[0..] == bs;
    sent, ret := [], 0;
    var curLen: u32 := 0;
    var firstBlock := true;
    var k := 0;
    while true
      invariant curLen <= patchLen && Pending(bs, k, fwbuf, offset + curLen, patchLen - curLen, unit, firstBlock)
      invariant firstBlock <==> k == 0
      invariant sent == Images(bs[..k])
      invariant FirstFailure(replies, |bs|, 0) == FirstFailure(replies, |bs|, k)
      invariant ret == if k == 0 then 0 else replies[k - 1]
      decreases patchLen - curLen
    {
      if patchLen - curLen == 0 {
        assert bs[k..] == [] && bs == bs[..k];
        return;
      }
      var block := NextBlock(fwbuf, offset + curLen, patchLen - curLen, unit, firstBlock, bs, k);
      firstBlock := false;
      curLen := curLen + |block.payload|;
      sent := sent + [Image(block)];
      ret := replies[k];
      if ret < 0 { return; }
      k := k + 1;
    }
  }
}
