/** The functions of fm_rds_parser.c that handle radiotext, on the buffers they change in place, proved
    to compute RdsRadiotext.Receive. */
module RdsRadiotextCode {
  import opened Options
  import opened Words
  import opened RdsRadiotext

  /** What the source reads out of the four blocks and the check flags of a type 2 group. */
  function GroupOf(w: Width, crc: nat, blkB: nat, blkC: nat, blkD: nat): (g: Group)
    requires blkC < 0x1_0000 && blkD < 0x1_0000
    ensures ValidGroup(w, g)
  {
    var d: seq<byte> := [blkD / 256, blkD % 256];
    var c: seq<byte> := [blkC / 256, blkC % 256];
    Group(blkB % 16, blkB / 16 % 2 == 1,
          if w == 4 then crc % 4 == 3 else crc % 2 == 1,   // FM_RDS_GDBK_IND_C and _D, or just _D
          if w == 4 then c + d else d)
  }

  // t with the bytes from `at` on replaced
  function Patched(t: Text, at: nat, s: seq<byte>): Text
    requires at + |s| <= SIZE
  {
    t[..at] + s + t[at + |s|..]
  }

  lemma PatchedMore(t: Text, at: nat, s: seq<byte>, x: byte)
    requires at + |s| < SIZE
    ensures Patched(t, at, s)[at + |s| := x] == Patched(t, at, s + [x])
  {}

  lemma PatchedSame(t: Text, at: nat, s: seq<byte>, x: byte)
    requires at + |s| < SIZE && t[at + |s|] == x
    ensures Patched(t, at, s) == Patched(t, at, s + [x])
  {}

  class Radiotext {
    const latest: array<byte>    // TextData[0]
    const once: array<byte>      // TextData[1]
    const twice: array<byte>     // TextData[2]
    const display: array<byte>   // TextData[3]
    var textLength: nat
    var addrCnt: Bits
    var cnt: nat                 // rt_bm.cnt
    var textAb: bool
    var onceDirty: bool

    ghost predicate Valid()
      reads this
    {
      && latest.Length == once.Length == twice.Length == display.Length == SIZE
      && latest != once && latest != twice && latest != display
      && once != twice && once != display && twice != display
    }

    ghost function View(): Rt
      requires Valid()
      reads this, latest, once, twice, display
    {
      Rt(latest[..], once[..], twice[..], display[..], textLength, addrCnt, cnt, textAb, onceDirty)
    }

    /** After the memset of struct rds_t. */
    constructor ()
      ensures Valid()
      ensures View() == Rt(Repeat(0, SIZE), Repeat(0, SIZE), Repeat(0, SIZE), Repeat(0, SIZE), 0, NONE, 0, false, false)
      ensures fresh({latest, once, twice, display})
    {
      latest, once := new byte[SIZE](_ => 0), new byte[SIZE](_ => 0);
      twice, display := new byte[SIZE](_ => 0), new byte[SIZE](_ => 0);
      textLength, addrCnt, cnt, textAb, onceDirty := 0, NONE, 0, false, false;
      new;
      assert latest[..] == Repeat(0, SIZE) && once[..] == Repeat(0, SIZE);
      assert twice[..] == Repeat(0, SIZE) && display[..] == Repeat(0, SIZE);
    }

    static method Fill(a: array<byte>, v: byte)
      requires a.Length == SIZE
      modifies a
      ensures a[..] == Repeat(v, SIZE)
    {
      for i := 0 to SIZE
        invariant forall k :: 0 <= k < i ==> a[k] == v
      {
        a[i] := v;
      }
    }

    /** fm_memset of the three working buffers, and rds_bm_clr. */
    method Clear()
      requires Valid()
      modifies this`addrCnt, this`cnt, latest, once, twice
      ensures Valid() && View() == Blanked(old(View()))
    {
      Fill(latest, SPACE);
      Fill(once, SPACE);
      Fill(twice, SPACE);
      addrCnt, cnt := NONE, 0;
    }

    /** rds_g2_txtAB_get */
    method TxtAbGet(ab: bool) returns (changed: bool)
      modifies this`textAb, this`onceDirty
      ensures changed == (old(textAb) != ab && old(onceDirty))
      ensures if changed then textAb == ab && !onceDirty
              else textAb == old(textAb) && onceDirty == (textAb != ab)
    {
      changed := false;
      if textAb != ab {
        if onceDirty {
          textAb := ab;
          changed := true;
          onceDirty := false;
          return;
        }
        onceDirty := true;
      } else {
        onceDirty := false;
      }
    }

    static method Store(buf: array<byte>, w: Width, a: nat, s: seq<byte>)
      requires buf.Length == SIZE && a < 16 && |s| == w
      modifies buf
      ensures buf[..] == PutSeg(old(buf[..]), w, a, s)
    {
      ghost var t := buf[..];
      var idx := Times(w, a);
      buf[idx], buf[idx + 1] := s[0], s[1];
      if w == 4 { buf[idx + 2], buf[idx + 3] := s[2], s[3]; }
      assert buf[..] == PutSeg(t, w, a, s);
    }

    /** rds_g2_rt_get: stores a good segment; false for -FM_ECRC. */
    method RtGet(w: Width, g: Group) returns (ok: bool)
      requires Valid() && ValidGroup(w, g)
      modifies latest
      ensures ok == g.good
      ensures latest[..] == if ok then PutSeg(old(latest[..]), w, g.addr, g.data) else old(latest[..])
    {
      ok := g.good;
      if ok { Store(latest, w, g.addr, g.data); }
    }

    /** One byte of the comparing loop. */
    method CmpByte(at: nat, i: nat, ghost t: Text, ghost s: seq<byte>) returns (same: bool)
      requires Valid() && at + |s| <= SIZE && i < |s| && once[at + i] == s[i]
      requires twice[..] == Patched(t, at, s[..i])
      modifies twice
      ensures twice[..] == Patched(t, at, s[..i + 1])
      ensures same == (t[at + i] == s[i])
    {
      assert s[..i + 1] == s[..i] + [s[i]];
      assert twice[at + i] == t[at + i];
      same := twice[at + i] == once[at + i];
      if same {
        PatchedSame(t, at, s[..i], s[i]);
      } else {
        PatchedMore(t, at, s[..i], s[i]);
        twice[at + i] := once[at + i];
      }
    }

    /** The comparing loop of rds_g2_rt_cmp. */
    method CmpBytes(at: nat, w: Width, ghost s: seq<byte>) returns (valid: bool)
      requires Valid() && at + w <= SIZE && |s| == w && once[at..at + w] == s
      modifies twice
      ensures twice[..] == Patched(old(twice[..]), at, s)
      ensures valid == (old(twice[at..at + w]) == s)
    {
      ghost var t: Text := twice[..];
      ghost var was := t[at..at + w];
      var same := 0;
      for i := 0 to w
        modifies twice
        invariant twice[..] == Patched(t, at, s[..i])
        invariant same <= i && (same == i <==> was[..i] == s[..i])
      {
        assert once[at + i] == once[at..at + w][i];
        assert was[..i + 1] == was[..i] + [t[at + i]] && s[..i + 1] == s[..i] + [s[i]];
        SameWithOneMore(was[..i], s[..i], t[at + i], s[i]);
        var eq := CmpByte(at, i, t, s);
        if eq { same := same + 1; }
      }
      assert s[..w] == s && was[..w] == was;
      valid := same == w;
    }

    /** rds_g2_rt_cmp: is the segment what `twice` already holds? Afterwards it does. */
    method RtCmp(w: Width, addr: nat) returns (valid: bool)
      requires Valid() && addr < 16
      modifies once, twice
      ensures var s := Seg(latest[..], w, addr);
              && once[..] == PutSeg(old(once[..]), w, addr, s)
              && twice[..] == PutSeg(old(twice[..]), w, addr, s)
              && valid == (Seg(old(twice[..]), w, addr) == s)
    {
      ghost var s := Seg(latest[..], w, addr);
      var at := Times(w, addr);
      SegOfPut(once[..], w, addr, s, addr);
      Store(once, w, addr, latest[at..at + w]);
      assert once[at..at + w] == Seg(once[..], w, addr);
      assert twice[at..at + w] == Seg(twice[..], w, addr);
      valid := CmpBytes(at, w, s);
    }

    /** rds_bm_set */
    method BmSet(addr: nat)
      requires addr < 16
      modifies this`addrCnt, this`cnt
      ensures addrCnt == old(addrCnt)[addr := true]
      ensures cnt == if old(addrCnt)[addr] then old(cnt) + 1 else if old(cnt) > 0 then old(cnt) - 1 else 0
    {
      var before := addrCnt;
      addrCnt := addrCnt[addr := true];
      assert addrCnt == before <==> before[addr];
      if addrCnt == before { cnt := cnt + 1; } else if cnt > 0 { cnt := cnt - 1; }
    }

    /** rds_g2_rt_check_end */
    method CheckEnd(w: Width, addr: nat) returns (end: bool)
      requires Valid() && addr < 16
      ensures end <==> END in Seg(twice[..], w, addr)
    {
      end := false;
      var at := Times(w, addr);
      ghost var s := Seg(twice[..], w, addr);
      var i := 0;
      while i < w
        invariant 0 <= i <= w && !end && END !in s[..i]
      {
        assert s[..i + 1] == s[..i] + [s[i]] && s[i] == twice[at + i];
        if twice[at + i] == END {
          assert END in s;
          return true;
        }
        i := i + 1;
      }
      assert s[..w] == s;
    }

    /** rds_bm_get_pos */
    method BmGetPos() returns (pos: int)
      ensures pos == GetPos(addrCnt)
    {
      var i := 15;
      while i > -1 && !addrCnt[i]
        invariant -1 <= i <= 15 && Highest(addrCnt, 15) == Highest(addrCnt, i)
      {
        i := i - 1;
      }
      var j := i;
      while j >= 0
        invariant -1 <= j <= i && AllSet(addrCnt, i) == AllSet(addrCnt, j)
      {
        if !addrCnt[j] { return -1; }
        j := j - 1;
      }
      pos := i;
    }

    /** The loop that clears the bits behind an end mark: up to max_addr, which stays. */
    method ClearBehind(addr: nat)
      requires addr < 16
      modifies this`addrCnt
      ensures addrCnt == Unset(old(addrCnt), addr + 1, 15)
    {
      ghost var b := addrCnt;
      assert b == Unset(b, addr + 1, addr + 1);
      var i := addr + 1;
      while i < 15
        invariant addr + 1 <= i && (i <= 15 || i == addr + 1)
        invariant addrCnt == Unset(b, addr + 1, i)
      {
        addrCnt := addrCnt[i := false];
        i := i + 1;
      }
      assert addrCnt == Unset(b, addr + 1, 15);
    }

    /** RDS_RT_DECISION */
    method Decision(w: Width, addr: nat, txtEnd: bool) returns (len: Option<nat>)
      requires Valid() && addr < 16 && (txtEnd <==> END in Seg(twice[..], w, addr))
      modifies this`addrCnt
      ensures (addrCnt, len) == Decide(old(View()), w, addr)
    {
      len := None;
      if txtEnd || addrCnt == ALL || cnt > RDS_RT_MULTI_REV_TH {
        var pos := BmGetPos();
        if pos != -1 {
          if addr == pos {
            len := Some(Times(w, pos + 1));
          } else if pos > addr {
            addrCnt := addrCnt[addr + 1 := false];
          }
        }
        if txtEnd { ClearBehind(addr); }
      }
    }

    static method CountSpaces(a: array<byte>, len: nat) returns (n: nat)
      requires len <= a.Length
      ensures n == len <==> AllSpaces(a[..len])
    {
      n := 0;
      for i := 0 to len
        invariant n <= i && (n == i <==> AllSpaces(a[..i]))
      {
        assert a[..i + 1] == a[..i] + [a[i]];
        AllSpacesMore(a[..i], a[i]);
        if a[i] == SPACE { n := n + 1; }
      }
    }

    static method Same(a: array<byte>, b: array<byte>) returns (same: bool)
      requires a.Length == b.Length
      ensures same <==> a[..] == b[..]
    {
      for i := 0 to a.Length
        invariant a[..i] == b[..i]
      {
        if a[i] != b[i] {
          assert a[..][i] != b[..][i];
          return false;
        }
      }
      assert a[..] == a[..a.Length] && b[..] == b[..a.Length];
      same := true;
    }

    method CopyToDisplay()
      requires Valid()
      modifies display
      ensures display[..] == twice[..]
    {
      for i := 0 to SIZE
        invariant display[..i] == twice[..i]
      {
        display[i] := twice[i];
      }
    }

    /** RDS_RT_GETLEN, for a length above 0 */
    method GetLen(len: nat) returns (event: bool)
      requires Valid() && len <= SIZE
      modifies this`addrCnt, this`cnt, this`textLength, latest, once, twice, display
      ensures Valid() && (View(), event) == Show(old(View()), len)
    {
      event := false;
      var invalid := CountSpaces(twice, len);
      assert twice[..][..len] == twice[..len];
      if invalid != len {
        var same := Same(display, twice);
        if !same {
          CopyToDisplay();
          textLength := len;
          event := true;
        }
        Clear();
      }
    }

    /** RDS_RT_START */
    method StartGroup(w: Width, g: Group) returns (txtEnd: bool)
      requires Valid() && ValidGroup(w, g)
      modifies this`addrCnt, this`cnt, latest, once, twice
      ensures Valid() && View() == Compare(old(View()), w, g)
      ensures txtEnd <==> END in Seg(twice[..], w, g.addr)
    {
      ghost var s := View();
      var ok := RtGet(w, g);
      if ok {
        SegOfPut(s.latest, w, g.addr, g.data, g.addr);
        var segOk := RtCmp(w, g.addr);
        if segOk { BmSet(g.addr); } else { addrCnt := addrCnt[g.addr := false]; }
        ComparedIs(s, w, g, segOk, View());
      }
      txtEnd := CheckEnd(w, g.addr);
    }

    method CheckFlag(ab: bool)
      requires Valid()
      modifies this`addrCnt, this`cnt, this`textAb, this`onceDirty, latest, once, twice
      ensures Valid() && View() == CheckAB(old(View()), ab)
    {
      var changed := TxtAbGet(ab);
      if changed { Clear(); }
    }

    /** RDS_RT_DECISION and what follows it. */
    method FinishGroup(w: Width, addr: nat, txtEnd: bool) returns (event: bool)
      requires Valid() && addr < 16 && (txtEnd <==> END in Seg(twice[..], w, addr))
      modifies this`addrCnt, this`cnt, this`textLength, latest, once, twice, display
      ensures Valid() && (View(), event) == Finish(old(View()), w, addr)
    {
      ghost var c := View();
      var len := Decision(w, addr, txtEnd);
      assert View() == c.(bits := Decide(c, w, addr).0);
      event := false;
      if len.Some? { event := GetLen(len.value); }
    }

    method Retrieve(w: Width, g: Group) returns (event: bool)
      requires Valid() && ValidGroup(w, g)
      modifies this`addrCnt, this`cnt, this`textLength, this`textAb, this`onceDirty, latest, once, twice, display
      ensures Valid() && (View(), event) == Receive(old(View()), w, g)
    {
      CheckFlag(g.ab);
      var txtEnd := StartGroup(w, g);
      event := FinishGroup(w, g.addr, txtEnd);
    }

    /** rds_retrieve_g2. Its state machine is back in RDS_RT_START whenever it returns. */
    method RetrieveG2(w: Width, crc: nat, blkB: nat, blkC: nat, blkD: nat) returns (event: bool)
      requires Valid() && blkC < 0x1_0000 && blkD < 0x1_0000
      modifies this`addrCnt, this`cnt, this`textLength, this`textAb, this`onceDirty, latest, once, twice, display
      ensures Valid() && (View(), event) == Receive(old(View()), w, GroupOf(w, crc, blkB, blkC, blkD))
    {
      event := Retrieve(w, GroupOf(w, crc, blkB, blkC, blkD));
    }
  }

  // Compare, part by part
  lemma ComparedIs(s: Rt, w: Width, g: Group, same: bool, r: Rt)
    requires ValidGroup(w, g) && g.good && same == (Seg(s.twice, w, g.addr) == g.data)
    requires r == s.(latest := PutSeg(s.latest, w, g.addr, g.data), once := PutSeg(s.once, w, g.addr, g.data),
                     twice := PutSeg(s.twice, w, g.addr, g.data), bits := r.bits, cnt := r.cnt)
    requires r.bits == s.bits[g.addr := same]
    requires r.cnt == if !same then s.cnt else if s.bits[g.addr] then s.cnt + 1 else if s.cnt > 0 then s.cnt - 1 else 0
    ensures r == Compare(s, w, g)
  {}

  lemma SameWithOneMore(a: seq<byte>, b: seq<byte>, x: byte, y: byte)
    requires |a| == |b|
    ensures a + [x] == b + [y] <==> a == b && x == y
  {
    if a + [x] == b + [y] {
      assert a == (a + [x])[..|a|] && b == (b + [y])[..|b|];
      assert x == (a + [x])[|a|] && y == (b + [y])[|b|];
    }
  }

  lemma AllSpacesMore(t: seq<byte>, x: byte)
    ensures AllSpaces(t + [x]) <==> AllSpaces(t) && x == SPACE
  {
    if AllSpaces(t + [x]) {
      forall k | 0 <= k < |t| ensures t[k] == SPACE { assert (t + [x])[k] == t[k]; }
      assert (t + [x])[|t|] == x;
    }
  }
}
