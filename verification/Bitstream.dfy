/** Packing the configuration fields of a node into words, and slicing the words into packets
    of the width of the configuration bus. Words are sequences of bits, the lowest first. */
module Bitstream {
  import opened Arithmetic
  import Collections

  type Word = seq<bool>

  // A field: how long it is, and its value, the lowest word first.
  datatype CfgData = CfgData(len: nat, data: seq<Word>)

  datatype CfgDataPacket = CfgDataPacket(addr: nat, data: seq<Word>)

  function Zero(width: nat): Word { seq(width, i => false) }

  function Shl(v: Word, k: nat): Word {
    seq(|v|, i requires 0 <= i < |v| => i >= k && v[i - k])
  }

  function Shr(v: Word, k: nat): Word {
    seq(|v|, i requires 0 <= i < |v| => i + k < |v| && v[i + k])
  }

  // The lower half of v is or-ed into the word w.
  function Or(w: Word, v: Word): Word
    requires |w| <= |v|
  {
    seq(|w|, i requires 0 <= i < |w| => w[i] || v[i])
  }

  function Extend(v: Word): Word
    requires |v| == 32
  {
    v + Zero(32)
  }

  // ----- the words of a node

  predicate IsVec(vec: seq<Word>) { forall k | 0 <= k < |vec| :: |vec[k]| == 32 }

  predicate Bit(vec: seq<Word>, x: nat)
    requires IsVec(vec) && x < 32 * |vec|
  {
    vec[x / 32][x % 32]
  }

  // Bit i of the value of a field; words that are not there are zero.
  predicate Value(f: CfgData, i: nat)
    requires IsVec(f.data)
  {
    i < 32 * |f.data| && Bit(f.data, i)
  }

  // The value fits the field.
  predicate Fits(f: CfgData) {
    && f.len > 0 && f.data != [] && IsVec(f.data)
    && forall i: nat | f.len <= i < 32 * |f.data| :: !Value(f, i)
  }

  // The bits of a field at lsb that do not get through: the shift that puts the next word behind
  // what is left of the last one drops its upper bits.
  predicate Lost(lsb: nat, i: nat) { i >= 32 && i % 32 >= 32 - lsb % 32 }

  predicate Sent(f: CfgData, lsb: nat, i: nat)
    requires IsVec(f.data)
  {
    Value(f, i) && !Lost(lsb, i)
  }

  predicate InField(lsb: nat, f: CfgData, x: nat)
    requires IsVec(f.data)
  {
    lsb <= x < lsb + f.len && Sent(f, lsb, x - lsb)
  }

  // What is still to be written when done bits are.
  ghost predicate InHand(f: CfgData, lsb: nat, done: nat, tmpData: Word)
    requires IsVec(f.data)
  {
    |tmpData| == 64 && forall i: nat | i < 64 :: tmpData[i] <==> i < 32 && Sent(f, lsb, done + i)
  }

  // The value goes on with the next word.
  function Refill(tmpData: Word, word: Word, shift: nat): Word
    requires |tmpData| == 64 && |word| == 32
  {
    seq(64, i requires 0 <= i < 64 => tmpData[i] || (i < 32 && Shl(word, shift)[i]))
  }

  // How many bits are done when a word of the value has been used.
  function DoneBy(lsb: nat, dataIdx: nat): nat {
    if dataIdx == 0 then 0 else 32 * dataIdx - lsb % 32
  }

  // Ors the field into the words, from its lowest bit up, word by word.
  method PutField(vec: seq<Word>, lsb: nat, f: CfgData) returns (vec': seq<Word>)
    requires IsVec(vec) && Fits(f) && lsb + f.len <= 32 * |vec|
    ensures IsVec(vec') && |vec'| == |vec|
    ensures forall x: nat | x < 32 * |vec| :: Bit(vec', x) <==> Bit(vec, x) || InField(lsb, f, x)
  {
    vec' := vec;
    var targetIdx, offset, len := lsb / 32, lsb % 32, f.len;
    var tmpData := Extend(f.data[0]);
    var dataIdx, dataLenLeft := 0, 32;
    ghost var done := 0;
    while len > 0
      invariant 0 <= len && done + len == f.len
      invariant len > 0 ==> 0 <= offset < 32 && 0 <= targetIdx && 32 * targetIdx + offset == lsb + done
      invariant len > 0 ==> 0 <= dataIdx && done == DoneBy(lsb, dataIdx) && offset == if dataIdx == 0 then lsb % 32 else 0
      invariant len > 0 && dataIdx < |f.data| ==> dataLenLeft == if dataIdx == 0 then 32 else 32 + lsb % 32
      invariant len > 0 ==> InHand(f, lsb, done, tmpData)
      invariant IsVec(vec') && |vec'| == |vec| && PutUpTo(vec, vec', lsb, f, done)
    {
      ghost var before := vec';
      vec' := vec'[targetIdx := Or(vec'[targetIdx], Shl(tmpData, offset))];
      PutMore(vec, before, vec', lsb, f, done, len, targetIdx, offset, tmpData);
      if len <= 32 - offset {
        done := done + len;
        len := 0;
      } else {
        dataLenLeft := dataLenLeft - (32 - offset);
        targetIdx := targetIdx + 1;
        dataIdx, dataLenLeft, tmpData := NextWord(f, lsb, dataIdx + 1, dataLenLeft, Shr(tmpData, 32 - offset), tmpData);
        done := done + (32 - offset);
        len := len - (32 - offset);
        offset := 0;
      }
    }
  }

  // Puts the next word of the value, if any, behind what is left of the last.
  method NextWord(f: CfgData, ghost lsb: nat, dataIdx: nat, dataLenLeft: int, tmpData: Word, ghost before: Word)
    returns (dataIdx': nat, dataLenLeft': int, tmpData': Word)
    requires IsVec(f.data) && dataIdx > 0 && InHand(f, lsb, DoneBy(lsb, dataIdx - 1), before)
    requires tmpData == Shr(before, if dataIdx == 1 then 32 - lsb % 32 else 32)
    requires dataIdx < |f.data| ==> dataLenLeft == lsb % 32
    ensures dataIdx' == dataIdx && InHand(f, lsb, DoneBy(lsb, dataIdx), tmpData')
    ensures dataIdx < |f.data| ==> dataLenLeft' == 32 + lsb % 32
  {
    dataIdx', dataLenLeft', tmpData' := dataIdx, dataLenLeft, tmpData;
    if dataIdx < |f.data| {
      tmpData' := Refill(tmpData, f.data[dataIdx], dataLenLeft);
      dataLenLeft' := dataLenLeft + 32;
    }
    HandedOn(f, lsb, dataIdx - 1, before);
  }

  // The first bits of the field are in the words.
  ghost predicate PutUpTo(vec: seq<Word>, vec': seq<Word>, lsb: nat, f: CfgData, done: nat)
    requires IsVec(vec) && IsVec(vec') && |vec'| == |vec| && IsVec(f.data)
  {
    forall x: nat | x < 32 * |vec| :: Bit(vec', x) <==> Bit(vec, x) || (InField(lsb, f, x) && x < lsb + done)
  }

  // One word more.
  lemma PutMore(vec: seq<Word>, before: seq<Word>, vec': seq<Word>, lsb: nat, f: CfgData, done: nat, len: nat,
                targetIdx: nat, offset: nat, tmpData: Word)
    requires IsVec(vec) && IsVec(before) && |before| == |vec| && Fits(f) && done + len == f.len && len > 0
    requires PutUpTo(vec, before, lsb, f, done) && InHand(f, lsb, done, tmpData)
    requires offset < 32 && targetIdx < |vec| && 32 * targetIdx + offset == lsb + done
    requires vec' == before[targetIdx := Or(before[targetIdx], Shl(tmpData, offset))]
    ensures IsVec(vec') && PutUpTo(vec, vec', lsb, f, done + if len <= 32 - offset then len else 32 - offset)
  {
    WordWritten(before, vec', targetIdx, offset, tmpData);
    forall x: nat | x < 32 * |vec|
      ensures Written(targetIdx, offset, tmpData, x) <==>
        InField(lsb, f, x) && lsb + done <= x < lsb + done + if len <= 32 - offset then len else 32 - offset
    {
      if x / 32 == targetIdx && x % 32 >= offset {
        assert x - lsb == done + (x % 32 - offset);
        assert x - lsb >= f.len ==> !Value(f, x - lsb);
      }
    }
  }

  // The bits that the lower half of v, shifted by offset, sets in word k.
  predicate Written(k: nat, offset: nat, v: Word, x: nat)
    requires |v| == 64
  {
    x / 32 == k && x % 32 >= offset && v[x % 32 - offset]
  }

  lemma WordWritten(vec: seq<Word>, vec': seq<Word>, k: nat, offset: nat, v: Word)
    requires IsVec(vec) && k < |vec| && |v| == 64
    requires vec' == vec[k := Or(vec[k], Shl(v, offset))]
    ensures IsVec(vec')
    ensures forall x: nat | x < 32 * |vec| :: Bit(vec', x) <==> Bit(vec, x) || Written(k, offset, v, x)
  {}

  // What is in hand when the next word of the value has come in.
  lemma HandedOn(f: CfgData, lsb: nat, dataIdx: nat, tmpData: Word)
    requires IsVec(f.data) && InHand(f, lsb, DoneBy(lsb, dataIdx), tmpData)
    ensures var step := if dataIdx == 0 then 32 - lsb % 32 else 32;
      var rest := Shr(tmpData, step);
      InHand(f, lsb, DoneBy(lsb, dataIdx + 1), if dataIdx + 1 < |f.data| then Refill(rest, f.data[dataIdx + 1], lsb % 32) else rest)
  {
    var step := if dataIdx == 0 then 32 - lsb % 32 else 32;
    var rest := Shr(tmpData, step);
    var next := if dataIdx + 1 < |f.data| then Refill(rest, f.data[dataIdx + 1], lsb % 32) else rest;
    assert |next| == 64;
    forall i: nat | i < 64
      ensures next[i] <==> i < 32 && Sent(f, lsb, DoneBy(lsb, dataIdx + 1) + i)
    {
      assert rest[i] <==> i + step < 32 && Sent(f, lsb, DoneBy(lsb, dataIdx) + (i + step));
      assert next[i] <==> rest[i] || (dataIdx + 1 < |f.data| && lsb % 32 <= i < 32 && f.data[dataIdx + 1][i - lsb % 32]);
      HandedBit(f, lsb, dataIdx, i);
    }
  }

  lemma HandedBit(f: CfgData, lsb: nat, dataIdx: nat, i: nat)
    requires IsVec(f.data) && i < 64
    ensures var step := if dataIdx == 0 then 32 - lsb % 32 else 32;
      i < 32 && Sent(f, lsb, DoneBy(lsb, dataIdx + 1) + i) <==>
        || (i + step < 32 && Sent(f, lsb, DoneBy(lsb, dataIdx) + (i + step)))
        || (dataIdx + 1 < |f.data| && lsb % 32 <= i < 32 && f.data[dataIdx + 1][i - lsb % 32])
  {
    NextBit(lsb, dataIdx, i);
    var o, at := lsb % 32, DoneBy(lsb, dataIdx + 1) + i;
    if o <= i < 32 {
      assert Value(f, at) <==> dataIdx + 1 < |f.data| && f.data[dataIdx + 1][i - o];
    }
  }

  // Where bit i comes from: what was left of the last word, or the lower part of the next.
  lemma NextBit(lsb: nat, dataIdx: nat, i: nat)
    ensures var at := DoneBy(lsb, dataIdx + 1) + i;
      && (i < lsb % 32 && dataIdx > 0 ==> Lost(lsb, at))
      && (i < lsb % 32 && dataIdx == 0 ==> at == 32 - lsb % 32 + i < 32)
      && (lsb % 32 <= i < 32 ==> !Lost(lsb, at) && at / 32 == dataIdx + 1 && at % 32 == i - lsb % 32)
  {
    var o, at := lsb % 32, DoneBy(lsb, dataIdx + 1) + i;
    assert at == 32 * (dataIdx + 1) - o + i;
    if i < o {
      assert at == 32 * dataIdx + (32 - o + i);
    } else if i < 32 {
      assert at == 32 * (dataIdx + 1) + (i - o);
    }
  }

  // Nothing is lost of a field that starts with a word or ends in the second word from its start.
  lemma NothingLost(lsb: nat, len: nat)
    ensures (forall i: nat | i < len :: !Lost(lsb, i)) <==> lsb % 32 == 0 || len <= 64 - lsb % 32
  {
    if lsb % 32 != 0 && len > 64 - lsb % 32 {
      assert Lost(lsb, 64 - lsb % 32);
    }
  }

  // ----- all fields of a node

  // Fields by their lowest bit. They fit and do not overlap.
  ghost predicate FieldsOk(cfg: map<int, CfgData>) {
    && (forall l | l in cfg :: l >= 0 && Fits(cfg[l]))
    && (forall l, m | l in cfg && m in cfg && l < m :: l + cfg[l].len <= m)
  }

  // The fields in the set hold their values in the words, and no other bit is set.
  ghost predicate Holds(cfg: map<int, CfgData>, done: set<int>, vec: seq<Word>)
    requires FieldsOk(cfg) && IsVec(vec) && done <= cfg.Keys
  {
    forall x: nat | x < 32 * |vec| :: Bit(vec, x) <==> InSome(cfg, done, x)
  }

  ghost predicate InSome(cfg: map<int, CfgData>, done: set<int>, x: nat)
    requires FieldsOk(cfg) && done <= cfg.Keys
  {
    exists l :: l in done && InField(l, cfg[l], x)
  }

  method LastKey(cfg: map<int, CfgData>) returns (k: int)
    requires cfg != map[]
    ensures k in cfg && forall l | l in cfg :: l <= k
  {
    k := Collections.Pick(cfg.Keys);
    var todo := cfg.Keys - {k};
    while todo != {}
      invariant k in cfg && todo <= cfg.Keys && forall l | l in cfg && l !in todo :: l <= k
      decreases |todo|
    {
      var l := Collections.Pick(todo);
      k := if l > k then l else k;
      todo := todo - {l};
    }
  }

  // All fields are in the words: the last one ends last.
  ghost predicate Inside(cfg: map<int, CfgData>, words: nat) {
    forall l | l in cfg :: l + cfg[l].len <= 32 * words
  }

  method CountWords(cfg: map<int, CfgData>) returns (num: nat)
    requires FieldsOk(cfg) && cfg != map[]
    ensures Inside(cfg, num)
  {
    var k := LastKey(cfg);
    var totalLen := k + cfg[k].len;
    num := (totalLen + 31) / 32;
    forall l | l in cfg
      ensures l + cfg[l].len <= totalLen
    {
      assert l < k ==> l + cfg[l].len <= k;
    }
  }

  // The packet addresses that a field touches.
  predicate Touches(w: nat, lsb: int, len: nat, addr: int)
    requires w > 0
  {
    lsb / w <= addr < lsb / w + (len + lsb % w + w - 1) / w
  }

  ghost predicate AddrsOf(cfg: map<int, CfgData>, done: set<int>, w: nat, addrs: set<int>)
    requires w > 0 && done <= cfg.Keys
  {
    forall a :: a in addrs <==> exists l :: l in done && Touches(w, l, cfg[l].len, a)
  }

  method FieldAddrs(w: nat, lsb: nat, len: nat, addrs: set<int>) returns (addrs': set<int>)
    requires w > 0
    ensures forall a :: a in addrs' <==> a in addrs || Touches(w, lsb, len, a)
  {
    var targetAddr := lsb / w;
    var addrNum := (len + lsb % w + w - 1) / w;
    addrs' := addrs;
    var i := 0;
    while i < addrNum
      invariant 0 <= i
      invariant i <= addrNum || addrNum < 0
      invariant forall a :: a in addrs' <==> a in addrs || targetAddr <= a < targetAddr + i
    {
      addrs' := addrs' + {targetAddr + i};
      i := i + 1;
    }
  }

  method PackFields(cfg: map<int, CfgData>, w: nat) returns (vec: seq<Word>, addrs: set<int>)
    requires FieldsOk(cfg) && cfg != map[] && w > 0
    ensures IsVec(vec) && Inside(cfg, |vec|)
    ensures Holds(cfg, cfg.Keys, vec) && AddrsOf(cfg, cfg.Keys, w, addrs)
  {
    var num := CountWords(cfg);
    vec := seq(num, i => Zero(32));
    addrs := {};
    var todo := cfg.Keys;
    ghost var done: set<int> := cfg.Keys - todo;
    while todo != {}
      invariant todo <= cfg.Keys && done == cfg.Keys - todo
      invariant IsVec(vec) && |vec| == num && Holds(cfg, done, vec) && AddrsOf(cfg, done, w, addrs)
      decreases |todo|
    {
      var l := Collections.Pick(todo);
      ghost var vec0, addrs0 := vec, addrs;
      vec := PutField(vec, l, cfg[l]);
      addrs := FieldAddrs(w, l, cfg[l].len, addrs);
      HoldsMore(cfg, done, vec0, vec, l);
      AddrsMore(cfg, done, w, addrs0, addrs, l);
      assert done + {l} == cfg.Keys - (todo - {l});
      done := done + {l};
      todo := todo - {l};
    }
    assert done == cfg.Keys;
  }

  lemma HoldsMore(cfg: map<int, CfgData>, done: set<int>, vec: seq<Word>, vec': seq<Word>, l: int)
    requires FieldsOk(cfg) && done <= cfg.Keys && l in cfg && IsVec(vec) && IsVec(vec') && |vec'| == |vec|
    requires Holds(cfg, done, vec)
    requires forall x: nat | x < 32 * |vec| :: Bit(vec', x) <==> Bit(vec, x) || InField(l, cfg[l], x)
    ensures Holds(cfg, done + {l}, vec')
  {}

  lemma AddrsMore(cfg: map<int, CfgData>, done: set<int>, w: nat, addrs: set<int>, addrs': set<int>, l: int)
    requires w > 0 && done <= cfg.Keys && l in cfg && AddrsOf(cfg, done, w, addrs)
    requires forall a :: a in addrs' <==> a in addrs || Touches(w, l, cfg[l].len, a)
    ensures AddrsOf(cfg, done + {l}, w, addrs')
  {}

  // ----- slicing into packets

  // The bus is narrower than a word and divides it, or is some words wide.
  predicate WidthOk(w: nat) {
    w > 0 && if w >= 32 then w % 32 == 0 else 32 % w == 0
  }

  // The low w bits of a word.
  function Mask(v: Word, w: nat): Word {
    seq(|v|, i requires 0 <= i < |v| => i < w && v[i])
  }

  // The data at an address of the node: some words, or a part of one.
  ghost predicate IsSlice(vec: seq<Word>, w: nat, addr: nat, data: seq<Word>)
    requires IsVec(vec) && WidthOk(w)
  {
    if w >= 32 then
      var n := w / 32;
      var first := addr * n;
      && |data| == n
      && forall i {:trigger data[i]} | 0 <= i < n :: data[i] == WordAt(vec, first + i)
    else
      var n := 32 / w;
      addr / n < |vec| && data == [Mask(Shr(vec[addr / n], addr % n * w), w)]
  }

  // Words past the end are zero.
  function WordAt(vec: seq<Word>, idx: int): Word {
    if 0 <= idx < |vec| then vec[idx] else Zero(32)
  }

  method Slice(vec: seq<Word>, w: nat, addr: nat) returns (data: seq<Word>)
    requires IsVec(vec) && WidthOk(w) && (w < 32 ==> addr / (32 / w) < |vec|)
    ensures IsSlice(vec, w, addr, data)
  {
    data := [];
    if w >= 32 {
      var n := w / 32;
      var first := addr * n;
      for i := 0 to n
        invariant |data| == i && forall k | 0 <= k < i :: data[k] == WordAt(vec, first + k)
      {
        var idx := first + i;
        data := data + [if idx < |vec| then vec[idx] else Zero(32)];
      }
    } else {
      var n := 32 / w;
      data := [Mask(Shr(vec[addr / n], addr % n * w), w)];
    }
  }

  // What the node reads of bit x in the data of the packet where it lies.
  predicate ReadBit(data: seq<Word>, w: nat, x: nat)
    requires w > 0
  {
    var k, i := x % w / 32, x % w % 32;
    k < |data| && i < |data[k]| && data[k][i]
  }

  lemma PartOfWord(w: nat, n: nat, x: nat, q: nat, r: nat, a: nat, b: nat)
    requires w * n == 32 && x == w * q + r && r < w && q == n * a + b && b < n
    ensures x / 32 == a && x % 32 == b * w + r
  {
    assert w * q == 32 * a + b * w by {
      assert w * (n * a) == w * n * a;
    }
    assert b * w + w <= 32 by {
      assert (n - 1 - b) * w >= 0;
      assert (n - 1 - b) * w == n * w - w - b * w;
    }
  }

  // Where bit x lies: in the packet, and in the words.
  lemma NarrowBit(w: nat, x: nat)
    requires WidthOk(w) && w < 32
    ensures var n := 32 / w;
      x / w / n == x / 32 && x / w % n * w + x % w == x % 32 && x % w < w
  {
    var n, q, r := 32 / w, x / w, x % w;
    Divided(32, w);
    Divided(x, w);
    Divided(q, n);
    var a, b := q / n, q % n;
    PartOfWord(w, n, x, q, r, a, b);
  }

  lemma WideBit(w: nat, x: nat)
    requires WidthOk(w) && w >= 32
    ensures var n := w / 32;
      x / w * n + x % w / 32 == x / 32 && x % w % 32 == x % 32 && 0 <= x % w / 32 < n
  {
    var n, q, r := w / 32, x / w, x % w;
    assert w == 32 * n && x == w * q + r;
    assert w * q == 32 * (n * q);
    DivShift(n * q, r, 32);
    assert q * n == n * q;
  }

  lemma SliceReads(vec: seq<Word>, w: nat, data: seq<Word>, x: nat)
    requires IsVec(vec) && WidthOk(w) && IsSlice(vec, w, x / w, data) && x < 32 * |vec|
    ensures ReadBit(data, w, x) == Bit(vec, x)
  {
    if w >= 32 {
      WideBit(w, x);
      var k := x % w / 32;
      assert data[k] == WordAt(vec, x / w * (w / 32) + k);
    } else {
      NarrowBit(w, x);
    }
  }

  // The addresses of a field are those of its bits.
  lemma TouchedBits(w: nat, lsb: nat, len: nat, addr: int)
    requires w > 0 && len > 0
    ensures Touches(w, lsb, len, addr) <==> lsb / w <= addr <= (lsb + len - 1) / w
  {
    var q, r := lsb / w, lsb % w;
    assert w * q + r == lsb;
    DivShift(q, r + len - 1, w);
    DivShift(1, r + len - 1, w);
    assert (w * 1 + (r + len - 1)) / w == 1 + (r + len - 1) / w;
  }

  lemma BitTouched(w: nat, lsb: nat, len: nat, x: nat)
    requires w > 0 && lsb <= x < lsb + len
    ensures Touches(w, lsb, len, x / w)
  {
    TouchedBits(w, lsb, len, x / w);
    DivMonotone(lsb, x, w);
    DivMonotone(x, lsb + len - 1, w);
  }

  // No address lies past the words.
  lemma TouchedInside(w: nat, lsb: nat, len: nat, addr: int, words: nat)
    requires WidthOk(w) && len > 0 && lsb + len <= 32 * words && Touches(w, lsb, len, addr)
    ensures addr >= 0 && (w < 32 ==> addr / (32 / w) < words)
  {
    TouchedBits(w, lsb, len, addr);
    DivMonotone(0, lsb, w);
    if w < 32 {
      var x := lsb + len - 1;
      NarrowBit(w, x);
      DivMonotone(addr, x / w, 32 / w);
    }
  }

  // ----- addresses

  // The address of a packet: that of the node's block in front of the one in the node, in 32 bits.
  function PacketAddr(blkIdx: nat, blkOffset: nat, addr: nat): nat {
    BitOr(blkIdx * Pow2(blkOffset) % 0x1_0000_0000, addr)
  }

  // The hardware gives a packet to a block, and to an address in it.
  predicate Selects(packet: nat, blkOffset: nat, blkIdx: nat, addr: nat) {
    packet / Pow2(blkOffset) == blkIdx && packet % Pow2(blkOffset) == addr
  }

  // The block has room for all addresses of the node, and is itself in reach.
  ghost predicate InBlock(cfgMap: map<int, CfgData>, w: nat, blkIdx: nat, blkOffset: nat)
    requires w > 0
  {
    && (blkIdx + 1) * Pow2(blkOffset) <= 0x1_0000_0000
    && forall l, a | l in cfgMap && Touches(w, l, cfgMap[l].len, a) :: a < Pow2(blkOffset)
  }

  lemma AddressFound(blkIdx: nat, blkOffset: nat, addr: nat)
    requires (blkIdx + 1) * Pow2(blkOffset) <= 0x1_0000_0000 && addr < Pow2(blkOffset)
    ensures PacketAddr(blkIdx, blkOffset, addr) == blkIdx * Pow2(blkOffset) + addr
    ensures Selects(PacketAddr(blkIdx, blkOffset, addr), blkOffset, blkIdx, addr)
  {
    var p := Pow2(blkOffset);
    var high := blkIdx * p;
    assert high % 0x1_0000_0000 == high by {
      assert (blkIdx + 1) * p == high + p;
    }
    OrIsSum(blkIdx, blkOffset, addr);
    Parts(blkIdx, p, addr);
  }

  lemma Parts(q: nat, p: nat, r: nat)
    requires r < p
    ensures (q * p + r) / p == q && (q * p + r) % p == r
  {
    assert p * q == q * p;
    DivUnique(q * p + r, p, q);
  }

  // ----- the round trip

  // The packets of a node: at are the addresses in the node, each once.
  ghost predicate SlicesOf(vec: seq<Word>, w: nat, blkIdx: nat, blkOffset: nat, addrs: set<int>, at: seq<nat>, cfg: seq<CfgDataPacket>)
    requires IsVec(vec) && WidthOk(w)
  {
    && |at| == |cfg|
    && (forall i | 0 <= i < |cfg| :: cfg[i].addr == PacketAddr(blkIdx, blkOffset, at[i]) && IsSlice(vec, w, at[i], cfg[i].data))
    && (forall a :: a in addrs <==> a in at)
    && (forall i, j | 0 <= i < j < |at| :: at[i] != at[j])
  }

  // Bit x of the block is read from just one packet, as b.
  ghost predicate BitIs(cfg: seq<CfgDataPacket>, w: nat, blkOffset: nat, blkIdx: nat, x: nat, b: bool)
    requires w > 0
  {
    && (exists k :: 0 <= k < |cfg| && Selects(cfg[k].addr, blkOffset, blkIdx, x / w))
    && (forall k | 0 <= k < |cfg| && Selects(cfg[k].addr, blkOffset, blkIdx, x / w) :: ReadBit(cfg[k].data, w, x) == b)
  }

  // The node with this block reads its fields so; but for the bits that are lost.
  ghost predicate FieldsSent(cfg: seq<CfgDataPacket>, w: nat, blkOffset: nat, blkIdx: nat, cfgMap: map<int, CfgData>)
    requires w > 0 && FieldsOk(cfgMap)
  {
    forall l, i: nat {:trigger Sent(cfgMap[l], l, i)} | l in cfgMap && i < cfgMap[l].len ::
      BitIs(cfg, w, blkOffset, blkIdx, l + i, Sent(cfgMap[l], l, i))
  }

  // It reads the values that were put in.
  ghost predicate FieldsBack(cfg: seq<CfgDataPacket>, w: nat, blkOffset: nat, blkIdx: nat, cfgMap: map<int, CfgData>)
    requires w > 0 && FieldsOk(cfgMap)
  {
    forall l, i: nat {:trigger Value(cfgMap[l], i)} | l in cfgMap && i < cfgMap[l].len ::
      BitIs(cfg, w, blkOffset, blkIdx, l + i, Value(cfgMap[l], i))
  }

  // No bit that is lost is set.
  ghost predicate NoneLost(cfgMap: map<int, CfgData>)
    requires FieldsOk(cfgMap)
  {
    forall l, i: nat {:trigger Value(cfgMap[l], i)} | l in cfgMap && i < cfgMap[l].len && Lost(l, i) :: !Value(cfgMap[l], i)
  }

  ghost predicate DistinctAddrs(cfg: seq<CfgDataPacket>) {
    forall j, k | 0 <= j < k < |cfg| :: cfg[j].addr != cfg[k].addr
  }

  // A packet for an address that a field touches, and all of its bits that are set are bits of fields.
  ghost predicate Clean(p: CfgDataPacket, w: nat, blkOffset: nat, blkIdx: nat, cfgMap: map<int, CfgData>)
    requires w > 0 && FieldsOk(cfgMap)
  {
    exists a: nat :: Selects(p.addr, blkOffset, blkIdx, a) && Touched(cfgMap, w, a) && OnlyFields(p.data, w, a, cfgMap)
  }

  ghost predicate Touched(cfgMap: map<int, CfgData>, w: nat, a: int)
    requires w > 0
  {
    exists l :: l in cfgMap && Touches(w, l, cfgMap[l].len, a)
  }

  ghost predicate OnlyFields(data: seq<Word>, w: nat, a: nat, cfgMap: map<int, CfgData>)
    requires FieldsOk(cfgMap)
  {
    forall k, i | 0 <= k < |data| && 0 <= i < |data[k]| && data[k][i] ::
      32 * k + i < w && InSome(cfgMap, cfgMap.Keys, BitAt(w, a, k, i))
  }

  // The bit of the node that is bit i of word k of the packet with address a.
  function BitAt(w: nat, a: nat, k: nat, i: nat): nat { a * w + 32 * k + i }

  ghost predicate AllClean(cfg: seq<CfgDataPacket>, w: nat, blkOffset: nat, blkIdx: nat, cfgMap: map<int, CfgData>)
    requires w > 0 && FieldsOk(cfgMap)
  {
    forall k | 0 <= k < |cfg| :: Clean(cfg[k], w, blkOffset, blkIdx, cfgMap)
  }

  // A bit that is set in a packet is set in the words.
  lemma WideBitSet(vec: seq<Word>, w: nat, a: nat, data: seq<Word>, k: nat, i: nat)
    requires IsVec(vec) && WidthOk(w) && w >= 32 && IsSlice(vec, w, a, data)
    requires k < |data| && i < |data[k]| && data[k][i]
    ensures 32 * k + i < w && BitAt(w, a, k, i) < 32 * |vec| && Bit(vec, BitAt(w, a, k, i))
  {
    var word := a * (w / 32) + k;
    assert data[k] == WordAt(vec, word);
    assert a * w == 32 * (a * (w / 32));
    var x := 32 * word + i;
    assert x / 32 == word && x % 32 == i;
  }

  lemma NarrowAt(w: nat, n: nat, a: nat, i: nat)
    requires w * n == 32 && n > 0 && i < w
    ensures (a * w + i) / 32 == a / n && (a * w + i) % 32 == a % n * w + i
  {
    Divided(a, n);
    assert w * a == a * w;
    PartOfWord(w, n, a * w + i, a, i, a / n, a % n);
  }

  // A bit that is set in a part of a word.
  lemma PartSet(vec: seq<Word>, q: nat, at: nat, w: nat, i: nat)
    requires IsVec(vec) && q < |vec| && i < 32 && Mask(Shr(vec[q], at), w)[i]
    ensures i < w && forall x: nat | x / 32 == q && x % 32 == at + i :: x < 32 * |vec| && Bit(vec, x)
  {
    assert Shr(vec[q], at)[i] && at + i < 32 && vec[q][at + i];
  }

  lemma NarrowBitSet(vec: seq<Word>, w: nat, a: nat, data: seq<Word>, k: nat, i: nat)
    requires IsVec(vec) && WidthOk(w) && w < 32 && IsSlice(vec, w, a, data)
    requires k < |data| && i < |data[k]| && data[k][i]
    ensures 32 * k + i < w && BitAt(w, a, k, i) < 32 * |vec| && Bit(vec, BitAt(w, a, k, i))
  {
    var n := 32 / w;
    assert w * n == 32 && n > 0 by {
      Divided(32, w);
    }
    var q, at := a / n, a % n * w;
    assert k == 0 && data[0] == Mask(Shr(vec[q], at), w);
    PartSet(vec, q, at, w, i);
    NarrowAt(w, n, a, i);
  }

  lemma SliceIsClean(cfgMap: map<int, CfgData>, vec: seq<Word>, w: nat, a: nat, data: seq<Word>)
    requires FieldsOk(cfgMap) && IsVec(vec) && WidthOk(w) && Holds(cfgMap, cfgMap.Keys, vec) && IsSlice(vec, w, a, data)
    ensures OnlyFields(data, w, a, cfgMap)
  {
    forall k, i | 0 <= k < |data| && 0 <= i < |data[k]| && data[k][i]
      ensures 32 * k + i < w && InSome(cfgMap, cfgMap.Keys, BitAt(w, a, k, i))
    {
      if w >= 32 {
        WideBitSet(vec, w, a, data, k, i);
      } else {
        NarrowBitSet(vec, w, a, data, k, i);
      }
    }
  }

  // All packets go to the block.
  ghost predicate ToBlock(cfg: seq<CfgDataPacket>, blkOffset: nat, blkIdx: nat) {
    forall k | 0 <= k < |cfg| :: cfg[k].addr / Pow2(blkOffset) == blkIdx
  }

  lemma BackIfNoneLost(cfg: seq<CfgDataPacket>, w: nat, blkOffset: nat, blkIdx: nat, cfgMap: map<int, CfgData>)
    requires w > 0 && FieldsOk(cfgMap) && FieldsSent(cfg, w, blkOffset, blkIdx, cfgMap)
    ensures FieldsBack(cfg, w, blkOffset, blkIdx, cfgMap) <==> NoneLost(cfgMap)
  {
    forall l, i: nat | l in cfgMap && i < cfgMap[l].len
      ensures BitIs(cfg, w, blkOffset, blkIdx, l + i, Value(cfgMap[l], i)) <==> Lost(l, i) ==> !Value(cfgMap[l], i)
    {
      assert BitIs(cfg, w, blkOffset, blkIdx, l + i, Sent(cfgMap[l], l, i));
    }
  }

  // The packets of one node. Its block reads every field back just when no set bit is lost, and
  // nothing but fields.
  method GetNodeCfgData(cfgMap: map<int, CfgData>, w: nat, blkIdx: nat, blkOffset: nat) returns (cfg: seq<CfgDataPacket>)
    requires FieldsOk(cfgMap) && WidthOk(w)
    ensures cfgMap == map[] ==> cfg == []
    ensures InBlock(cfgMap, w, blkIdx, blkOffset) ==>
      && FieldsSent(cfg, w, blkOffset, blkIdx, cfgMap) && DistinctAddrs(cfg) && ToBlock(cfg, blkOffset, blkIdx)
      && AllClean(cfg, w, blkOffset, blkIdx, cfgMap)
      && (FieldsBack(cfg, w, blkOffset, blkIdx, cfgMap) <==> NoneLost(cfgMap))
  {
    cfg := [];
    if cfgMap == map[] {
      return;
    }
    var vec, addrs := PackFields(cfgMap, w);
    ghost var at;
    cfg, at := SliceAll(cfgMap, vec, addrs, w, blkIdx, blkOffset);
    if InBlock(cfgMap, w, blkIdx, blkOffset) {
      AllSent(cfgMap, w, vec, addrs, blkIdx, blkOffset, at, cfg);
      BackIfNoneLost(cfg, w, blkOffset, blkIdx, cfgMap);
    }
  }

  method SliceAll(ghost cfgMap: map<int, CfgData>, vec: seq<Word>, addrs: set<int>, w: nat, blkIdx: nat, blkOffset: nat)
    returns (cfg: seq<CfgDataPacket>, ghost at: seq<nat>)
    requires FieldsOk(cfgMap) && WidthOk(w) && IsVec(vec) && Inside(cfgMap, |vec|) && AddrsOf(cfgMap, cfgMap.Keys, w, addrs)
    ensures SlicesOf(vec, w, blkIdx, blkOffset, addrs, at, cfg)
  {
    var highAddr := blkIdx * Pow2(blkOffset) % 0x1_0000_0000;
    cfg, at := [], [];
    var todo := addrs;
    ghost var done: set<int> := addrs - todo;
    while todo != {}
      invariant todo <= addrs && done == addrs - todo
      invariant SlicesOf(vec, w, blkIdx, blkOffset, done, at, cfg)
      decreases |todo|
    {
      var addr := Collections.Pick(todo);
      AddrInside(cfgMap, w, addrs, addr, |vec|);
      var data := Slice(vec, w, addr);
      SliceMore(vec, w, blkIdx, blkOffset, done, at, cfg, addr, data);
      assert done + {addr} == addrs - (todo - {addr});
      cfg := cfg + [CfgDataPacket(BitOr(highAddr, addr), data)];
      at := at + [addr];
      done := done + {addr};
      todo := todo - {addr};
    }
    assert done == addrs;
  }

  lemma SliceMore(vec: seq<Word>, w: nat, blkIdx: nat, blkOffset: nat, addrs: set<int>, at: seq<nat>, cfg: seq<CfgDataPacket>,
                  addr: nat, data: seq<Word>)
    requires IsVec(vec) && WidthOk(w) && SlicesOf(vec, w, blkIdx, blkOffset, addrs, at, cfg)
    requires IsSlice(vec, w, addr, data) && addr !in addrs
    ensures SlicesOf(vec, w, blkIdx, blkOffset, addrs + {addr}, at + [addr], cfg + [CfgDataPacket(PacketAddr(blkIdx, blkOffset, addr), data)])
  {
    forall i | 0 <= i < |at|
      ensures at[i] != addr
    {
      assert at[i] in at;
    }
  }

  lemma AddrInside(cfgMap: map<int, CfgData>, w: nat, addrs: set<int>, addr: int, words: nat)
    requires FieldsOk(cfgMap) && WidthOk(w) && Inside(cfgMap, words) && AddrsOf(cfgMap, cfgMap.Keys, w, addrs) && addr in addrs
    ensures addr >= 0 && (w < 32 ==> addr / (32 / w) < words)
  {
    var l :| l in cfgMap.Keys && Touches(w, l, cfgMap[l].len, addr);
    TouchedInside(w, l, cfgMap[l].len, addr, words);
  }

  // Where the packets of a node go.
  lemma AtIsSelected(cfgMap: map<int, CfgData>, w: nat, vec: seq<Word>, addrs: set<int>, blkIdx: nat, blkOffset: nat,
                     at: seq<nat>, cfg: seq<CfgDataPacket>, k: nat)
    requires FieldsOk(cfgMap) && WidthOk(w) && IsVec(vec) && InBlock(cfgMap, w, blkIdx, blkOffset)
    requires AddrsOf(cfgMap, cfgMap.Keys, w, addrs) && SlicesOf(vec, w, blkIdx, blkOffset, addrs, at, cfg) && k < |cfg|
    ensures cfg[k].addr == blkIdx * Pow2(blkOffset) + at[k] && Selects(cfg[k].addr, blkOffset, blkIdx, at[k])
  {
    assert at[k] in addrs;
    AddressFound(blkIdx, blkOffset, at[k]);
  }

  lemma AllSent(cfgMap: map<int, CfgData>, w: nat, vec: seq<Word>, addrs: set<int>, blkIdx: nat, blkOffset: nat,
                at: seq<nat>, cfg: seq<CfgDataPacket>)
    requires FieldsOk(cfgMap) && WidthOk(w) && IsVec(vec) && Inside(cfgMap, |vec|) && InBlock(cfgMap, w, blkIdx, blkOffset)
    requires Holds(cfgMap, cfgMap.Keys, vec) && AddrsOf(cfgMap, cfgMap.Keys, w, addrs)
    requires SlicesOf(vec, w, blkIdx, blkOffset, addrs, at, cfg)
    ensures FieldsSent(cfg, w, blkOffset, blkIdx, cfgMap) && DistinctAddrs(cfg) && ToBlock(cfg, blkOffset, blkIdx)
    ensures AllClean(cfg, w, blkOffset, blkIdx, cfgMap)
  {
    forall k | 0 <= k < |cfg|
      ensures cfg[k].addr == blkIdx * Pow2(blkOffset) + at[k] && Selects(cfg[k].addr, blkOffset, blkIdx, at[k])
    {
      AtIsSelected(cfgMap, w, vec, addrs, blkIdx, blkOffset, at, cfg, k);
    }
    forall k | 0 <= k < |cfg|
      ensures Clean(cfg[k], w, blkOffset, blkIdx, cfgMap)
    {
      assert at[k] in addrs;
      SliceIsClean(cfgMap, vec, w, at[k], cfg[k].data);
      assert Touched(cfgMap, w, at[k]);
    }
    forall l, i: nat | l in cfgMap && i < cfgMap[l].len
      ensures BitIs(cfg, w, blkOffset, blkIdx, l + i, Sent(cfgMap[l], l, i))
    {
      BitIsSent(cfgMap, w, vec, addrs, blkIdx, blkOffset, at, cfg, l, i);
    }
  }

  lemma BitIsSent(cfgMap: map<int, CfgData>, w: nat, vec: seq<Word>, addrs: set<int>, blkIdx: nat, blkOffset: nat,
                  at: seq<nat>, cfg: seq<CfgDataPacket>, l: int, i: nat)
    requires FieldsOk(cfgMap) && WidthOk(w) && IsVec(vec) && Inside(cfgMap, |vec|)
    requires Holds(cfgMap, cfgMap.Keys, vec) && AddrsOf(cfgMap, cfgMap.Keys, w, addrs)
    requires SlicesOf(vec, w, blkIdx, blkOffset, addrs, at, cfg)
    requires forall k | 0 <= k < |cfg| :: Selects(cfg[k].addr, blkOffset, blkIdx, at[k])
    requires l in cfgMap && i < cfgMap[l].len
    ensures BitIs(cfg, w, blkOffset, blkIdx, l + i, Sent(cfgMap[l], l, i))
  {
    var x := l + i;
    BitTouched(w, l, cfgMap[l].len, x);
    assert x / w in addrs;
    var k :| 0 <= k < |at| && at[k] == x / w;
    assert Selects(cfg[k].addr, blkOffset, blkIdx, x / w);
    FieldBit(cfgMap, vec, l, i);
    forall k | 0 <= k < |cfg| && Selects(cfg[k].addr, blkOffset, blkIdx, x / w)
      ensures ReadBit(cfg[k].data, w, x) == Sent(cfgMap[l], l, i)
    {
      assert Selects(cfg[k].addr, blkOffset, blkIdx, at[k]);
      SliceReads(vec, w, cfg[k].data, x);
    }
  }

  // No other field sets a bit of the field.
  lemma FieldBit(cfgMap: map<int, CfgData>, vec: seq<Word>, l: int, i: nat)
    requires FieldsOk(cfgMap) && IsVec(vec) && Inside(cfgMap, |vec|) && Holds(cfgMap, cfgMap.Keys, vec)
    requires l in cfgMap && i < cfgMap[l].len
    ensures Bit(vec, l + i) == Sent(cfgMap[l], l, i)
  {}

  // ----- the whole array

  // The fields of a node, and the block that it listens to.
  datatype NodeCfg = NodeCfg(blkIdx: nat, fields: map<int, CfgData>)

  // Every node has a block of its own that has room for it.
  ghost predicate BlocksOk(nodes: seq<NodeCfg>, w: nat, blkOffset: nat)
    requires w > 0
  {
    && (forall n | 0 <= n < |nodes| :: FieldsOk(nodes[n].fields) && InBlock(nodes[n].fields, w, nodes[n].blkIdx, blkOffset))
    && (forall n, m | 0 <= n < m < |nodes| :: nodes[n].blkIdx != nodes[m].blkIdx)
  }

  // Every packet goes to the block of a node, and brings it nothing but its fields.
  ghost predicate ToBlocks(cfg: seq<CfgDataPacket>, w: nat, blkOffset: nat, nodes: seq<NodeCfg>)
    requires w > 0
  {
    forall k | 0 <= k < |cfg| :: ToSome(cfg[k], w, blkOffset, nodes)
  }

  ghost predicate ToSome(p: CfgDataPacket, w: nat, blkOffset: nat, nodes: seq<NodeCfg>)
    requires w > 0
  {
    exists n :: 0 <= n < |nodes| && IsFor(p, w, blkOffset, nodes[n])
  }

  ghost predicate IsFor(p: CfgDataPacket, w: nat, blkOffset: nat, node: NodeCfg)
    requires w > 0
  {
    p.addr / Pow2(blkOffset) == node.blkIdx && FieldsOk(node.fields) && Clean(p, w, blkOffset, node.blkIdx, node.fields)
  }

  ghost predicate AllFieldsSent(cfg: seq<CfgDataPacket>, w: nat, blkOffset: nat, nodes: seq<NodeCfg>)
    requires w > 0
  {
    forall n | 0 <= n < |nodes| :: FieldsOk(nodes[n].fields) && FieldsSent(cfg, w, blkOffset, nodes[n].blkIdx, nodes[n].fields)
  }

  // All packets of the array, one node after the other: addresses do not clash, and every node
  // reads its own fields and nothing else.
  method GetCfgData(nodes: seq<NodeCfg>, w: nat, blkOffset: nat) returns (cfg: seq<CfgDataPacket>)
    requires WidthOk(w) && BlocksOk(nodes, w, blkOffset)
    ensures DistinctAddrs(cfg) && ToBlocks(cfg, w, blkOffset, nodes) && AllFieldsSent(cfg, w, blkOffset, nodes)
    ensures forall n | 0 <= n < |nodes| ::
      FieldsBack(cfg, w, blkOffset, nodes[n].blkIdx, nodes[n].fields) <==> NoneLost(nodes[n].fields)
  {
    cfg := [];
    for i := 0 to |nodes|
      invariant DistinctAddrs(cfg) && ToBlocks(cfg, w, blkOffset, nodes[..i]) && AllFieldsSent(cfg, w, blkOffset, nodes[..i])
    {
      var more := GetNodeCfgData(nodes[i].fields, w, nodes[i].blkIdx, blkOffset);
      assert nodes[..i + 1] == nodes[..i] + [nodes[i]];
      OneNodeMore(nodes[..i], nodes[i], w, blkOffset, cfg, more);
      cfg := cfg + more;
    }
    assert nodes[..|nodes|] == nodes;
    forall n | 0 <= n < |nodes|
      ensures FieldsBack(cfg, w, blkOffset, nodes[n].blkIdx, nodes[n].fields) <==> NoneLost(nodes[n].fields)
    {
      BackIfNoneLost(cfg, w, blkOffset, nodes[n].blkIdx, nodes[n].fields);
    }
  }

  lemma OneNodeMore(nodes: seq<NodeCfg>, node: NodeCfg, w: nat, blkOffset: nat, cfg: seq<CfgDataPacket>, more: seq<CfgDataPacket>)
    requires w > 0 && DistinctAddrs(cfg) && ToBlocks(cfg, w, blkOffset, nodes) && AllFieldsSent(cfg, w, blkOffset, nodes)
    requires DistinctAddrs(more) && ToBlock(more, blkOffset, node.blkIdx)
    requires FieldsOk(node.fields) && FieldsSent(more, w, blkOffset, node.blkIdx, node.fields)
    requires AllClean(more, w, blkOffset, node.blkIdx, node.fields)
    requires forall n | 0 <= n < |nodes| :: nodes[n].blkIdx != node.blkIdx
    ensures DistinctAddrs(cfg + more) && ToBlocks(cfg + more, w, blkOffset, nodes + [node])
    ensures AllFieldsSent(cfg + more, w, blkOffset, nodes + [node])
  {
    OthersApart(nodes, node, w, blkOffset, cfg, more);
    forall n | 0 <= n < |nodes|
      ensures FieldsSent(cfg + more, w, blkOffset, nodes[n].blkIdx, nodes[n].fields)
    {
      assert FieldsSent(cfg, w, blkOffset, nodes[n].blkIdx, nodes[n].fields);
      SentInFront(cfg, more, w, blkOffset, nodes[n].blkIdx, nodes[n].fields);
    }
    SentBehind(cfg, more, w, blkOffset, node.blkIdx, node.fields);
  }

  lemma OthersApart(nodes: seq<NodeCfg>, node: NodeCfg, w: nat, blkOffset: nat, cfg: seq<CfgDataPacket>, more: seq<CfgDataPacket>)
    requires w > 0 && DistinctAddrs(cfg) && ToBlocks(cfg, w, blkOffset, nodes)
    requires DistinctAddrs(more) && ToBlock(more, blkOffset, node.blkIdx)
    requires FieldsOk(node.fields) && AllClean(more, w, blkOffset, node.blkIdx, node.fields)
    requires forall n | 0 <= n < |nodes| :: nodes[n].blkIdx != node.blkIdx
    ensures DistinctAddrs(cfg + more) && ToBlocks(cfg + more, w, blkOffset, nodes + [node])
    ensures forall k | 0 <= k < |cfg| :: cfg[k].addr / Pow2(blkOffset) != node.blkIdx
  {
    var all := nodes + [node];
    forall k | 0 <= k < |cfg + more|
      ensures ToSome((cfg + more)[k], w, blkOffset, all)
    {
      if k < |cfg| {
        assert ToSome(cfg[k], w, blkOffset, nodes);
        var n :| 0 <= n < |nodes| && IsFor(cfg[k], w, blkOffset, nodes[n]);
        assert all[n] == nodes[n];
      } else {
        assert IsFor(more[k - |cfg|], w, blkOffset, node);
        assert all[|nodes|] == node;
      }
    }
    forall k | 0 <= k < |cfg|
      ensures cfg[k].addr / Pow2(blkOffset) != node.blkIdx
    {
      assert ToSome(cfg[k], w, blkOffset, nodes);
    }
    forall j, k | 0 <= j < k < |cfg + more|
      ensures (cfg + more)[j].addr != (cfg + more)[k].addr
    {
      assert k >= |cfg| ==> (cfg + more)[k] == more[k - |cfg|];
    }
  }

  // Packets for other blocks do not matter.
  lemma SentInFront(cfg: seq<CfgDataPacket>, more: seq<CfgDataPacket>, w: nat, blkOffset: nat, blkIdx: nat, fields: map<int, CfgData>)
    requires w > 0 && FieldsOk(fields) && FieldsSent(cfg, w, blkOffset, blkIdx, fields)
    requires forall k | 0 <= k < |more| :: more[k].addr / Pow2(blkOffset) != blkIdx
    ensures FieldsSent(cfg + more, w, blkOffset, blkIdx, fields)
  {
    forall l, i: nat | l in fields && i < fields[l].len
      ensures BitIs(cfg + more, w, blkOffset, blkIdx, l + i, Sent(fields[l], l, i))
    {
      assert BitIs(cfg, w, blkOffset, blkIdx, l + i, Sent(fields[l], l, i));
      var k :| 0 <= k < |cfg| && Selects(cfg[k].addr, blkOffset, blkIdx, (l + i) / w);
      assert (cfg + more)[k] == cfg[k];
    }
  }

  lemma SentBehind(cfg: seq<CfgDataPacket>, more: seq<CfgDataPacket>, w: nat, blkOffset: nat, blkIdx: nat, fields: map<int, CfgData>)
    requires w > 0 && FieldsOk(fields) && FieldsSent(more, w, blkOffset, blkIdx, fields)
    requires forall k | 0 <= k < |cfg| :: cfg[k].addr / Pow2(blkOffset) != blkIdx
    ensures FieldsSent(cfg + more, w, blkOffset, blkIdx, fields)
  {
    forall l, i: nat | l in fields && i < fields[l].len
      ensures BitIs(cfg + more, w, blkOffset, blkIdx, l + i, Sent(fields[l], l, i))
    {
      assert BitIs(more, w, blkOffset, blkIdx, l + i, Sent(fields[l], l, i));
      var k :| 0 <= k < |more| && Selects(more[k].addr, blkOffset, blkIdx, (l + i) / w);
      assert (cfg + more)[|cfg| + k] == more[k];
    }
  }

  // ----- long fields

  // A constant of some length, cut into words: the shift to the next word is never assigned.
  method ConstField(imm: Word, len: nat) returns (f: CfgData)
    requires |imm| == 64 && 0 < len < 64
    ensures f.len == len && IsVec(f.data)
    ensures (forall i: nat | i < len :: Value(f, i) == imm[i]) <==> forall i | 32 <= i < len :: imm[i] == imm[i - 32]
    ensures Fits(f) <==> len <= 32 || forall i | len - 32 <= i < 32 :: !imm[i]
  {
    var value := Mask(imm, len);
    var data: seq<Word> := [];
    var left: int := len;
    while left > 0
      invariant left == len - 32 * |data| && left > -32
      invariant forall k | 0 <= k < |data| :: data[k] == value[..32]
    {
      data := data + [value[..32]];
      left := left - 32;
    }
    f := CfgData(len, data);
    CopiesOfWord(f, value, imm);
  }

  lemma CopiesOfWord(f: CfgData, value: Word, imm: Word)
    requires |imm| == 64 && 0 < f.len < 64 && value == Mask(imm, f.len)
    requires |f.data| == (if f.len <= 32 then 1 else 2) && forall k | 0 <= k < |f.data| :: f.data[k] == value[..32]
    ensures IsVec(f.data)
    ensures (forall i: nat | i < f.len :: Value(f, i) == imm[i]) <==> forall i | 32 <= i < f.len :: imm[i] == imm[i - 32]
    ensures Fits(f) <==> f.len <= 32 || forall i | f.len - 32 <= i < 32 :: !imm[i]
  {
    forall i: nat | i < 32 * |f.data|
      ensures Value(f, i) == value[i % 32]
    {}
    if f.len > 32 {
      forall i: nat | 32 <= i < 64
        ensures Value(f, i) == imm[i - 32]
      {}
      forall i | f.len - 32 <= i < 32 && Fits(f)
        ensures !imm[i]
      {
        assert !Value(f, i + 32);
      }
    }
  }

  // A constant of 40 bits of which only bit 32 is set: the field is zero.
  method WideConstantIsCut() returns (imm: Word, f: CfgData)
    ensures |imm| == 64 && imm[32] && f.len == 40 && IsVec(f.data) && exists i: nat :: i < f.len && Value(f, i) != imm[i]
  {
    imm := seq(64, i => i == 32);
    f := ConstField(imm, 40);
    assert imm[32] != imm[32 - 32];
  }

  // A field of two words at bit 8, all set in the upper word: its last eight bits read as zero.
  method LongFieldIsCut() returns (cfgMap: map<int, CfgData>, cfg: seq<CfgDataPacket>)
    ensures FieldsOk(cfgMap) && 8 in cfgMap && Value(cfgMap[8], 56) && BitIs(cfg, 32, 2, 0, 64, false)
  {
    var f := CfgData(64, [Zero(32), seq(32, i => true)]);
    cfgMap := map[8 := f];
    cfg := GetNodeCfgData(cfgMap, 32, 0, 2);
    assert InBlock(cfgMap, 32, 0, 2);
    assert Lost(8, 56) && !Sent(cfgMap[8], 8, 56);
  }
}
