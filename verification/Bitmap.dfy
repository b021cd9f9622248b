// lib/kernel/bitmap.c: the byte-array bitmap that every allocator of the kernel scans.

module Bitmaps {

  // ---------------------------------------------------------------- bit sequences

  /** A run of `n` clear bits starts at `i`. */
  ghost predicate ClearRun(bits: seq<bool>, i: int, n: nat) {
    0 <= i && i + n <= |bits| && forall k :: i <= k < i + n ==> !bits[k]
  }

  /** `i` starts the leftmost run of `n` clear bits. */
  ghost predicate Leftmost(bits: seq<bool>, i: int, n: nat) {
    ClearRun(bits, i, n) && forall j :: 0 <= j < i ==> !ClearRun(bits, j, n)
  }

  ghost predicate NoRun(bits: seq<bool>, n: nat) {
    forall j :: !ClearRun(bits, j, n)
  }

  /** Index of the first clear bit, or the length when every bit is set. */
  function FirstClear(bits: seq<bool>): (i: nat)
    ensures i <= |bits|
    ensures forall k :: 0 <= k < i ==> bits[k]
    ensures i < |bits| ==> !bits[i]
  {
    if bits == [] then 0
    else if !bits[0] then 0
    else 1 + FirstClear(bits[1..])
  }

  // ---------------------------------------------------------------- bytes

  /** The mask BITMAP_MASK << k of bit k of a byte. */
  function Mask(k: nat): bv8
    requires k < 8
  {
    if k == 0 then 1 else if k == 1 then 2 else if k == 2 then 4 else if k == 3 then 8
    else if k == 4 then 16 else if k == 5 then 32 else if k == 6 then 64 else 128
  }

  predicate Masked(b: bv8, m: bv8) {
    b & m != 0
  }

  predicate Bit(b: bv8, k: nat)
    requires k < 8
  {
    Masked(b, Mask(k))
  }

  /** The test against 0xff that skips a byte is the test that its eight bits are set. */
  lemma FullByte(b: bv8)
    ensures b == 0xff <==> forall k: nat :: k < 8 ==> Bit(b, k)
  {
    if forall k: nat :: k < 8 ==> Bit(b, k) {
      assert Bit(b, 0) && Bit(b, 1) && Bit(b, 2) && Bit(b, 3);
      assert Bit(b, 4) && Bit(b, 5) && Bit(b, 6) && Bit(b, 7);
    }
  }

  /** The byte with the mask's bits set, and with them cleared. */
  function With(b: bv8, m: bv8): bv8 { b | m }

  function Less(b: bv8, m: bv8): bv8 { b & !m }

  lemma OwnMask(b: bv8, m: bv8)
    requires m != 0
    ensures Masked(With(b, m), m) && !Masked(Less(b, m), m)
  {
    assert (b | m) & m == m && (b & !m) & m == 0;
  }

  lemma OtherMask(b: bv8, m: bv8, n: bv8)
    requires m & n == 0
    ensures Masked(With(b, m), n) == Masked(b, n) && Masked(Less(b, m), n) == Masked(b, n)
  {
    assert (b | m) & n == b & n && (b & !m) & n == b & n;
  }

  lemma MasksApart(j: nat, k: nat)
    requires j < 8 && k < 8
    ensures Mask(j) != 0 && (j != k ==> Mask(j) & Mask(k) == 0)
  {
  }

  /** Setting or clearing one bit of a byte through its mask leaves the other seven alone. */
  lemma SetBit(b: bv8, j: nat, k: nat)
    requires j < 8 && k < 8
    ensures Bit(With(b, Mask(j)), k) == (j == k || Bit(b, k))
    ensures Bit(Less(b, Mask(j)), k) == (j != k && Bit(b, k))
  {
    hide Mask, Masked, With, Less;
    MasksApart(j, k);
    if j == k {
      OwnMask(b, Mask(j));
    } else {
      OtherMask(b, Mask(j), Mask(k));
    }
  }

  /** Bit k of a byte array. */
  predicate BitAt(bytes: seq<bv8>, k: nat)
    requires k < 8 * |bytes|
  {
    Bit(bytes[k / 8], k % 8)
  }

  function BitSeq(bytes: seq<bv8>, n: nat): (s: seq<bool>)
    requires n <= 8 * |bytes|
    ensures |s| == n && forall k :: 0 <= k < n ==> s[k] == BitAt(bytes, k)
  {
    seq(n, k requires 0 <= k < n => BitAt(bytes, k))
  }

  lemma Position(byte: nat, idx: nat)
    requires idx < 8
    ensures (8 * byte + idx) / 8 == byte && (8 * byte + idx) % 8 == idx
  {
  }

  /** Rewriting byte i / 8 through the mask of bit i % 8 changes bit i of the array and no other. */
  lemma SetAt(bytes: seq<bv8>, i: nat, value: bool, after: seq<bv8>)
    requires i < 8 * |bytes|
    requires after == bytes[i / 8 := if value then With(bytes[i / 8], Mask(i % 8)) else Less(bytes[i / 8], Mask(i % 8))]
    ensures forall k: nat :: k < 8 * |bytes| ==> BitAt(after, k) == if k == i then value else BitAt(bytes, k)
  {
    hide Mask, With, Less, Bit;
    forall k: nat | k < 8 * |bytes|
      ensures BitAt(after, k) == if k == i then value else BitAt(bytes, k)
    {
      if k / 8 == i / 8 {
        SetBit(bytes[i / 8], i % 8, k % 8);
      }
    }
  }

  /** What a scan can do: stop the kernel on its ASSERT, report -1, or return an index. */
  datatype ScanResult = Halted | Missing | Found(index: nat)

  /**
   * struct bitmap.  `bits` is the memory the pointer leads to, of which the first `len` bytes are
   * the map.  The scan may look one byte further (it tests the byte before the index, and the last
   * trip of its run search tests bit len*8), so that byte belongs to the model: its content is whatever
   * the neighbouring object holds.
   */
  class Bitmap {
    var bits: array<bv8>
    var len: nat

    ghost predicate Valid()
      reads this
    {
      len < bits.Length
    }

    /** The bits of the map followed by the first bit after it. */
    ghost function WithGuard(): (s: seq<bool>)
      requires Valid()
      reads this, bits
      ensures |s| == 8 * len + 1
    {
      BitSeq(bits[..], 8 * len + 1)
    }

    /** The map itself. */
    ghost function Bits(): (s: seq<bool>)
      requires Valid()
      reads this, bits
      ensures |s| == 8 * len
    {
      WithGuard()[..8 * len]
    }

    constructor (memory: array<bv8>, bytes: nat)
      requires bytes < memory.Length
      ensures Valid() && bits == memory && len == bytes
    {
      bits := memory;
      len := bytes;
    }

    /** bitmap_init */
    method Init()
      requires Valid()
      modifies bits
      ensures Bits() == seq(8 * len, _ => false)
      ensures bits[len..] == old(bits[len..])
    {
      var i := 0;
      while i < len
        invariant 0 <= i <= len
        invariant forall k :: 0 <= k < i ==> bits[k] == 0
        invariant bits[len..] == old(bits[len..])
      {
        bits[i] := 0;
        i := i + 1;
      }
      forall k | 0 <= k < 8 * len ensures !Bits()[k] {
        assert bits[k / 8] == 0;
        assert 0 & Mask(k % 8) == 0;
      }
    }

    /** bitmap_scan_test */
    method Test(i: nat) returns (set_: bool)
      requires Valid() && i <= 8 * len
      ensures set_ == WithGuard()[i]
    {
      var byte, odd := i / 8, i % 8;
      set_ := bits[byte] & Mask(odd) != 0;
    }

    /** bitmap_set */
    method Set(i: nat, value: bool)
      requires Valid() && i < 8 * len
      modifies bits
      ensures WithGuard() == old(WithGuard())[i := value]
    {
      hide Mask, Bit, With, Less;
      var byte, odd := i / 8, i % 8;
      if value {
        bits[byte] := With(bits[byte], Mask(odd));
      } else {
        bits[byte] := Less(bits[byte], Mask(odd));
      }
      assert bits[..] == old(bits[..])[byte := bits[byte]];
      SetAt(old(bits[..]), i, value, bits[..]);
    }

    /** bitmap_scan: byte skipping, then bits of the byte, then the run search. */
    method Scan(cnt: nat) returns (r: ScanResult)
      requires Valid() && cnt >= 1
      ensures r.Halted? <==> FirstClear(Bits()) == 8 * len
      ensures cnt == 1 && !r.Halted? ==> r == Found(FirstClear(Bits()))
      ensures cnt > 1 && r.Found? ==> Leftmost(WithGuard(), r.index, cnt)
      ensures cnt > 1 && r.Missing? ==> NoRun(WithGuard(), cnt)
    {
      ghost var all := WithGuard();
      var byte := 0;
      while bits[byte] == 0xff && byte < len
        invariant 0 <= byte <= len
        invariant forall k :: 0 <= k < 8 * byte ==> all[k]
        decreases len - byte
      {
        FullByte(bits[byte]);
        byte := byte + 1;
      }
      if !(byte < len) {
        FirstClearIs(Bits(), 8 * len);
        return Halted;
      }
      var idx := FirstInByte(byte);
      var start := 8 * byte + idx;
      FirstClearIs(Bits(), start);
      if cnt == 1 {
        return Found(start);
      }
      TailStart(all, start, cnt);
      r := RunSearch(start, cnt, all);
    }

    /** The bit loop of bitmap_scan inside a byte that is not full. */
    method FirstInByte(byte: nat) returns (idx: nat)
      requires Valid() && byte < len && bits[byte] != 0xff
      ensures idx < 8 && !WithGuard()[8 * byte + idx]
      ensures forall k :: 8 * byte <= k < 8 * byte + idx ==> WithGuard()[k]
    {
      hide Bit, Mask;
      FullByte(bits[byte]);
      ghost var clear: nat :| clear < 8 && !Bit(bits[byte], clear);
      idx := 0;
      while Bit(bits[byte], idx)
        invariant idx <= clear
        invariant forall k :: 8 * byte <= k < 8 * byte + idx ==> WithGuard()[k]
        decreases clear - idx
      {
        Position(byte, idx);
        idx := idx + 1;
      }
      Position(byte, idx);
    }

    /** The second half of bitmap_scan: count consecutive clear bits from the first clear one on. */
    method RunSearch(start: nat, cnt: nat, ghost all: seq<bool>) returns (r: ScanResult)
      requires Valid() && start < 8 * len && cnt > 1 && all == WithGuard()
      requires Tail(all, start + 1, 1, cnt)
      ensures !r.Halted?
      ensures r.Found? ==> Leftmost(all, r.index, cnt)
      ensures r.Missing? ==> NoRun(all, cnt)
    {
      hide Tail, NoRun, Leftmost, BitSeq, ClearRun;
      var left := 8 * len - start;
      var next := start + 1;
      var count := 1;
      while left > 0
        invariant start < next && 0 <= left && next + left == 8 * len + 1 && count < cnt && count <= next
        invariant Tail(all, next, count, cnt)
      {
        left := left - 1;
        var taken := Test(next);
        TailStep(all, next, count, cnt);
        if !taken {
          count := count + 1;
        } else {
          count := 0;
        }
        if count == cnt {
          return Found(next - cnt + 1);
        }
        next := next + 1;
      }
      TailEnd(all, count, cnt);
      return Missing;
    }
  }

  /** The clear bits that end just before `next` number exactly `count`, and no run of n ends before them. */
  ghost predicate Tail(all: seq<bool>, next: nat, count: nat, n: nat) {
    && count <= next <= |all|
    && (forall k :: next - count <= k < next ==> !all[k])
    && (next - count > 0 ==> all[next - count - 1])
    && (forall j :: 0 <= j && j + n <= next ==> !ClearRun(all, j, n))
  }

  lemma TailStart(all: seq<bool>, start: nat, n: nat)
    requires start < |all| && n > 1 && !all[start] && forall k :: 0 <= k < start ==> all[k]
    ensures Tail(all, start + 1, 1, n)
  {
    forall j | 0 <= j && j + n <= start + 1 ensures !ClearRun(all, j, n) {
      assert all[j];
    }
  }

  /** One trip of the run search. */
  lemma TailStep(all: seq<bool>, next: nat, count: nat, n: nat)
    requires n > 1 && count < n && next < |all| && Tail(all, next, count, n)
    ensures all[next] ==> Tail(all, next + 1, 0, n)
    ensures !all[next] && count + 1 < n ==> Tail(all, next + 1, count + 1, n)
    ensures !all[next] && count + 1 == n ==> Leftmost(all, next + 1 - n, n)
  {
    NoRunBefore(all, next, count, n);
    if all[next] {
      NoRunBefore(all, next + 1, 0, n);
    } else if count + 1 < n {
      NoRunBefore(all, next + 1, count + 1, n);
    } else {
      forall j | 0 <= j < next + 1 - n ensures !ClearRun(all, j, n) {
        assert j + n <= next;
      }
    }
  }

  lemma TailEnd(all: seq<bool>, count: nat, n: nat)
    requires Tail(all, |all|, count, n)
    ensures NoRun(all, n)
  {
    forall j ensures !ClearRun(all, j, n) {
      assert 0 <= j && j + n <= |all| ==> !ClearRun(all, j, n);
    }
  }

  /** A clear tail shorter than n, and no run ending earlier: no run ends at `next` either. */
  lemma NoRunBefore(all: seq<bool>, next: nat, count: nat, n: nat)
    requires count < n && count <= next <= |all|
    requires next - count > 0 ==> all[next - count - 1]
    requires forall j :: 0 <= j && j + n < next ==> !ClearRun(all, j, n)
    ensures forall j :: 0 <= j && j + n <= next ==> !ClearRun(all, j, n)
  {
    forall j | 0 <= j && j + n == next ensures !ClearRun(all, j, n) {
      assert all[next - count - 1] && j <= next - count - 1 < j + n;
    }
  }

  lemma {:induction false} FirstClearIs(s: seq<bool>, i: nat)
    requires i <= |s| && (forall k :: 0 <= k < i ==> s[k]) && (i < |s| ==> !s[i])
    ensures FirstClear(s) == i
  {
    if i > 0 {
      assert s[0];
      FirstClearIs(s[1..], i - 1);
    }
  }

  /**
   * When the intended answer and the code's answer differ.  The scan looks for a run in the map
   * extended by the guard bit; the caller wants a run inside the map.  For every map in which no run of
   * `n` bits exists, the scan reports a run exactly when the guard bit and the last n - 1 bits are clear.
   */
  lemma OverrunExactly(map_: seq<bool>, guard: bool, n: nat, i: int)
    requires n > 1
    ensures NoRun(map_, n) ==>
      (Leftmost(map_ + [guard], i, n)
       <==> !guard && i == |map_| - (n - 1) && ClearRun(map_, i, n - 1))
    ensures Leftmost(map_, i, n) ==> Leftmost(map_ + [guard], i, n)
    ensures guard ==> (Leftmost(map_ + [guard], i, n) <==> Leftmost(map_, i, n))
  {
    var all := map_ + [guard];
    forall j
      ensures ClearRun(all, j, n) <==>
              ClearRun(map_, j, n) || (!guard && j == |map_| - (n - 1) && ClearRun(map_, j, n - 1))
    {
      if ClearRun(all, j, n) && j + n == |all| {
        assert !all[|map_|];
        forall k | j <= k < j + n - 1 ensures !map_[k] { assert !all[k]; }
      } else if ClearRun(all, j, n) {
        forall k | j <= k < j + n ensures !map_[k] { assert !all[k]; }
      }
    }
  }

  // ---------------------------------------------------------------- the scan as a function

  /** The first place at or after `from` where n clear bits start, or the length of the map. */
  function FirstRun(bits: seq<bool>, n: nat, from: nat): (r: nat)
    requires from <= |bits|
    ensures from <= r <= |bits| && forall j :: from <= j < r ==> !ClearRun(bits, j, n)
    ensures r < |bits| ==> ClearRun(bits, r, n)
    decreases |bits| - from
  {
    if from == |bits| then from
    else if from + n <= |bits| && forall k :: from <= k < from + n ==> !bits[k] then from
    else FirstRun(bits, n, from + 1)
  }

  /** bitmap_scan: the code's three outcomes.  Its last trip looks at the guard bit behind the map. */
  function ScanOf(bits: seq<bool>, guard: bool, n: nat): ScanResult {
    if FirstClear(bits) == |bits| then Halted
    else if FirstRun(bits + [guard], n, 0) == |bits| + 1 then Missing
    else Found(FirstRun(bits + [guard], n, 0))
  }

  /** What Scan promises determines its answer: it is ScanOf. */
  lemma ScanAgrees(map_: seq<bool>, guard: bool, n: nat, r: ScanResult)
    requires n >= 1 && (r.Halted? <==> FirstClear(map_) == |map_|)
    requires n == 1 && !r.Halted? ==> r == Found(FirstClear(map_))
    requires n > 1 && r.Found? ==> Leftmost(map_ + [guard], r.index, n)
    requires n > 1 && r.Missing? ==> NoRun(map_ + [guard], n)
    ensures r == ScanOf(map_, guard, n)
  {
    hide FirstClear, FirstRun;
    var all := map_ + [guard];
    var k := FirstRun(all, n, 0);
    if !r.Halted? && n == 1 {
      assert ClearRun(all, r.index, 1);
      assert k < |all| ==> !all[k];
      assert forall j :: 0 <= j < r.index ==> all[j];
    }
  }

  /** The scan reports a run that reaches behind the map. */
  ghost predicate Overruns(bits: seq<bool>, guard: bool, n: nat) {
    && n > 1 && FirstClear(bits) < |bits| && FirstRun(bits, n, 0) == |bits|
    && !guard && n - 1 <= |bits| && ClearRun(bits, |bits| - (n - 1), n - 1)
  }

  /** What the answer means for the map itself. */
  lemma ScanMeans(bits: seq<bool>, guard: bool, n: nat)
    requires n >= 1
    ensures var r := ScanOf(bits, guard, n);
            && (r.Halted? <==> FirstClear(bits) == |bits|)
            && (r.Found? && r.index + n <= |bits| ==>
                Leftmost(bits, r.index, n) && FirstRun(bits, n, 0) < |bits| && !Overruns(bits, guard, n))
            && (r.Found? && r.index + n > |bits| ==> r.index + n == |bits| + 1 && Overruns(bits, guard, n))
            && (r.Missing? ==> NoRun(bits, n) && FirstRun(bits, n, 0) == |bits| && !Overruns(bits, guard, n))
  {
    hide FirstClear, FirstRun;
    var all := bits + [guard];
    var r, k := FirstRun(all, n, 0), FirstRun(bits, n, 0);
    forall j: nat ensures ClearRun(bits, j, n) ==> ClearRun(all, j, n) {
      InGuarded(bits, guard, n, j);
    }
    if n == 1 {
      OneBit(bits, guard);
    } else {
      OverrunExactly(bits, guard, n, |bits| - (n - 1));
      if r < |all| {
        Guarded(bits, guard, n, r);
      }
    }
  }

  lemma OneBit(bits: seq<bool>, guard: bool)
    ensures FirstClear(bits) < |bits| ==>
              FirstRun(bits + [guard], 1, 0) < |bits| && Leftmost(bits, FirstRun(bits + [guard], 1, 0), 1)
                  && FirstRun(bits, 1, 0) < |bits|
  {
    hide FirstClear, FirstRun;
    var all, i := bits + [guard], FirstClear(bits);
    if i < |bits| {
      assert ClearRun(all, i, 1) && ClearRun(bits, i, 1);
      var r := FirstRun(all, 1, 0);
      assert r <= i && ClearRun(all, r, 1) && !all[r] && ClearRun(bits, r, 1);
      forall j | 0 <= j < r ensures !ClearRun(bits, j, 1) {
        assert !ClearRun(all, j, 1);
        assert bits[j] == all[j];
      }
    }
  }

  lemma InGuarded(bits: seq<bool>, guard: bool, n: nat, k: nat)
    ensures ClearRun(bits, k, n) ==> ClearRun(bits + [guard], k, n)
  {
  }

  lemma Guarded(bits: seq<bool>, guard: bool, n: nat, r: nat)
    requires n > 1 && ClearRun(bits + [guard], r, n)
    ensures r + n <= |bits| ==> ClearRun(bits, r, n)
    ensures r + n > |bits| ==> r + n == |bits| + 1 && !guard && ClearRun(bits, r, n - 1)
  {
    var all := bits + [guard];
    assert r + n == |bits| + 1 ==> all[|bits|] == guard;
    assert forall j :: r <= j < r + n && j < |bits| ==> !bits[j] by {
      forall j | r <= j < r + n && j < |bits| ensures !bits[j] {
        assert !all[j];
      }
    }
  }

  /** One byte with only its last bit clear. */
  function LastBitClear(): seq<bool> {
    seq(7, _ => true) + [false]
  }

  /**
   * On such a map with a clear byte behind it, a scan for two bits answers 7, although the map has no two clear bits.
   */
  lemma OverrunOnOneByte()
    ensures BitSeq([0x7f], 8) == LastBitClear() && FirstClear(LastBitClear()) == 7
    ensures NoRun(LastBitClear(), 2) && Overruns(LastBitClear(), false, 2) && FirstRun(LastBitClear(), 2, 0) == 8
    ensures ScanOf(LastBitClear(), false, 2) == Found(7)
  {
    hide FirstRun;
    var bits, all := LastBitClear(), LastBitClear() + [false];
    forall k: nat | k < 8 ensures BitAt([0x7f], k) == bits[k] {
      OneByteBits(k);
    }
    FirstClearIs(bits, 7);
    forall j ensures !ClearRun(bits, j, 2) {
      assert 0 <= j < 7 ==> bits[j];
    }
    assert ClearRun(all, 7, 2) && ClearRun(bits, 7, 1);
    var r := FirstRun(all, 2, 0);
    assert r <= 7 && ClearRun(all, r, 2) && !all[r];
  }

  lemma OneByteBits(k: nat)
    requires k < 8
    ensures BitAt([0x7f], k) <==> k < 7
  {
  }
}
