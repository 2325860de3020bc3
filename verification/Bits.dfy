/**
Bit sets packed into bytes, lowest bit first (freeciv-proxy/bitvector.py), and the places in
freeciv-proxy/civcom.py that test bits without that class.
*/
module Bits {
  import opened Options

  function Mask(k: nat): bv8
    requires k < 8
  {
    1 << k
  }

  predicate Overlap(b: bv8, m: bv8) {
    b & m != 0
  }

  predicate Bit(b: bv8, k: nat)
    requires k < 8
  {
    Overlap(b, Mask(k))
  }

  function With(b: bv8, m: bv8): bv8 {
    b | m
  }

  function Without(b: bv8, m: bv8): bv8 {
    b & !m
  }

  /** The set a byte list stands for. */
  function Members(raw: seq<bv8>): set<int> {
    set n | 0 <= n < 8 * |raw| && Bit(raw[n / 8], n % 8)
  }

  function WithBit(raw: seq<bv8>, n: nat): seq<bv8>
    requires n / 8 < |raw|
  {
    raw[n / 8 := With(raw[n / 8], Mask(n % 8))]
  }

  function WithoutBit(raw: seq<bv8>, n: nat): seq<bv8>
    requires n / 8 < |raw|
  {
    raw[n / 8 := Without(raw[n / 8], Mask(n % 8))]
  }

  function Zeros(k: nat): seq<bv8> {
    seq(k, _ => 0)
  }

  predicate Increasing(l: seq<int>) {
    forall i, j | 0 <= i < j < |l| :: l[i] < l[j]
  }

  function SetOf(l: seq<int>): set<int> {
    set n | n in l
  }

  // ---------------------------------------------------------------- one byte

  lemma Masks()
    ensures Mask(0) == 0x1 && Mask(1) == 0x2 && Mask(2) == 0x4 && Mask(3) == 0x8
    ensures Mask(4) == 0x10 && Mask(5) == 0x20 && Mask(6) == 0x40 && Mask(7) == 0x80
  {
  }

  /** Both masks have one bit, perhaps the same. */
  predicate SingleBits(m: bv8, n: bv8) {
    m != 0 && n != 0 && n & (n - 1) == 0 && (m & n == 0 || m == n)
  }

  lemma MasksAreApart(k: nat, j: nat)
    requires k < 8 && j < 8
    ensures SingleBits(Mask(k), Mask(j)) && (Mask(k) == Mask(j) <==> k == j)
  {
    hide Mask;
    Masks();
  }

  lemma MaskAlgebra(b: bv8, m: bv8, n: bv8)
    requires SingleBits(m, n)
    ensures Overlap(With(b, m), n) <==> Overlap(b, n) || m == n
    ensures Overlap(Without(b, m), n) <==> Overlap(b, n) && m != n
  {
  }

  /** Or-ing a mask in adds that bit alone, and-ing its complement takes that bit alone away. */
  lemma ByteUpdate(b: bv8, k: nat, j: nat)
    requires k < 8 && j < 8
    ensures Bit(With(b, Mask(k)), j) <==> Bit(b, j) || j == k
    ensures Bit(Without(b, Mask(k)), j) <==> Bit(b, j) && j != k
  {
    hide Mask, Overlap, SingleBits, With, Without;
    MasksAreApart(k, j);
    MaskAlgebra(b, Mask(k), Mask(j));
  }

  lemma BitsDetermineByte(a: bv8, b: bv8)
    requires forall k | 0 <= k < 8 :: Bit(a, k) <==> Bit(b, k)
    ensures a == b
  {
    hide Mask;
    Masks();
    assert Bit(a, 0) <==> Bit(b, 0);
    assert Bit(a, 1) <==> Bit(b, 1);
    assert Bit(a, 2) <==> Bit(b, 2);
    assert Bit(a, 3) <==> Bit(b, 3);
    assert Bit(a, 4) <==> Bit(b, 4);
    assert Bit(a, 5) <==> Bit(b, 5);
    assert Bit(a, 6) <==> Bit(b, 6);
    assert Bit(a, 7) <==> Bit(b, 7);
  }

  // ---------------------------------------------------------------- the byte list as a set

  lemma WithBitAdds(raw: seq<bv8>, n: nat)
    requires n / 8 < |raw|
    ensures Members(WithBit(raw, n)) == Members(raw) + {n}
  {
    hide Bit, Mask, With, Without;
    forall m | 0 <= m < 8 * |raw| ensures m in Members(WithBit(raw, n)) <==> m in Members(raw) || m == n {
      ByteUpdate(raw[n / 8], n % 8, m % 8);
    }
  }

  lemma WithoutBitRemoves(raw: seq<bv8>, n: nat)
    requires n / 8 < |raw|
    ensures Members(WithoutBit(raw, n)) == Members(raw) - {n}
  {
    hide Bit, Mask, With, Without;
    forall m | 0 <= m < 8 * |raw| ensures m in Members(WithoutBit(raw, n)) <==> m in Members(raw) && m != n {
      ByteUpdate(raw[n / 8], n % 8, m % 8);
    }
  }

  lemma ZerosAddNothing(raw: seq<bv8>, k: nat)
    ensures Members(raw + Zeros(k)) == Members(raw)
  {
    hide Mask;
    forall m | 0 <= m < 8 * |raw + Zeros(k)| ensures m in Members(raw + Zeros(k)) <==> m in Members(raw) {
      if m / 8 >= |raw| {
        assert (raw + Zeros(k))[m / 8] == 0;
      }
    }
  }

  /** The bytes hold nothing but the set: equally long lists for the same set are the same list. */
  lemma SetDeterminesBytes(a: seq<bv8>, b: seq<bv8>)
    requires |a| == |b| && Members(a) == Members(b)
    ensures a == b
  {
    hide Bit, Mask;
    forall i | 0 <= i < |a| ensures a[i] == b[i] {
      forall k | 0 <= k < 8 ensures Bit(a[i], k) <==> Bit(b[i], k) {
        var n := 8 * i + k;
        assert n / 8 == i && n % 8 == k;
        assert n in Members(a) <==> n in Members(b);
      }
      BitsDetermineByte(a[i], b[i]);
    }
  }

  /** Setting a bit that was clear, within the list, and unsetting it again gives the old bytes. */
  lemma UnsetUndoesSet(raw: seq<bv8>, n: nat)
    requires n / 8 < |raw|
    ensures WithoutBit(WithBit(raw, n), n) == raw <==> n !in Members(raw)
  {
    WithBitAdds(raw, n);
    WithoutBitRemoves(WithBit(raw, n), n);
    if n !in Members(raw) {
      SetDeterminesBytes(WithoutBit(WithBit(raw, n), n), raw);
    }
  }

  // ---------------------------------------------------------------- tests outside the class

  /** `bits[n // 8] & (1 << n % 8)` in Python, where index -1 is the last; `None` is an IndexError. */
  function ByteTest(raw: seq<bv8>, n: int): Option<bool> {
    if n / 8 >= |raw| then Some(false)
    else if n / 8 >= 0 then Some(Bit(raw[n / 8], n % 8))
    else if n / 8 >= -|raw| then Some(Bit(raw[n / 8 + |raw|], n % 8))
    else None
  }

  const ACTION_COUNT := 116

  /** `bytes` is `None` for an unknown unit type, empty when its ruleset has not arrived. */
  function UtypeCanDoAction(bytes: Option<seq<bv8>>, action: int): Option<bool> {
    if action < 0 || action >= ACTION_COUNT then Some(false)
    else if bytes.None? || bytes.value == [] then Some(false)
    else ByteTest(bytes.value, action)
  }

  /** `can_city_build_unit` and `can_city_build_improvement`: without build information, allow. */
  function CanCityBuild(bytes: Option<seq<bv8>>, kind: int): Option<bool> {
    if bytes.None? || bytes.value == [] then Some(true) else ByteTest(bytes.value, kind)
  }

  /** What the inline test answers, as membership: a negative number is counted back from the end. */
  lemma ByteTestIsMembership(raw: seq<bv8>, n: int)
    ensures ByteTest(raw, n) ==
      if n >= 0 then Some(n in Members(raw))
      else if n >= -8 * |raw| then Some(n + 8 * |raw| in Members(raw))
      else None
  {
    hide Bit;
    var back := n + 8 * |raw|;
    assert back / 8 == n / 8 + |raw| && back % 8 == n % 8;
  }

  /** It agrees with the class, for which negative numbers are never members, exactly in these cases. */
  lemma ByteTestAgreesIff(raw: seq<bv8>, n: int)
    ensures ByteTest(raw, n) == Some(n in Members(raw)) <==>
            n >= 0 || (n >= -8 * |raw| && n + 8 * |raw| !in Members(raw))
  {
    ByteTestIsMembership(raw, n);
  }

  /** For actions the range check comes first, so the answer never fails and is plain membership. */
  lemma ActionTestIsMembership(bytes: Option<seq<bv8>>, action: int)
    ensures UtypeCanDoAction(bytes, action) ==
            Some(0 <= action < 116 && action in Members(bytes.GetOr([])))
  {
    ByteTestIsMembership(bytes.GetOr([]), action);
  }

  /** For cities the empty list means that everything may be built, not that nothing may. */
  lemma CityTestIsMembership(bytes: Option<seq<bv8>>, kind: int)
    ensures
      var raw := bytes.GetOr([]);
      CanCityBuild(bytes, kind) ==
      if raw == [] then Some(true)
      else if kind >= 0 then Some(kind in Members(raw))
      else if kind >= -8 * |raw| then Some(kind + 8 * |raw| in Members(raw))
      else None
  {
    ByteTestIsMembership(bytes.GetOr([]), kind);
  }

  // ---------------------------------------------------------------- 32-bit words

  function WordMask(k: nat): bv32
    requires k < 32
  {
    1 << k
  }

  predicate WordOverlap(w: bv32, m: bv32) {
    w & m != 0
  }

  predicate WordBit(w: bv32, k: nat)
    requires k < 32
  {
    WordOverlap(w, WordMask(k))
  }

  /** `is_unit_class_native_to_terrain` on a word list; an unknown class or terrain is `None`. */
  function IsNative(words: Option<seq<bv32>>, unitClass: nat): bool {
    if words.None? || words.value == [] then true
    else unitClass / 32 < |words.value| && WordBit(words.value[unitClass / 32], unitClass % 32)
  }

  /** Byte `i` of a word, lowest first. */
  function ByteOf(w: bv32, i: nat): bv8
    requires i < 4
  {
    if i == 0 then (w & 0xFF) as bv8
    else if i == 1 then ((w >> 8) & 0xFF) as bv8
    else if i == 2 then ((w >> 16) & 0xFF) as bv8
    else (w >> 24) as bv8
  }

  /** The words as one list of bytes, each word lowest byte first. */
  function Split(words: seq<bv32>): seq<bv8> {
    seq(4 * |words|, i requires 0 <= i < 4 * |words| => ByteOf(words[i / 4], i % 4))
  }

  lemma WordMasks()
    ensures WordMask(0) == 0x1 && WordMask(1) == 0x2 && WordMask(2) == 0x4 && WordMask(3) == 0x8
    ensures WordMask(4) == 0x10 && WordMask(5) == 0x20 && WordMask(6) == 0x40 && WordMask(7) == 0x80
    ensures WordMask(8) == 0x100 && WordMask(9) == 0x200 && WordMask(10) == 0x400 && WordMask(11) == 0x800
    ensures WordMask(12) == 0x1000 && WordMask(13) == 0x2000 && WordMask(14) == 0x4000 && WordMask(15) == 0x8000
    ensures WordMask(16) == 0x10000 && WordMask(17) == 0x20000 && WordMask(18) == 0x40000 && WordMask(19) == 0x80000
    ensures WordMask(20) == 0x100000 && WordMask(21) == 0x200000 && WordMask(22) == 0x400000 && WordMask(23) == 0x800000
    ensures WordMask(24) == 0x1000000 && WordMask(25) == 0x2000000
    ensures WordMask(26) == 0x4000000 && WordMask(27) == 0x8000000
    ensures WordMask(28) == 0x10000000 && WordMask(29) == 0x20000000
    ensures WordMask(30) == 0x40000000 && WordMask(31) == 0x80000000
  {
  }

  /** A byte mask moved to byte `i` of a word. */
  function Moved(m: bv8, i: nat): bv32
    requires i < 4
  {
    if i == 0 then m as bv32
    else if i == 1 then (m as bv32) << 8
    else if i == 2 then (m as bv32) << 16
    else (m as bv32) << 24
  }

  lemma WordMaskIsMoved(i: nat, j: nat)
    requires i < 4 && j < 8
    ensures WordMask(8 * i + j) == Moved(Mask(j), i)
  {
    hide Mask, WordMask;
    Masks();
    WordMasks();
  }

  lemma ByteInWord(w: bv32, m: bv8)
    ensures Overlap((w & 0xFF) as bv8, m) <==> WordOverlap(w, m as bv32)
    ensures Overlap(((w >> 8) & 0xFF) as bv8, m) <==> WordOverlap(w, (m as bv32) << 8)
    ensures Overlap(((w >> 16) & 0xFF) as bv8, m) <==> WordOverlap(w, (m as bv32) << 16)
    ensures Overlap((w >> 24) as bv8, m) <==> WordOverlap(w, (m as bv32) << 24)
  {
  }

  lemma MovedFindsByte(w: bv32, m: bv8, i: nat)
    requires i < 4
    ensures Overlap(ByteOf(w, i), m) <==> WordOverlap(w, Moved(m, i))
  {
    hide Overlap, WordOverlap;
    ByteInWord(w, m);
  }

  lemma WordBitIsByteBit(w: bv32, i: nat, j: nat)
    requires i < 4 && j < 8
    ensures WordBit(w, 8 * i + j) <==> Bit(ByteOf(w, i), j)
  {
    hide Mask, WordMask, ByteOf, Moved, Overlap, WordOverlap;
    WordMaskIsMoved(i, j);
    MovedFindsByte(w, Mask(j), i);
  }

  /**
  The word test is the byte test on the words split into little-endian bytes; without words, every
  unit class is native.
  */
  lemma WordTestAgrees(words: Option<seq<bv32>>, unitClass: nat)
    ensures IsNative(words, unitClass) <==> words.GetOr([]) == [] || unitClass in Members(Split(words.GetOr([])))
  {
    hide Bit, WordBit, ByteOf;
    var ws := words.GetOr([]);
    if unitClass / 32 < |ws| {
      WordBitIsByteBit(ws[unitClass / 32], unitClass % 32 / 8, unitClass % 8);
      SplitIndex(unitClass);
    }
  }

  lemma SplitIndex(n: nat)
    ensures n / 8 / 4 == n / 32 && n / 8 % 4 == n % 32 / 8 && n % 32 == 8 * (n % 32 / 8) + n % 8
  {
  }
}
