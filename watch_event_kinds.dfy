/**
 * Watch event kinds and inotify event masks (bit values as in inotify(7)
 * and Android's FileObserver).  `Of` decodes a mask into its Android kinds
 * in ascending bit order, ignoring unknown bits; `Mask` encodes a kind, the
 * standard kinds as the pair of bits that signal them; `MaskAll` is the OR
 * of the masks of several kinds.
 */
module WatchEventKinds {
  import opened Wrappers

  /** The Android kinds (one inotify bit each) and the standard kinds. */
  datatype Kind =
    | Access | Modify | Attrib | CloseWrite | CloseNowrite | Open
    | MovedFrom | MovedTo | Create | Delete | DeleteSelf | MoveSelf | Unmount
    | EntryCreate | EntryDelete | EntryModify | Overflow
  {
    predicate IsAndroid() {
      !(EntryCreate? || EntryDelete? || EntryModify? || Overflow?)
    }
  }

  /** The event bit of position `i`. */
  function Bit(i: nat): (b: bv32)
    requires i < 32
  {
    (1 as bv32) << i
  }

  const ACCESS: bv32 := 0x1
  const MODIFY: bv32 := 0x2
  const ATTRIB: bv32 := 0x4
  const CLOSE_WRITE: bv32 := 0x8
  const CLOSE_NOWRITE: bv32 := 0x10
  const OPEN: bv32 := 0x20
  const MOVED_FROM: bv32 := 0x40
  const MOVED_TO: bv32 := 0x80
  const CREATE: bv32 := 0x100
  const DELETE: bv32 := 0x200
  const DELETE_SELF: bv32 := 0x400
  const MOVE_SELF: bv32 := 0x800
  const ALL_EVENTS: bv32 := 0xfff
  const UNMOUNT: bv32 := 0x2000

  /** FileObserver's events and the unmount bit; 0x1000 is not among them. */
  const ALL_MASK: bv32 := ALL_EVENTS | UNMOUNT

  /** The kind of each bit position; position 12 has none. */
  const ALL_KINDS: seq<Option<Kind>> := [
    Some(Access), Some(Modify), Some(Attrib), Some(CloseWrite), Some(CloseNowrite), Some(Open),
    Some(MovedFrom), Some(MovedTo), Some(Create), Some(Delete), Some(DeleteSelf), Some(MoveSelf),
    None, Some(Unmount)]

  /** The bit position of an Android kind. */
  function Index(k: Kind): (i: nat)
    requires k.IsAndroid()
    ensures i < |ALL_KINDS| && ALL_KINDS[i] == Some(k)
  {
    match k
      case Access => 0
      case Modify => 1
      case Attrib => 2
      case CloseWrite => 3
      case CloseNowrite => 4
      case Open => 5
      case MovedFrom => 6
      case MovedTo => 7
      case Create => 8
      case Delete => 9
      case DeleteSelf => 10
      case MoveSelf => 11
      case Unmount => 13
  }

  /**
   * The event mask of a kind: an Android kind's own bit; a standard kind
   * the two bits that signal it; anything else nothing.
   */
  function Mask(k: Kind): (m: bv32)
    ensures m & !ALL_MASK == 0
  {
    match k
      case Access => ACCESS
      case Modify => MODIFY
      case Attrib => ATTRIB
      case CloseWrite => CLOSE_WRITE
      case CloseNowrite => CLOSE_NOWRITE
      case Open => OPEN
      case MovedFrom => MOVED_FROM
      case MovedTo => MOVED_TO
      case Create => CREATE
      case Delete => DELETE
      case DeleteSelf => DELETE_SELF
      case MoveSelf => MOVE_SELF
      case Unmount => UNMOUNT
      case EntryCreate => CREATE | MOVED_TO
      case EntryDelete => DELETE | MOVED_FROM
      case EntryModify => MODIFY | ATTRIB
      case Overflow => 0
  }

  /** An Android kind's mask is the bit of its position. */
  lemma MaskIsBit(k: Kind)
    requires k.IsAndroid()
    ensures Mask(k) == Bit(Index(k))
  {
  }

  /** Each standard kind is signalled by exactly the Android kinds of its two bits. */
  lemma StandardKindMasks()
    ensures Mask(EntryCreate) == Mask(Create) | Mask(MovedTo)
    ensures Mask(EntryDelete) == Mask(Delete) | Mask(MovedFrom)
    ensures Mask(EntryModify) == Mask(Modify) | Mask(Attrib)
    ensures Mask(Overflow) == 0
  {
  }

  // ---------------------------------------------------------------------
  // Decoding
  // ---------------------------------------------------------------------

  /** The kinds of the set bits of `m` at positions `lo` to `hi - 1`, in ascending order. */
  function Select(m: bv32, lo: nat, hi: nat): seq<Kind>
    requires lo <= hi <= |ALL_KINDS|
    decreases hi - lo
  {
    if lo == hi then []
    else
      var here := if m & Bit(lo) != 0 && ALL_KINDS[lo].Some? then [ALL_KINDS[lo].value] else [];
      here + Select(m, lo + 1, hi)
  }

  /** The kinds of a mask, in ascending bit order. */
  function KindsOf(m: bv32): seq<Kind> {
    Select(m & ALL_MASK, 0, |ALL_KINDS|)
  }

  /** The number of set bits of `m` below position `n`. */
  function BitCount(m: bv32, n: nat): nat
    requires n <= 32
  {
    if n == 0 then 0 else BitCount(m, n - 1) + (if m & Bit(n - 1) != 0 then 1 else 0)
  }

  /** `Integer.bitCount`. */
  function PopCount(m: bv32): nat {
    BitCount(m, 32)
  }

  /** Splitting the positions splits the selection. */
  lemma {:induction false} SelectSplit(m: bv32, lo: nat, mid: nat, hi: nat)
    requires lo <= mid <= hi <= |ALL_KINDS|
    ensures Select(m, lo, hi) == Select(m, lo, mid) + Select(m, mid, hi)
    decreases mid - lo
  {
    if lo < mid {
      SelectSplit(m, lo + 1, mid, hi);
    }
  }

  /** One kind per set bit, as long as position 12 is clear. */
  lemma {:induction false} SelectCount(m: bv32, n: nat)
    requires n <= |ALL_KINDS| && m & Bit(12) == 0
    ensures |Select(m, 0, n)| == BitCount(m, n)
  {
    if n > 0 {
      SelectCount(m, n - 1);
      SelectSplit(m, 0, n - 1, n);
    }
  }

  /** Bits above position `n` add nothing to the count. */
  lemma {:induction false} BitCountHigh(m: bv32, n: nat, k: nat)
    requires n <= k <= 32
    requires forall j :: n <= j < 32 ==> m & Bit(j) == 0
    ensures BitCount(m, k) == BitCount(m, n)
  {
    if k > n {
      BitCountHigh(m, n, k - 1);
    }
  }

  /** ALL_MASK has no bit at position 12 or above position 13. */
  lemma OutsideAllMask(m: bv32, j: nat)
    requires j == 12 || 14 <= j < 32
    ensures (m & ALL_MASK) & Bit(j) == 0
  {
    assert ALL_MASK & Bit(j) == 0;
  }

  /** A mask inside ALL_MASK has all its bits below position 14. */
  lemma PopCountInside(m: bv32)
    ensures PopCount(m & ALL_MASK) == BitCount(m & ALL_MASK, 14)
  {
    forall j | 14 <= j < 32 ensures (m & ALL_MASK) & Bit(j) == 0 {
      OutsideAllMask(m, j);
    }
    BitCountHigh(m & ALL_MASK, 14, 32);
  }

  /** The number of kinds of a mask is the number of its bits inside ALL_MASK. */
  lemma KindsOfCount(m: bv32)
    ensures |KindsOf(m)| == PopCount(m & ALL_MASK)
  {
    OutsideAllMask(m, 12);
    SelectCount(m & ALL_MASK, |ALL_KINDS|);
    PopCountInside(m);
  }

  /** The kind at a position has that position as its index. */
  lemma KindAt(i: nat)
    requires i < |ALL_KINDS| && ALL_KINDS[i].Some?
    ensures ALL_KINDS[i].value.IsAndroid() && Index(ALL_KINDS[i].value) == i
  {
  }

  /** Every kind in a selection has its bit set and its position in range. */
  lemma {:induction false} SelectMembers(m: bv32, lo: nat, hi: nat, k: Kind)
    requires lo <= hi <= |ALL_KINDS|
    ensures k in Select(m, lo, hi) <==>
      k.IsAndroid() && lo <= Index(k) < hi && m & Bit(Index(k)) != 0
    decreases hi - lo
  {
    if lo < hi {
      SelectMembers(m, lo + 1, hi, k);
      var here := if m & Bit(lo) != 0 && ALL_KINDS[lo].Some? then [ALL_KINDS[lo].value] else [];
      assert Select(m, lo, hi) == here + Select(m, lo + 1, hi);
      if ALL_KINDS[lo].Some? {
        KindAt(lo);
      }
      if k.IsAndroid() && Index(k) == lo {
        assert ALL_KINDS[lo] == Some(k);
      }
    }
  }

  /** Every kind in a selection has its position in range. */
  lemma SelectAbove(m: bv32, lo: nat, hi: nat)
    requires lo <= hi <= |ALL_KINDS|
    ensures forall k :: k in Select(m, lo, hi) ==> k.IsAndroid() && lo <= Index(k)
  {
    forall k | k in Select(m, lo, hi) ensures k.IsAndroid() && lo <= Index(k) {
      SelectMembers(m, lo, hi, k);
    }
  }

  /** Positions of a selection ascend strictly. */
  lemma {:induction false} SelectAscending(m: bv32, lo: nat, hi: nat)
    requires lo <= hi <= |ALL_KINDS|
    ensures forall k :: k in Select(m, lo, hi) ==> k.IsAndroid() && lo <= Index(k)
    ensures forall i, j :: 0 <= i < j < |Select(m, lo, hi)| ==>
      Index(Select(m, lo, hi)[i]) < Index(Select(m, lo, hi)[j])
    decreases hi - lo
  {
    SelectAbove(m, lo, hi);
    if lo < hi {
      SelectAscending(m, lo + 1, hi);
      var rest := Select(m, lo + 1, hi);
      if m & Bit(lo) != 0 && ALL_KINDS[lo].Some? {
        var k := ALL_KINDS[lo].value;
        assert Select(m, lo, hi) == [k] + rest;
        KindAt(lo);
        AscendingCons(k, rest);
      } else {
        assert Select(m, lo, hi) == rest;
      }
    }
  }

  /** A kind placed before kinds of higher positions, themselves ascending, keeps the order ascending. */
  lemma AscendingCons(k: Kind, rest: seq<Kind>)
    requires k.IsAndroid() && forall x :: x in rest ==> x.IsAndroid() && Index(k) < Index(x)
    requires forall i, j :: 0 <= i < j < |rest| ==> Index(rest[i]) < Index(rest[j])
    ensures forall i, j :: 0 <= i < j < |[k] + rest| ==> Index(([k] + rest)[i]) < Index(([k] + rest)[j])
  {
    var all := [k] + rest;
    forall i, j | 0 <= i < j < |all| ensures Index(all[i]) < Index(all[j]) {
      assert all[j] == rest[j - 1] && all[j] in rest;
      if i > 0 {
        assert all[i] == rest[i - 1];
      }
    }
  }

  /**
   * The kinds of a mask are exactly the Android kinds whose bit it has, in
   * strictly ascending bit order; bit 0x1000 and the bits above 0x2000
   * yield nothing.
   */
  lemma KindsOfSpec(m: bv32)
    ensures forall k :: k in KindsOf(m) <==> k.IsAndroid() && m & Mask(k) != 0
    ensures forall i, j :: 0 <= i < j < |KindsOf(m)| ==> Index(KindsOf(m)[i]) < Index(KindsOf(m)[j])
  {
    forall k ensures k in KindsOf(m) <==> k.IsAndroid() && m & Mask(k) != 0 {
      SelectMembers(m & ALL_MASK, 0, |ALL_KINDS|, k);
      if k.IsAndroid() {
        MaskIsBit(k);
      }
    }
    SelectAscending(m & ALL_MASK, 0, |ALL_KINDS|);
  }

  /** One position more: its kind, if its bit is set, comes before the kinds above it. */
  lemma SelectStep(m: bv32, i: nat)
    requires i < |ALL_KINDS| && m & !ALL_MASK == 0
    ensures m & Bit(i) != 0 ==> ALL_KINDS[i].Some?
    ensures Select(m, i, |ALL_KINDS|) ==
      (if m & Bit(i) != 0 then [ALL_KINDS[i].value] else []) + Select(m, i + 1, |ALL_KINDS|)
    ensures |Select(m, 0, i + 1)| == |Select(m, 0, i)| + (if m & Bit(i) != 0 then 1 else 0)
  {
    assert i == 12 ==> m & Bit(i) == 0;
    SelectSplit(m, 0, i, i + 1);
  }

  /**
   * `of`: an array of exactly `PopCount(m & ALL_MASK)` kinds, filled from
   * the last slot backwards while the bit positions are walked downwards.
   */
  method Of(mask: bv32) returns (kinds: array<Kind>)
    ensures kinds[..] == KindsOf(mask)
    ensures kinds.Length == PopCount(mask & ALL_MASK)
    ensures fresh(kinds)
  {
    var m := mask & ALL_MASK;
    var o := PopCount(m);
    KindsOfCount(mask);
    kinds := new Kind[o](_ => Overflow);
    var i := |ALL_KINDS|;
    while i > 0
      invariant 0 <= i <= |ALL_KINDS|
      invariant o == |Select(m, 0, i)| <= kinds.Length
      invariant kinds[o..] == Select(m, i, |ALL_KINDS|)
      decreases i
    {
      i := i - 1;
      o := Place(kinds, m, i, o);
    }
    assert kinds[0..] == kinds[..];
  }

  /** One position of `of`'s walk: a set bit puts its kind in the slot before `o`. */
  method Place(kinds: array<Kind>, m: bv32, i: nat, o: nat) returns (o': nat)
    requires i < |ALL_KINDS| && m & !ALL_MASK == 0
    requires o == |Select(m, 0, i + 1)| <= kinds.Length
    requires kinds[o..] == Select(m, i + 1, |ALL_KINDS|)
    modifies kinds
    ensures o' == |Select(m, 0, i)| <= kinds.Length
    ensures kinds[o'..] == Select(m, i, |ALL_KINDS|)
  {
    SelectStep(m, i);
    o' := o;
    if m & Bit(i) != 0 {
      o' := o - 1;
      kinds[o'] := ALL_KINDS[i].value;
      assert kinds[o'..] == [kinds[o']] + kinds[o..];
    }
  }

  /** The test case: 0x1000 is ignored, 0x2000 is the unmount kind. */
  lemma OfExample()
    ensures KindsOf(CREATE | DELETE_SELF | 0x1000 | 0x2000) == [Create, DeleteSelf, Unmount]
  {
    var m: bv32 := (CREATE | DELETE_SELF | 0x1000 | 0x2000) & ALL_MASK;
    assert m == 0x2500;
    SelectSplit(m, 0, 8, 14);
    SelectSplit(m, 8, 11, 14);
  }

  // ---------------------------------------------------------------------
  // Encoding
  // ---------------------------------------------------------------------

  /** The OR of the masks of `kinds`. */
  function MaskOf(kinds: seq<Kind>): bv32 {
    if kinds == [] then 0 else Mask(kinds[0]) | MaskOf(kinds[1..])
  }

  /** The OR of a concatenation is the OR of the parts. */
  lemma {:induction false} MaskOfConcat(a: seq<Kind>, b: seq<Kind>)
    ensures MaskOf(a + b) == MaskOf(a) | MaskOf(b)
  {
    if a != [] {
      assert (a + b)[0] == a[0] && (a + b)[1..] == a[1..] + b;
      MaskOfConcat(a[1..], b);
    } else {
      assert a + b == b;
    }
  }

  /** `mask(kinds...)`: the masks of the kinds ORed together, in array order. */
  method MaskAll(kinds: array<Kind>) returns (mask: bv32)
    ensures mask == MaskOf(kinds[..])
  {
    mask := 0;
    for i := 0 to kinds.Length
      invariant mask == MaskOf(kinds[..i])
    {
      assert kinds[..i + 1] == kinds[..i] + [kinds[i]];
      MaskOfConcat(kinds[..i], [kinds[i]]);
      assert MaskOf([kinds[i]]) == Mask(kinds[i]) by {
        assert [kinds[i]][1..] == [];
      }
      mask := mask | Mask(kinds[i]);
    }
    assert kinds[..kinds.Length] == kinds[..];
  }

  /** The OR covers the mask of each of the kinds. */
  lemma {:induction false} MaskOfCovers(kinds: seq<Kind>, i: nat)
    requires i < |kinds|
    ensures Covers(MaskOf(kinds), Mask(kinds[i]))
  {
    if i > 0 {
      MaskOfCovers(kinds[1..], i - 1);
      assert kinds[1..][i - 1] == kinds[i];
    }
  }

  /** `x` has every bit of `m`. */
  predicate Covers(x: bv32, m: bv32) {
    m | x == x
  }

  lemma OrCovers(a: bv32, b: bv32, x: bv32)
    requires Covers(x, a) && Covers(x, b)
    ensures Covers(x, a | b)
  {
  }

  /** The OR is the least mask that covers the mask of each of the kinds. */
  lemma {:induction false} MaskOfLeast(kinds: seq<Kind>, x: bv32)
    requires forall i :: 0 <= i < |kinds| ==> Covers(x, Mask(kinds[i]))
    ensures Covers(x, MaskOf(kinds))
  {
    if kinds != [] {
      var rest := kinds[1..];
      forall i | 0 <= i < |rest| ensures Covers(x, Mask(rest[i])) {
        assert rest[i] == kinds[i + 1];
      }
      MaskOfLeast(rest, x);
      OrCovers(Mask(kinds[0]), MaskOf(rest), x);
    }
  }

  /** The combined mask depends only on which kinds occur, not on their order or repetition. */
  lemma MaskOfSet(a: seq<Kind>, b: seq<Kind>)
    requires forall k :: k in a <==> k in b
    ensures MaskOf(a) == MaskOf(b)
  {
    forall i | 0 <= i < |a| ensures Covers(MaskOf(b), Mask(a[i])) {
      assert a[i] in b;
      var j :| 0 <= j < |b| && b[j] == a[i];
      MaskOfCovers(b, j);
    }
    MaskOfLeast(a, MaskOf(b));
    forall i | 0 <= i < |b| ensures Covers(MaskOf(a), Mask(b[i])) {
      assert b[i] in a;
      var j :| 0 <= j < |a| && a[j] == b[i];
      MaskOfCovers(a, j);
    }
    MaskOfLeast(b, MaskOf(a));
  }

  /** The bits below position `n`. */
  function LowBits(n: nat): bv32
    requires n <= 32
  {
    if n == 0 then 0 else LowBits(n - 1) | Bit(n - 1)
  }

  /** The kinds of one position encode to that position's bit of the mask. */
  lemma SelectOneMask(m: bv32, i: nat)
    requires i < |ALL_KINDS| && m & !ALL_MASK == 0
    ensures MaskOf(Select(m, i, i + 1)) == m & Bit(i)
  {
    assert i == 12 ==> m & Bit(i) == 0;
    if m & Bit(i) != 0 {
      KindAt(i);
      MaskIsBit(ALL_KINDS[i].value);
      assert Select(m, i, i + 1) == [ALL_KINDS[i].value];
    } else {
      assert Select(m, i, i + 1) == [];
    }
  }

  lemma AndOverOr(m: bv32, a: bv32, b: bv32)
    ensures m & (a | b) == (m & a) | (m & b)
  {
  }

  /** Encoding the kinds of the positions below `n` gives back the mask's bits there. */
  lemma {:induction false} SelectMask(m: bv32, n: nat)
    requires n <= |ALL_KINDS| && m & !ALL_MASK == 0
    ensures MaskOf(Select(m, 0, n)) == m & LowBits(n)
  {
    if n > 0 {
      SelectMask(m, n - 1);
      SelectSplit(m, 0, n - 1, n);
      MaskOfConcat(Select(m, 0, n - 1), Select(m, n - 1, n));
      SelectOneMask(m, n - 1);
      AndOverOr(m, LowBits(n - 1), Bit(n - 1));
    }
  }

  /** Round trip: encoding the decoded kinds of a mask gives the mask less its unknown bits. */
  lemma MaskOfKindsOf(m: bv32)
    ensures MaskOf(KindsOf(m)) == m & ALL_MASK
  {
    SelectMask(m & ALL_MASK, |ALL_KINDS|);
    assert LowBits(14) == 0x3fff;
  }
}
