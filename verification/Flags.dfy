/** A change row's unchanged flags: a bitmap over its columns' ordinals, moved to other ordinals as
    columns are left out. */
module Flags {
  import opened Wrappers
  import opened Common

  type Bitmap = seq<bv8>

  /** One, shifted left by `bit`. */
  function Mask(bit: nat): bv8
    requires bit < 8
  {
    match bit
    case 0 => 0x01
    case 1 => 0x02
    case 2 => 0x04
    case 3 => 0x08
    case 4 => 0x10
    case 5 => 0x20
    case 6 => 0x40
    case _ => 0x80
  }

  predicate BitOf(byte: bv8, bit: nat)
    requires bit < 8
  {
    byte & Mask(bit) != 0
  }

  /** Whether the column at `ordinal` is flagged unchanged; none past the bitmap is. */
  predicate Contains(bitmap: Bitmap, ordinal: nat) {
    ordinal / 8 < |bitmap| && BitOf(bitmap[ordinal / 8], ordinal % 8)
  }

  lemma SettingABit(byte: bv8, bit: nat, other: nat)
    requires bit < 8 && other < 8
    ensures BitOf(byte | Mask(bit), other) <==> other == bit || BitOf(byte, other)
  {
    if bit == other {
      SetIsSet(byte, bit);
    } else {
      OthersStay(byte, bit, other);
    }
  }

  lemma SetIsSet(byte: bv8, bit: nat)
    requires bit < 8
    ensures BitOf(byte | Mask(bit), bit)
  {
    Absorbs(byte, Mask(bit));
  }

  lemma Absorbs(a: bv8, b: bv8)
    ensures (a | b) & b == b
  {
  }

  lemma OthersStay(byte: bv8, bit: nat, other: nat)
    requires bit < 8 && other < 8 && bit != other
    ensures BitOf(byte | Mask(bit), other) <==> BitOf(byte, other)
  {
    MasksAreApart(bit, other);
    Distributes(byte, Mask(bit), Mask(other));
  }

  lemma Distributes(a: bv8, b: bv8, c: bv8)
    requires b & c == 0
    ensures (a | b) & c == a & c
  {
  }

  lemma MasksAreApart(bit: nat, other: nat)
    requires bit < 8 && other < 8 && bit != other
    ensures Mask(bit) & Mask(other) == 0
  {
  }

  lemma NoBits(bit: nat)
    requires bit < 8
    ensures !BitOf(0, bit)
  {
  }

  // ----- Ordinals -----

  ghost predicate Below(ordinals: seq<nat>, n: nat) {
    forall k | 0 <= k < |ordinals| :: ordinals[k] < n
  }

  /** The ordinals below `n` flagged unchanged, in ascending order. */
  function Ordinals(bitmap: Bitmap, n: nat): (ordinals: seq<nat>)
    ensures Below(ordinals, n)
  {
    if n == 0 then []
    else
      var below := Ordinals(bitmap, n - 1);
      if Contains(bitmap, n - 1) then below + [n - 1] else below
  }

  lemma {:induction false} OrdinalsAre(bitmap: Bitmap, n: nat, ordinal: nat)
    ensures ordinal in Ordinals(bitmap, n) <==> ordinal < n && Contains(bitmap, ordinal)
  {
    if n > 0 {
      OrdinalsAre(bitmap, n - 1, ordinal);
    }
  }

  lemma {:induction false} NoneBetween(bitmap: Bitmap, a: nat, b: nat)
    requires a <= b && forall ordinal: nat | a <= ordinal < b :: !Contains(bitmap, ordinal)
    ensures Ordinals(bitmap, b) == Ordinals(bitmap, a)
  {
    if a < b {
      NoneBetween(bitmap, a, b - 1);
    }
  }

  lemma PlaceOf(index: nat, bit: nat)
    requires bit < 8
    ensures (8 * index + bit) / 8 == index && (8 * index + bit) % 8 == bit
  {
  }

  lemma EmptyByte(bitmap: Bitmap, index: nat, fields: nat)
    requires index < |bitmap| && bitmap[index] == 0
    ensures Ordinals(bitmap, Min(8 * index + 8, fields)) == Ordinals(bitmap, Min(8 * index, fields))
  {
    forall ordinal: nat | 8 * index <= ordinal < 8 * index + 8 ensures !Contains(bitmap, ordinal) {
      PlaceOf(index, ordinal - 8 * index);
      NoBits(ordinal % 8);
    }
    NoneBetween(bitmap, Min(8 * index, fields), Min(8 * index + 8, fields));
  }

  /** The ordinals of one byte, below `fields`, after those of the bytes before it. */
  method OrdinalsOf(bitmap: Bitmap, index: nat, fields: nat, before: seq<nat>) returns (ordinals: seq<nat>)
    requires index < |bitmap| && before == Ordinals(bitmap, Min(8 * index, fields))
    ensures ordinals == Ordinals(bitmap, Min(8 * index + 8, fields))
  {
    ordinals := before;
    for bit := 0 to 8
      invariant ordinals == Ordinals(bitmap, Min(8 * index + bit, fields))
    {
      PlaceOf(index, bit);
      if BitOf(bitmap[index], bit) && 8 * index + bit < fields {
        ordinals := ordinals + [8 * index + bit];
      }
    }
  }

  /** Lists the flags below `fields`, testing the bits of each byte that has any; bytes past the last field are
      never looked at. */
  method OrdinalsBelow(bitmap: Bitmap, fields: nat) returns (ordinals: seq<nat>)
    ensures ordinals == Ordinals(bitmap, fields)
  {
    var held := Min(|bitmap|, (fields + 7) / 8);
    ordinals := [];
    for index := 0 to held
      invariant ordinals == Ordinals(bitmap, Min(8 * index, fields))
    {
      if bitmap[index] != 0 {
        ordinals := OrdinalsOf(bitmap, index, fields, ordinals);
      } else {
        EmptyByte(bitmap, index, fields);
      }
    }
    forall ordinal: nat | Min(8 * held, fields) <= ordinal < fields ensures !Contains(bitmap, ordinal) {
    }
    NoneBetween(bitmap, Min(8 * held, fields), fields);
  }

  // ----- Moving flags -----

  /** The bitmap with one more flag, as long as it needs. */
  function WithFlag(bitmap: Bitmap, target: nat): Bitmap {
    var wide := if |bitmap| <= target / 8 then bitmap + seq(target / 8 + 1 - |bitmap|, _ => 0) else bitmap;
    wide[target / 8 := wide[target / 8] | Mask(target % 8)]
  }

  lemma WithFlagContains(bitmap: Bitmap, target: nat, ordinal: nat)
    ensures Contains(WithFlag(bitmap, target), ordinal) <==> ordinal == target || Contains(bitmap, ordinal)
  {
    NoBits(ordinal % 8);
    if ordinal / 8 == target / 8 {
      SettingABit(if target / 8 < |bitmap| then bitmap[target / 8] else 0, target % 8, ordinal % 8);
      assert ordinal == 8 * (ordinal / 8) + ordinal % 8 && target == 8 * (target / 8) + target % 8;
    }
  }

  /** The flags of `ordinals` moved: each to where `to` maps it, dropped where it maps it nowhere. */
  function Moved(ordinals: seq<nat>, to: seq<Option<nat>>): Bitmap
    requires Below(ordinals, |to|)
  {
    if ordinals == [] then []
    else
      var before, last := Moved(ordinals[..|ordinals| - 1], to), ordinals[|ordinals| - 1];
      if to[last].Some? then WithFlag(before, to[last].value) else before
  }

  function Remapped(bitmap: Bitmap, to: seq<Option<nat>>): Bitmap {
    Moved(Ordinals(bitmap, |to|), to)
  }

  /** Bitmaps over some columns' ordinals, over others; a row without flags stays without. */
  method RemapUnchanged(flags: seq<Option<Bitmap>>, to: seq<Option<nat>>) returns (remapped: seq<Option<Bitmap>>)
    ensures |remapped| == |flags|
    ensures forall i | 0 <= i < |flags| ::
              remapped[i] == if flags[i].None? then None else Some(Remapped(flags[i].value, to))
  {
    remapped := [];
    for row := 0 to |flags|
      invariant |remapped| == row
      invariant forall i | 0 <= i < row ::
                  remapped[i] == if flags[i].None? then None else Some(Remapped(flags[i].value, to))
    {
      if flags[row].None? {
        remapped := remapped + [None];
      } else {
        var out := RemapRow(flags[row].value, to);
        remapped := remapped + [Some(out)];
      }
    }
  }

  method RemapRow(bitmap: Bitmap, to: seq<Option<nat>>) returns (out: Bitmap)
    ensures out == Remapped(bitmap, to)
  {
    out := [];
    var ordinals := OrdinalsBelow(bitmap, |to|);
    for k := 0 to |ordinals|
      invariant out == Moved(ordinals[..k], to)
    {
      assert ordinals[..k + 1][..k] == ordinals[..k];
      var target := to[ordinals[k]];
      if target.Some? {
        var place := target.value / 8;
        if |out| <= place {
          out := out + seq(place + 1 - |out|, _ => 0);
        }
        out := out[place := out[place] | Mask(target.value % 8)];
      }
    }
    assert ordinals[..|ordinals|] == ordinals;
  }

  /** Whether a flag is moved to `target`. */
  ghost predicate MovesTo(ordinals: seq<nat>, to: seq<Option<nat>>, target: nat) {
    exists k :: 0 <= k < |ordinals| && ordinals[k] < |to| && to[ordinals[k]] == Some(target)
  }

  lemma {:induction false} MovedContains(ordinals: seq<nat>, to: seq<Option<nat>>, target: nat)
    requires Below(ordinals, |to|)
    ensures Contains(Moved(ordinals, to), target) <==> MovesTo(ordinals, to, target)
  {
    if ordinals != [] {
      var init, last := ordinals[..|ordinals| - 1], ordinals[|ordinals| - 1];
      MovedContains(init, to, target);
      assert ordinals == init + [last];
      assert MovesTo(ordinals, to, target) <==> MovesTo(init, to, target) || to[last] == Some(target) by {
        if MovesTo(init, to, target) {
          var k :| 0 <= k < |init| && init[k] < |to| && to[init[k]] == Some(target);
          assert to[ordinals[k]] == Some(target);
        }
        if to[last] == Some(target) {
          assert to[ordinals[|init|]] == Some(target);
        }
      }
      if to[last].Some? {
        WithFlagContains(Moved(init, to), to[last].value, target);
      }
    }
  }

  /** A column is flagged at `target` exactly where one that maps there was flagged, whatever the
      bitmap's length. */
  lemma RemappedContains(bitmap: Bitmap, to: seq<Option<nat>>, target: nat)
    ensures Contains(Remapped(bitmap, to), target)
            <==> exists i :: 0 <= i < |to| && to[i] == Some(target) && Contains(bitmap, i)
  {
    var ordinals := Ordinals(bitmap, |to|);
    MovedContains(ordinals, to, target);
    if i: nat :| i < |to| && to[i] == Some(target) && Contains(bitmap, i) {
      OrdinalsAre(bitmap, |to|, i);
      var k :| 0 <= k < |ordinals| && ordinals[k] == i;
      assert to[ordinals[k]] == Some(target);
    }
    if MovesTo(ordinals, to, target) {
      var k :| 0 <= k < |ordinals| && ordinals[k] < |to| && to[ordinals[k]] == Some(target);
      assert ordinals[k] in ordinals;
      OrdinalsAre(bitmap, |to|, ordinals[k]);
    }
  }

  /** A row of flags is as long as its last flag needs, and no longer. */
  lemma {:induction false} MovedIsShort(ordinals: seq<nat>, to: seq<Option<nat>>)
    requires Below(ordinals, |to|)
    ensures var out := Moved(ordinals, to);
            out == [] || exists target :: |out| == target / 8 + 1 && Contains(out, target)
  {
    if ordinals != [] {
      var init, last := ordinals[..|ordinals| - 1], ordinals[|ordinals| - 1];
      MovedIsShort(init, to);
      var before := Moved(init, to);
      if to[last].Some? {
        var target := to[last].value;
        WithFlagContains(before, target, target);
        if |before| > target / 8 {
          var other :| |before| == other / 8 + 1 && Contains(before, other);
          WithFlagContains(before, target, other);
        }
      }
    }
  }
}
