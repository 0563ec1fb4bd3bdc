// The page allocator: one bit per page id in the bytes of the bitmap page.
module Bitmap {
  const BITMAP_BYTES := 2008
  const PAGE_IDS := 16064
  const FIRST_FREE := 3
  const INVALID_PAGE_ID := 0xFFFF_FFFF

  function Mask(bit: nat): bv8
    requires bit < 8
  {
    1 << bit
  }

  predicate BitSet(b: bv8, bit: nat)
    requires bit < 8
  {
    b & Mask(bit) != 0
  }

  lemma {:induction false} SetBit(b: bv8, i: nat, j: nat)
    requires i < 8 && j < 8
    ensures BitSet(b | Mask(i), j) <==> i == j || BitSet(b, j)
  {
    Masks(i);
    Masks(j);
  }

  lemma {:induction false} ClearBit(b: bv8, i: nat, j: nat)
    requires i < 8 && j < 8
    ensures BitSet(b & !Mask(i), j) <==> i != j && BitSet(b, j)
  {
    Masks(i);
    Masks(j);
  }

  lemma {:induction false} Masks(i: nat)
    requires i < 8
    ensures Mask(i) == (if i == 0 then 1 else if i == 1 then 2 else if i == 2 then 4 else if i == 3 then 8 else
                        if i == 4 then 16 else if i == 5 then 32 else if i == 6 then 64 else 128)
  {
  }

  // The id the allocator hands out next: the least free one from 3 on, if there is one.
  ghost function NextFrom(used: set<nat>, x: nat): (id: nat)
    ensures id == INVALID_PAGE_ID || (x <= id < PAGE_IDS && id !in used)
    ensures id == INVALID_PAGE_ID ==> forall y :: x <= y < PAGE_IDS ==> y in used
    ensures id != INVALID_PAGE_ID ==> forall y :: x <= y < id ==> y in used
    decreases PAGE_IDS - x
  {
    if x >= PAGE_IDS then INVALID_PAGE_ID else if x !in used then x else NextFrom(used, x + 1)
  }

  ghost function NextId(used: set<nat>): nat {
    NextFrom(used, FIRST_FREE)
  }

  ghost function Taken(used: set<nat>): set<nat> {
    if NextId(used) == INVALID_PAGE_ID then used else used + {NextId(used)}
  }

  class PageBitmap {
    const bits: array<bv8>

    ghost predicate Valid()
    {
      bits.Length == BITMAP_BYTES
    }

    // The ids whose bit is set.
    ghost function Used(): set<nat>
      reads bits
      requires Valid()
    {
      set id: nat | id < PAGE_IDS && BitSet(bits[id / 8], id % 8)
    }

    // create_table reserves the meta page, the bitmap page and the first root.
    constructor ()
      ensures Valid() && fresh(bits) && Used() == {0, 1, 2}
    {
      bits := new bv8[BITMAP_BYTES](i => 0);
      new;
      bits[0] := bits[0] | Mask(0);
      bits[0] := bits[0] | Mask(1);
      bits[0] := bits[0] | Mask(2);
      forall id: nat | id < PAGE_IDS ensures BitSet(bits[id / 8], id % 8) <==> id < 3 {
        Masks(id % 8);
        if id / 8 == 0 {
          SetBit(0, 0, id % 8);
          SetBit(0 | Mask(0), 1, id % 8);
          SetBit(0 | Mask(0) | Mask(1), 2, id % 8);
          assert !BitSet(0, id % 8);
        }
      }
    }

    // The least free id from 3 on, now taken; or nothing if all are taken.
    method Allocate() returns (id: nat)
      requires Valid()
      modifies bits
      ensures id == NextId(old(Used())) && Used() == Taken(old(Used()))
    {
      var byteIdx := 0;
      while byteIdx < BITMAP_BYTES
        invariant 0 <= byteIdx <= BITMAP_BYTES
        invariant forall x: nat :: FIRST_FREE <= x < byteIdx * 8 ==> x in Used()
        invariant Used() == old(Used())
      {
        var bitIdx := 0;
        while bitIdx < 8
          invariant 0 <= bitIdx <= 8
          invariant forall x: nat :: FIRST_FREE <= x < byteIdx * 8 + bitIdx ==> x in Used()
          invariant Used() == old(Used())
        {
          id := byteIdx * 8 + bitIdx;
          assert id / 8 == byteIdx && id % 8 == bitIdx;
          if id >= FIRST_FREE && !BitSet(bits[byteIdx], bitIdx) {
            SetOne(id);
            return;
          }
          bitIdx := bitIdx + 1;
        }
        byteIdx := byteIdx + 1;
      }
      id := INVALID_PAGE_ID;
    }

    method SetOne(id: nat)
      requires Valid() && id < PAGE_IDS
      modifies bits
      ensures Used() == old(Used()) + {id}
    {
      bits[id / 8] := bits[id / 8] | Mask(id % 8);
      forall x: nat | x < PAGE_IDS ensures x in Used() <==> x == id || x in old(Used()) {
        SetBit(old(bits[id / 8]), id % 8, x % 8);
        SameId(x, id);
      }
    }

    method Free(id: nat)
      requires Valid() && id < PAGE_IDS
      modifies bits
      ensures Used() == old(Used()) - {id}
    {
      bits[id / 8] := bits[id / 8] & !Mask(id % 8);
      forall x: nat | x < PAGE_IDS ensures x in Used() <==> x != id && x in old(Used()) {
        ClearBit(old(bits[id / 8]), id % 8, x % 8);
        SameId(x, id);
      }
    }
  }

  lemma SameId(x: nat, y: nat)
    ensures x == y <==> x / 8 == y / 8 && x % 8 == y % 8
  {
    assert x == 8 * (x / 8) + x % 8;
  }
}
