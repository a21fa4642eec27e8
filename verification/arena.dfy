/**
 * The bump allocator of parse.cpp (`struct Arena`). Memory is a counter:
 * `base` is the address of the caller's buffer, `size` its capacity and
 * `used` the bytes handed out so far. Node contents are not stored here;
 * only whether an allocation fits and how far `used` moves.
 */
module BumpArena {
  import opened Wrappers

  datatype Arena = Arena(base: nat, size: nat, used: nat) {
    predicate Valid() { used <= size }
  }

  /** `Arena::init`: a fresh arena over `size` bytes at address `base`. */
  function Init(base: nat, size: nat): (a: Arena)
    ensures a.Valid() && a.used == 0
  {
    Arena(base, size, 0)
  }

  /** Powers of two: 1, 2, 4, ... */
  predicate IsPow2(n: nat)
    decreases n
  {
    n == 1 || (n >= 2 && n % 2 == 0 && IsPow2(n / 2))
  }

  /** `x` modulo `m`, by repeated subtraction. */
  function Residue(x: nat, m: nat): (r: nat)
    requires m > 0
    ensures r < m
    decreases x
  {
    if x < m then x else Residue(x - m, m)
  }

  /**
   * The padding `-(uintptr_t)(base + num) & (align - 1)`: for a power-of-two
   * `align`, the distance from `base + num` up to the next multiple of
   * `align`. Note that the address padded is `base + num`, not the address
   * of the next free byte `base + used`.
   */
  function Pad(base: nat, num: nat, align: nat): (p: nat)
    requires align > 0
    ensures p < align
  {
    var r := Residue(base + num, align);
    if r == 0 then 0 else align - r
  }

  /** Multiples of `m`: 0, m, 2m, ... */
  predicate MultipleOf(x: nat, m: nat)
    requires m > 0
    decreases x
  {
    x == 0 || (x >= m && MultipleOf(x - m, m))
  }

  /** Topping `x` up by `m` minus its residue gives a multiple of `m`. */
  lemma {:induction false} ResidueComplement(x: nat, m: nat)
    requires m > 0
    ensures MultipleOf(x + m - Residue(x, m), m)
    decreases x
  {
    if x >= m {
      ResidueComplement(x - m, m);
    } else {
      assert MultipleOf(0, m);
    }
  }

  /** The padding brings `base + num` to a multiple of `align`. */
  lemma PadReachesMultiple(base: nat, num: nat, align: nat)
    requires align > 0
    ensures MultipleOf(base + num + Pad(base, num, align), align)
  {
    ResidueComplement(base + num, align);
  }

  datatype Allocation = Allocation(slot: Option<nat>, arena: Arena)

  /**
   * `Arena::alloc(num, align)`: the address of a fresh slot of `num` bytes,
   * or None (the source's null) when the slot does not fit.
   */
  function Alloc(a: Arena, num: nat, align: nat): (r: Allocation)
    requires a.Valid() && IsPow2(align)
    ensures r.arena.Valid()
    ensures r.arena.base == a.base && r.arena.size == a.size
    // failure leaves the arena unchanged
    ensures r.slot.None? <==> a.used + Pad(a.base, num, align) + num > a.size
    ensures r.slot.None? ==> r.arena == a
    // success: the slot starts `Pad` bytes past the first free byte, and
    // `used` grows by exactly that padding plus the slot
    ensures r.slot.Some? ==>
              && r.slot.value == a.base + a.used + Pad(a.base, num, align)
              && r.arena.used == a.used + Pad(a.base, num, align) + num
    // so the slot lies past every earlier slot and inside the buffer, and
    // the padding is less than `align` bytes
    ensures r.slot.Some? ==>
              && a.base + a.used <= r.slot.value
              && r.slot.value + num == a.base + r.arena.used
              && r.arena.used <= a.size
              && a.used + num <= r.arena.used < a.used + num + align
  {
    var pad := Pad(a.base, num, align);
    if a.used + pad + num > a.size then
      Allocation(None, a)
    else
      Allocation(Some(a.base + a.used + pad), a.(used := a.used + pad + num))
  }

  /**
   * The slot `alloc` returns is not aligned in general: with the buffer at
   * address 0 and one byte already used, a 16-byte, 8-aligned request lands
   * at address 1.
   */
  lemma AllocSlotMayBeMisaligned()
    ensures var r := Alloc(Arena(0, 64, 1), 16, 8);
            r.slot == Some(1) && r.slot.value % 8 != 0
  {
    assert IsPow2(8) by { assert IsPow2(4) by { assert IsPow2(2); } }
  }
}
