/** The bump allocator of EquirectConverter/src/Memory.h and Memory.cpp: a
    `MemoryArena` that hands out consecutive byte ranges of one reserved region
    and commits pages in granularity-sized steps, plus the fixed-capacity
    `ArenaList<T>` carved out of an arena. Only the byte counters are kept:
    the reserved and committed pages themselves (VirtualAlloc, VirtualFree,
    GetSystemInfo) are abstract, and a pointer is its offset from `base`. */
module Memory {
  import opened BitMath
  import opened Wrappers

  /** One past the largest `size_t`. */
  const SizeModulus: nat := 0x1_0000_0000_0000_0000
  /** One past the largest DWORD, the type of the system's allocation granularity. */
  const DwordModulus: nat := 0x1_0000_0000
  /** The constructor's default capacity argument: 1 GiB. */
  const DefaultCapacity: nat := 1024 * 1024 * 1024
  /** The in-class initial value of `allocationGranularity` (64 KiB); the
      constructor replaces it with the system's granularity. */
  const DefaultGranularity: nat := 1024 * 64

  /** `Align(value, alignment)` = `(value + alignment - 1) & ~(alignment - 1)` on
      `size_t`, the sum wrapping modulo 2^64. Whatever happens, the result is a
      multiple of the alignment that fits in a `size_t`. */
  function Align(value: nat, alignment: nat): (r: nat)
    requires value < SizeModulus && IsPow2(alignment) && alignment < SizeModulus
    ensures r % alignment == 0 && r < SizeModulus
  {
    var n := (value + alignment - 1) % SizeModulus;
    ClearLowBitsAlignedBelow(n, alignment);
    ClearLowBits(n, alignment)
  }

  /** Without wrap-around, `Align` is the least multiple of the alignment at or
      above the value, and leaves an aligned value unchanged. */
  lemma AlignIsLeastMultiple(value: nat, alignment: nat)
    requires IsPow2(alignment) && alignment < SizeModulus && value + alignment <= SizeModulus
    ensures var r := Align(value, alignment);
      && value <= r < value + alignment
      && (forall m: nat :: m % alignment == 0 && value <= m ==> r <= m)
      && (value % alignment == 0 ==> r == value)
  {
    DivUnique(value + alignment - 1, SizeModulus, 0, value + alignment - 1);
    RoundUpIsLeastMultiple(value, alignment);
  }

  /** When `value + alignment - 1` passes the top of the `size_t` range, the sum
      wraps to less than the alignment and `Align` falls to zero. */
  lemma AlignWrapsToZero(value: nat, alignment: nat)
    requires value < SizeModulus && IsPow2(alignment) && alignment < SizeModulus
    requires value + alignment - 1 >= SizeModulus
    ensures Align(value, alignment) == 0
  {
    var n := value + alignment - 1 - SizeModulus;
    DivUnique(value + alignment - 1, SizeModulus, 1, n);
    ClearLowBitsRoundsDown(n, alignment);
    DivUnique(n, alignment, 0, n);
  }

  /** The in-class defaults, a 1 GiB arena with 64 KiB granularity, meet the
      constructor's requirements. */
  lemma DefaultsFit()
    ensures IsPow2(DefaultGranularity) && DefaultGranularity < DwordModulus
    ensures DefaultCapacity + DefaultGranularity <= SizeModulus
  {
    var g := DefaultGranularity;
    assert IsPow2(g / 65536);
    assert IsPow2(g / 32768);
    assert IsPow2(g / 4096);
    assert IsPow2(g / 256);
    assert IsPow2(g / 16);
  }

  /** A range of arena bytes handed out by one `Allocate`. */
  datatype Block = Block(offset: nat, size: nat)

  /** The blocks lie one after another from offset 0 up to `end`. */
  predicate Tiles(blocks: seq<Block>, end: nat)
    decreases |blocks|
  {
    if blocks == [] then end == 0
    else
      var last := blocks[|blocks| - 1];
      last.offset + last.size == end && Tiles(blocks[..|blocks| - 1], last.offset)
  }

  /** Blocks that tile `[0, end)` are disjoint, in increasing order, and inside it. */
  lemma {:induction false} TilesAreDisjoint(blocks: seq<Block>, end: nat)
    requires Tiles(blocks, end)
    ensures forall i :: 0 <= i < |blocks| ==> blocks[i].offset + blocks[i].size <= end
    ensures forall i, j :: 0 <= i < j < |blocks| ==> blocks[i].offset + blocks[i].size <= blocks[j].offset
    decreases |blocks|
  {
    if blocks != [] {
      var init := blocks[..|blocks| - 1];
      var last := blocks[|blocks| - 1];
      TilesAreDisjoint(init, last.offset);
      assert forall i :: 0 <= i < |init| ==> blocks[i] == init[i];
    }
  }

  class MemoryArena {
    const capacity: nat
    var allocationGranularity: nat
    var used: nat
    var committed: nat
    /** Every block handed out since construction or the last `Reset`. */
    ghost var blocks: seq<Block>

    ghost predicate Valid()
      reads this
    {
      && IsPow2(allocationGranularity)
      && capacity + allocationGranularity <= SizeModulus
      && used <= committed
      && committed % allocationGranularity == 0
      && used <= capacity
      && committed < capacity + allocationGranularity
      && Tiles(blocks, used)
    }

    /** `MemoryArena(capacity)`: reserves `capacity` bytes and takes the allocation
        granularity the system reports, which is a power of two held in a DWORD. */
    constructor (capacity: nat, systemGranularity: nat)
      requires IsPow2(systemGranularity) && systemGranularity < DwordModulus
      requires capacity + systemGranularity <= SizeModulus
      ensures Valid()
      ensures this.capacity == capacity && allocationGranularity == systemGranularity
      ensures used == 0 && committed == 0 && blocks == []
    {
      this.capacity := capacity;
      allocationGranularity := systemGranularity;
      used := 0;
      committed := 0;
      blocks := [];
    }

    /** Hands out the `size` bytes at offset `used`, committing more pages
        (a granularity-aligned amount) when the new end passes `committed`. */
    method Allocate(size: nat) returns (offset: nat)
      requires Valid() && used + size <= capacity
      modifies this
      ensures Valid() && allocationGranularity == old(allocationGranularity)
      ensures offset == old(used) && used == old(used) + size
      ensures committed == if used > old(committed)
                           then old(committed) + Align(used - old(committed), allocationGranularity)
                           else old(committed)
      ensures old(committed) <= committed
      ensures used > old(committed) ==> committed - used < allocationGranularity
      ensures blocks == old(blocks) + [Block(offset, size)]
    {
      var newUsed := used + size;
      if newUsed > committed {
        var required := newUsed - committed;
        var allocationSize := Align(required, allocationGranularity);
        AlignIsLeastMultiple(required, allocationGranularity);
        committed := committed + allocationSize;
        MultipleSum(committed - allocationSize, allocationSize, allocationGranularity);
      }
      offset := used;
      used := newUsed;
      blocks := blocks + [Block(offset, size)];
      assert blocks[..|blocks| - 1] == old(blocks);
    }

    /** Rewinds the arena; with `freePages` the committed pages are released too. */
    method Reset(freePages: bool)
      requires Valid()
      modifies this
      ensures Valid() && allocationGranularity == old(allocationGranularity)
      ensures used == 0 && blocks == []
      ensures committed == if freePages then 0 else old(committed)
    {
      if freePages {
        committed := 0;
        assert committed % allocationGranularity == 0;
      }
      used := 0;
      blocks := [];
    }
  }

  lemma MultipleSum(a: nat, b: nat, d: nat)
    requires d > 0 && a % d == 0 && b % d == 0
    ensures (a + b) % d == 0
  {
    DivUnique(a + b, d, a / d + b / d, 0);
  }

  /** `NewArray(arena, T, count)`: takes exactly `sizeof(T) * count` bytes. */
  method NewArray(arena: MemoryArena, elementSize: nat, count: nat) returns (offset: nat)
    requires arena.Valid() && arena.used + elementSize * count <= arena.capacity
    modifies arena
    ensures arena.Valid() && arena.allocationGranularity == old(arena.allocationGranularity)
    ensures offset == old(arena.used) && arena.used == old(arena.used) + elementSize * count
    ensures old(arena.committed) <= arena.committed
    ensures arena.blocks == old(arena.blocks) + [Block(offset, elementSize * count)]
  {
    offset := arena.Allocate(elementSize * count);
  }

  /** `NewObject(arena, T)`: takes exactly `sizeof(T)` bytes. */
  method NewObject(arena: MemoryArena, objectSize: nat) returns (offset: nat)
    requires arena.Valid() && arena.used + objectSize <= arena.capacity
    modifies arena
    ensures arena.Valid() && arena.allocationGranularity == old(arena.allocationGranularity)
    ensures offset == old(arena.used) && arena.used == old(arena.used) + objectSize
    ensures old(arena.committed) <= arena.committed
    ensures arena.blocks == old(arena.blocks) + [Block(offset, objectSize)]
  {
    offset := arena.Allocate(objectSize);
  }

  /** A push-only list of at most `capacity` elements whose storage is one
      `NewArray` of an arena. `base` is the storage's arena offset, `None` while
      the list has no storage; `storage` holds the elements' values. */
  class ArenaList<T(0)> {
    /** `sizeof(T)`. */
    const elementSize: nat
    var base: Option<nat>
    var storage: array<T>
    var capacity: nat
    var size: nat

    ghost predicate Valid()
      reads this
    {
      size <= capacity && storage.Length == capacity && (base.None? ==> capacity == 0)
    }

    /** The elements in use, in slot order. */
    ghost function Elements(): seq<T>
      reads this, storage
      requires Valid()
    {
      storage[..size]
    }

    /** A list starts with no storage: null base, capacity and size 0. */
    constructor (elementSize: nat)
      ensures Valid() && this.elementSize == elementSize
      ensures base == None && capacity == 0 && size == 0
    {
      this.elementSize := elementSize;
      base := None;
      storage := new T[0];
      capacity := 0;
      size := 0;
    }

    /** Carves room for `capacity` elements out of the arena; only a list without
        storage may do so. */
    method Allocate(arena: MemoryArena, capacity: nat)
      requires Valid() && base.None?
      requires arena.Valid() && arena.used + elementSize * capacity <= arena.capacity
      modifies this, arena
      ensures Valid() && fresh(storage)
      ensures base == Some(old(arena.used)) && this.capacity == capacity && size == 0
      ensures arena.Valid() && arena.used == old(arena.used) + elementSize * capacity
      ensures arena.blocks == old(arena.blocks) + [Block(old(arena.used), elementSize * capacity)]
    {
      var offset := NewArray(arena, elementSize, capacity);
      base := Some(offset);
      storage := new T[capacity];
      this.capacity := capacity;
      size := 0;
    }

    /** `operator[]` read: the element in slot `index`, which must be in use. */
    method Get(index: nat) returns (element: T)
      requires Valid() && index < size
      ensures element == Elements()[index]
    {
      element := storage[index];
    }

    /** `operator[]` write: assigns through the returned reference. */
    method Set(index: nat, element: T)
      requires Valid() && index < size
      modifies storage
      ensures Valid() && Elements() == old(Elements())[index := element]
      ensures storage[..] == old(storage[..])[index := element]
    {
      storage[index] := element;
    }

    /** `new_element`: hands out slot `size`, keeping whatever value the slot
        already holds, and grows the list by exactly one. */
    method NewElement() returns (slot: nat)
      requires Valid() && size < capacity
      modifies this`size
      ensures Valid() && slot == old(size) && size == old(size) + 1
      ensures Elements() == old(Elements()) + [storage[slot]]
    {
      slot := size;
      size := size + 1;
    }

    /** `clear`: empties the list and keeps its storage. */
    method Clear()
      requires Valid()
      modifies this`size
      ensures Valid() && size == 0 && Elements() == []
    {
      size := 0;
    }
  }
}
