/** The monitor's symbol table: growth, sorting by address, and the search for the nearest symbol at or below an address. */
module Symbols {
  import opened Basics

  const MAX_DISTANCE := 0xFFFF_FFFF

  type Address = x: int | 0 <= x < 0x1_0000_0000

  datatype Symbol = Symbol(value: Address, name: string)

  predicate Ordered(s: seq<Symbol>) {
    forall i, j :: 0 <= i < j < |s| ==> s[i].value <= s[j].value
  }

  // ------------------------------------------------------------------- ordering

  function Insert(s: seq<Symbol>, x: Symbol): seq<Symbol> {
    if s == [] || x.value < s[0].value then [x] + s else [s[0]] + Insert(s[1..], x)
  }

  predicate AtLeast(s: seq<Symbol>, low: Address) {
    forall i :: 0 <= i < |s| ==> low <= s[i].value
  }

  lemma PrependOrders(x: Symbol, t: seq<Symbol>)
    requires Ordered(t) && AtLeast(t, x.value)
    ensures Ordered([x] + t)
  {
  }

  lemma {:induction false} InsertAtLeast(s: seq<Symbol>, x: Symbol, low: Address)
    requires AtLeast(s, low) && low <= x.value
    ensures AtLeast(Insert(s, x), low)
  {
    if s != [] && s[0].value <= x.value {
      InsertAtLeast(s[1..], x, low);
    }
  }

  lemma {:induction false} InsertOrders(s: seq<Symbol>, x: Symbol)
    requires Ordered(s)
    ensures Ordered(Insert(s, x))
  {
    if s == [] || x.value < s[0].value {
      PrependOrders(x, s);
    } else {
      InsertOrders(s[1..], x);
      InsertAtLeast(s[1..], x, s[0].value);
      PrependOrders(s[0], Insert(s[1..], x));
    }
  }

  lemma {:induction false} InsertPermutes(s: seq<Symbol>, x: Symbol)
    ensures multiset(Insert(s, x)) == multiset(s) + multiset{x}
  {
    if s != [] && s[0].value <= x.value {
      assert s == [s[0]] + s[1..];
      InsertPermutes(s[1..], x);
    }
  }

  function Sort(s: seq<Symbol>): seq<Symbol> {
    if s == [] then [] else Insert(Sort(s[1..]), s[0])
  }

  lemma {:induction false} SortOrders(s: seq<Symbol>)
    ensures Ordered(Sort(s))
  {
    if s != [] {
      SortOrders(s[1..]);
      InsertOrders(Sort(s[1..]), s[0]);
    }
  }

  lemma {:induction false} SortPermutes(s: seq<Symbol>)
    ensures multiset(Sort(s)) == multiset(s) && |Sort(s)| == |s|
  {
    if s != [] {
      SortPermutes(s[1..]);
      InsertPermutes(Sort(s[1..]), s[0]);
      assert s == [s[0]] + s[1..];
      assert |Sort(s)| == |multiset(Sort(s))|;
    }
  }

  // --------------------------------------------------------------------- search

  /** The index of a symbol with the greatest value not above the key, if there is one. */
  predicate Nearest(s: seq<Symbol>, key: Address, found: Option<nat>) {
    match found
    case None => forall i :: 0 <= i < |s| ==> s[i].value > key
    case Some(k) =>
      k < |s| && s[k].value <= key && forall i :: 0 <= i < |s| && s[i].value <= key ==> s[i].value <= s[k].value
  }

  /** The search ends one past the table and finds the key in what lies there. */
  predicate Overrun(s: seq<Symbol>, key: Address, beyond: Address) {
    key == beyond && forall i :: 0 <= i < |s| ==> s[i].value < key
  }

  /** The distance to every symbol is the largest there is, which no distance beats. */
  predicate TooFar(s: seq<Symbol>, key: Address) {
    key == MAX_DISTANCE && s != [] && forall i :: 0 <= i < |s| ==> s[i].value == 0
  }

  /**
    The search of `rtems_symbol_value_lookup` in the sorted table `s`, where `beyond` is
    the value in the slot after it.  It finds the nearest symbol exactly when it neither
    overruns the table nor is too far from every symbol.
   */
  method Search(s: seq<Symbol>, key: Address, beyond: Address) returns (found: Option<nat>)
    requires Ordered(s)
    ensures Nearest(s, key, found) <==> !Overrun(s, key, beyond) && !TooFar(s, key)
    ensures Overrun(s, key, beyond) ==> found == Some(|s|)
    ensures TooFar(s, key) && !Overrun(s, key, beyond) ==> found == None
  {
    found := None;
    var bestDistance := MAX_DISTANCE;
    var base, elements := 0, |s|;
    while elements != 0
      invariant 0 <= base <= base + elements <= |s|
      invariant forall i :: 0 <= i < base ==> s[i].value < key
      invariant forall i :: base + elements <= i < |s| ==> s[i].value > key
      invariant bestDistance == if base == 0 then MAX_DISTANCE else key - s[base - 1].value
      invariant found.None? <==> bestDistance == MAX_DISTANCE
      invariant found.Some? ==> found.value < base && s[found.value].value == s[base - 1].value
      decreases elements
    {
      var sp := base + elements / 2;
      if key < s[sp].value {
        elements := elements / 2;
      } else if key > s[sp].value {
        var distance := key - s[sp].value;
        if distance < bestDistance {
          bestDistance := distance;
          found := Some(sp);
        }
        base := sp + 1;
        elements := elements / 2 - (if elements % 2 != 0 then 0 else 1);
      } else {
        return Some(sp);
      }
    }
    if key == (if base < |s| then s[base].value else beyond) {
      found := Some(base);
    }
  }

  // ---------------------------------------------------------------------- table

  const GROWTH_FACTOR := 30
  const FIRST_SIZE := 100

  /** Whether the allocator can serve the symbol array and the string block. */
  datatype Memory = Memory(array_: bool, block: bool)

  /** A larger array with the same first `n` elements; the rest is arbitrary. */
  method Reallocate(a: array<Symbol>, n: nat, size: nat) returns (b: array<Symbol>)
    requires n <= a.Length && n <= size
    ensures fresh(b) && b.Length == size && b[..n] == a[..n]
  {
    b := new Symbol[size];
    for i := 0 to n
      modifies b
      invariant b[..i] == a[..i]
    {
      b[i] := a[i];
    }
  }

  /** Replaces the first elements of an array. */
  method Overwrite(a: array<Symbol>, s: seq<Symbol>)
    requires |s| <= a.Length
    modifies a
    ensures a[..|s|] == s && a[|s|..] == old(a[|s|..])
  {
    for i := 0 to |s|
      invariant a[..i] == s[..i]
      invariant a[|s|..] == old(a[|s|..])
    {
      a[i] := s[i];
    }
  }

  class Table {
    /** The storage of the symbols; null before the first symbol and when it was lost. */
    var addresses: array?<Symbol>
    var size: nat
    var next: nat
    var isSorted: bool

    ghost predicate Valid()
      reads this, addresses
    {
      && (size == 0 || size >= FIRST_SIZE)
      && next <= size
      && (if size == 0 then addresses == null else addresses != null && addresses.Length == size)
      && (isSorted ==> Ordered(Live()))
    }

    /** The symbols added so far, in storage order. */
    ghost function Live(): seq<Symbol>
      reads this, addresses
    {
      if addresses != null && next <= addresses.Length then addresses[..next] else []
    }

    constructor ()
      ensures Valid() && Live() == []
    {
      addresses, size, next, isSorted := null, 0, 0, false;
    }

    /** Makes the array larger; what it holds beyond the symbols is arbitrary. */
    method Grow(memory: Memory) returns (ok: bool)
      requires Valid() && next == size
      modifies this`addresses, this`size
      ensures ok == memory.array_
      ensures ok ==> Valid() && fresh(addresses) && Live() == old(Live()) && next < size
      ensures ok ==> size == if old(size) == 0 then FIRST_SIZE else old(size) + old(size) / 3
      ensures !ok ==> addresses == null && size == old(size)
    {
      var newSize := if size == 0 then FIRST_SIZE else size + size / (100 / GROWTH_FACTOR);
      if !memory.array_ {
        addresses := null;
        return false;
      }
      if addresses == null {
        addresses := new Symbol[newSize];
      } else {
        addresses := Reallocate(addresses, next, newSize);
      }
      size := newSize;
      ok := true;
    }

    /**
      `rtems_symbol_create`; `needsBlock` tells that the name does not fit the current
      string block.  A failure to grow loses the table; a failure to get a string block
      leaves the symbols as they were.
     */
    method Create(name: string, value: Address, needsBlock: bool, memory: Memory) returns (created: bool)
      requires Valid()
      modifies this, addresses
      ensures created == ((old(next) < old(size) || memory.array_) && (!needsBlock || memory.block))
      ensures created ==> Valid() && !isSorted && Live() == old(Live()) + [Symbol(value, name)]
      ensures !created ==> next == old(next)
      ensures !created && (old(next) < old(size) || memory.array_) ==> Valid() && Live() == old(Live())
      ensures old(next) == old(size) && !memory.array_ ==> addresses == null
    {
      if next >= size {
        var ok := Grow(memory);
        if !ok {
          return false;
        }
      }
      ghost var live := Live();
      addresses[next] := Symbol(value, addresses[next].name);
      assert Live() == live;
      if needsBlock && !memory.block {
        return false;
      }
      addresses[next] := Symbol(value, name);
      isSorted := false;
      next := next + 1;
      assert Live() == live + [Symbol(value, name)];
      created := true;
    }

    /** `rtems_symbol_sort`: the slots in use are ordered by address, the others untouched. */
    method SortTable()
      requires Valid() && size > 0
      modifies this`isSorted, addresses
      ensures Valid() && isSorted
      ensures multiset(Live()) == multiset(old(Live()))
      ensures addresses[next..] == old(addresses[next..])
    {
      var ordered := Sort(addresses[..next]);
      SortOrders(addresses[..next]);
      SortPermutes(addresses[..next]);
      Overwrite(addresses, ordered);
      isSorted := true;
    }

    /**
      `rtems_symbol_value_lookup` as a whole; `past` is what memory holds after the array.
      The slot after the last symbol is part of the array unless the array is full.
     */
    method ValueLookup(value: Address, past: Address) returns (found: Option<nat>)
      requires Valid()
      modifies this`isSorted, addresses
      ensures Valid() && multiset(Live()) == multiset(old(Live()))
      ensures size == 0 ==> found == None
      ensures size > 0 ==>
                var beyond := if next < size then addresses[next].value else past;
                && (Nearest(Live(), value, found) <==> !Overrun(Live(), value, beyond) && !TooFar(Live(), value))
                && (Overrun(Live(), value, beyond) ==> found == Some(next))
    {
      if size == 0 {
        return None;
      }
      if !isSorted {
        SortTable();
      }
      found := Search(addresses[..next], value, if next < size then addresses[next].value else past);
    }
  }
}
