/** The shared header of the compiler: the growable array behind the
    `da_reserve` / `da_append` / `da_append_many` macros, the token model of
    the lexer and the event model the parser produces. */
module Mml {
  import opened Bytes

  // ---------------------------------------------------------------------------
  // Dynamic arrays
  // ---------------------------------------------------------------------------

  const DaInitCapacity: nat := 32

  /** The capacities growth can produce: 32 doubled k times, for some k. */
  predicate IsGrownCapacity(c: nat)
    decreases c
  {
    c == DaInitCapacity || (c > DaInitCapacity && c % 2 == 0 && IsGrownCapacity(c / 2))
  }

  /** The capacity the doubling loop of `da_reserve` stops at, starting from `c`. */
  function GrowFrom(c: nat, need: nat): nat
    requires c > 0
    decreases need - c
  {
    if need > c then GrowFrom(2 * c, need) else c
  }

  /** The doubling loop stops at the first doubling of `c` that covers `need`,
      and keeps the form 32 * 2^k. */
  lemma {:induction false} GrowFromProperties(c: nat, need: nat)
    requires c > 0
    ensures GrowFrom(c, need) >= need && GrowFrom(c, need) >= c
    ensures GrowFrom(c, need) == c || GrowFrom(c, need) / 2 < need
    ensures IsGrownCapacity(c) ==> IsGrownCapacity(GrowFrom(c, need))
    decreases need - c
  {
    if need > c {
      GrowFromProperties(2 * c, need);
      assert (2 * c) / 2 == c;
    }
  }

  /** The capacity `da_reserve(da, need)` leaves behind when it had capacity `c`. */
  function Reserved(c: nat, need: nat): nat
  {
    if need > c then GrowFrom(if c == 0 then DaInitCapacity else c, need) else c
  }

  /** Reserving never shrinks, always covers the request, keeps a capacity
      of the form 32 * 2^k, and changes nothing when the request already fits. */
  lemma ReservedProperties(c: nat, need: nat)
    requires c == 0 || IsGrownCapacity(c)
    ensures Reserved(c, need) >= c && Reserved(c, need) >= need
    ensures need <= c ==> Reserved(c, need) == c
    ensures need > c ==> IsGrownCapacity(Reserved(c, need))
  {
    if need > c {
      var c0 := if c == 0 then DaInitCapacity else c;
      assert IsGrownCapacity(c0);
      GrowFromProperties(c0, need);
    }
  }

  /** A growable array (`items`, `size`, `capacity`).  The live items are the
      sequence `items`, so `size` is `|items|`. */
  class DynArray<T> {
    var items: seq<T>
    var capacity: nat

    ghost predicate Valid()
      reads this
    {
      |items| <= capacity && (capacity == 0 || IsGrownCapacity(capacity))
    }

    /** A zero-initialised dynamic array. */
    constructor ()
      ensures Valid() && items == [] && capacity == 0
    {
      items := [];
      capacity := 0;
    }

    /** `da_reserve`: grow the capacity to at least `newCap` by doubling from 32. */
    method Reserve(newCap: nat)
      requires Valid()
      modifies this`capacity
      ensures Valid() && capacity >= old(capacity) && capacity >= newCap
      ensures capacity == Reserved(old(capacity), newCap)
    {
      ghost var c := capacity;
      ReservedProperties(c, newCap);
      if newCap > capacity {
        if capacity == 0 {
          capacity := DaInitCapacity;
        }
        while newCap > capacity
          invariant capacity > 0
          invariant GrowFrom(capacity, newCap) == Reserved(c, newCap)
          decreases newCap - capacity
        {
          capacity := capacity * 2;
        }
      }
    }

    /** `da_append`: store `item` at index `size` and bump `size`. */
    method Append(item: T)
      requires Valid()
      modifies this
      ensures Valid()
      ensures items == old(items) + [item]
      ensures capacity == Reserved(old(capacity), old(|items|) + 1)
    {
      Reserve(|items| + 1);
      items := items + [item];
    }

    /** `da_append_many`: copy `newItems` after the live items. */
    method AppendMany(newItems: seq<T>)
      requires Valid()
      modifies this
      ensures Valid()
      ensures items == old(items) + newItems
      ensures capacity == Reserved(old(capacity), old(|items|) + |newItems|)
    {
      Reserve(|items| + |newItems|);
      items := items + newItems;
    }
  }

  // ---------------------------------------------------------------------------
  // Tokens
  // ---------------------------------------------------------------------------

  datatype TokenKind =
    | Number | Expansion | Definition | Command | NoteLetter
    | Plus | Minus | Dot | Semicolon | LBracket | RBracket | Colon
    | LBrace | RBrace | Unknown | Eof

  /** A token: its kind and its view (offset and size, in bytes) into the
      source buffer.  The end-of-input token has the empty view (offset 0). */
  datatype Token = Token(kind: TokenKind, offset: nat, size: nat)

  // ---------------------------------------------------------------------------
  // Events
  // ---------------------------------------------------------------------------

  /** An event of the intermediate representation.  `pitch` and `cmd` are the
      first byte of the note or command token; `length` 0 means "the default
      length" and `value` 0 means "no argument".  `tie` and `chordLink` are
      read by the translator but never set by the parser. */
  datatype Event =
    | Note(pitch: Byte, length: Uint32, dots: nat, acc: int, tie: bool, chordLink: bool)
    | Control(cmd: Byte, value: Uint32)
    | EndOfTrack
}
