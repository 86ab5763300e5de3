/** The free functions over tombstone optionals: equality and three-way
    comparison against std::nullopt, against a bare value and against another
    container, the free swap, and the std::hash specialisation. T's own ==,
    <=> and hash are parameters. */
module OptionalOperators {
  import opened Optional

  /** The result of a three-way comparison. */
  datatype Ordering = Less | Equivalent | Greater | Unordered

  /** The ordering with its operands exchanged, as the rewritten reversed
      comparison `0 <=> (a <=> b)` computes it. */
  function Reversed(o: Ordering): (r: Ordering)
    ensures r == Less <==> o == Greater
    ensures r == Greater <==> o == Less
    ensures r == Equivalent <==> o == Equivalent
    ensures r == Unordered <==> o == Unordered
  {
    match o
    case Less => Greater
    case Greater => Less
    case _ => o
  }

  /** bool <=> bool: false sorts before true. */
  function CompareBools(x: bool, y: bool): (r: Ordering)
    ensures r == Equivalent <==> x == y
    ensures r == Less <==> !x && y
    ensures r != Unordered
  {
    if x == y then Equivalent else if x then Greater else Less
  }

  /** a == std::nullopt: it holds exactly when a <=> std::nullopt is
      equivalent. */
  function EqualsNullopt<T(!new)>(a: TombstoneOptional<T>): (r: bool)
    reads a
    ensures r <==> CompareNullopt(a) == Equivalent
    ensures r <==> !a.HasValue()
  {
    !a.HasValue()
  }

  /** a == b for a bare value b */
  function EqualsValue<T(!new), U>(a: TombstoneOptional<T>, b: U, eq: (T, U) -> bool): (r: bool)
    reads a
    ensures r <==> a.HasValue() && eq(a.slot, b)
  {
    a.HasValue() && eq(a.Deref(), b)
  }

  /** a == b for two containers: true only when both hold equal values. */
  function EqualsOptional<T(!new), U(!new)>(a: TombstoneOptional<T>, b: TombstoneOptional<U>,
                                            eq: (T, U) -> bool): (r: bool)
    reads a, b
    ensures r <==> a.HasValue() && b.HasValue() && eq(a.slot, b.slot)
    ensures !a.HasValue() && !b.HasValue() ==> !r
  {
    a.HasValue() && b.HasValue() && eq(a.Deref(), b.Deref())
  }

  /** a <=> b for a bare value b: an empty container sorts first. */
  function CompareValue<T(!new), U>(a: TombstoneOptional<T>, b: U, cmp: (T, U) -> Ordering): (r: Ordering)
    reads a
    ensures !a.HasValue() ==> r == Less
    ensures a.HasValue() ==> r == cmp(a.slot, b)
  {
    if a.HasValue() then cmp(a.Deref(), b) else Less
  }

  /** a <=> std::nullopt: never less. */
  function CompareNullopt<T(!new)>(a: TombstoneOptional<T>): (r: Ordering)
    reads a
    ensures r != Less && r != Unordered
    ensures r == Equivalent <==> !a.HasValue()
    ensures r == Greater <==> a.HasValue()
  {
    CompareBools(a.HasValue(), false)
  }

  /** a <=> b for two containers: presence decides unless both hold values. */
  function CompareOptionals<T(!new), U(!new)>(a: TombstoneOptional<T>, b: TombstoneOptional<U>,
                                              cmp: (T, U) -> Ordering): (r: Ordering)
    reads a, b
    ensures a.HasValue() && b.HasValue() ==> r == cmp(a.slot, b.slot)
    ensures !a.HasValue() && b.HasValue() ==> r == Less
    ensures a.HasValue() && !b.HasValue() ==> r == Greater
    ensures !a.HasValue() && !b.HasValue() ==> r == Equivalent
  {
    var aHas := a.HasValue();
    var bHas := b.HasValue();
    if aHas && bHas then cmp(a.Deref(), b.Deref()) else CompareBools(aHas, bHas)
  }

  /** T's == and <=> agree: equality is exactly an Equivalent ordering. */
  ghost predicate Consistent<T(!new), U(!new)>(eq: (T, U) -> bool, cmp: (T, U) -> Ordering) {
    forall x, y :: eq(x, y) <==> cmp(x, y) == Equivalent
  }

  /** Against std::nullopt, == and <=> agree. */
  lemma NulloptEqualityMatchesOrdering<T(!new)>(a: TombstoneOptional<T>)
    ensures EqualsNullopt(a) <==> CompareNullopt(a) == Equivalent
  {
  }

  /** Against a bare value, == and <=> agree whenever T's own do. */
  lemma ValueEqualityMatchesOrdering<T(!new), U(!new)>(a: TombstoneOptional<T>, b: U,
                                                 eq: (T, U) -> bool, cmp: (T, U) -> Ordering)
    requires Consistent(eq, cmp)
    ensures EqualsValue(a, b, eq) <==> CompareValue(a, b, cmp) == Equivalent
    ensures !a.HasValue() ==> !EqualsValue(a, b, eq) && CompareValue(a, b, cmp) == Less
  {
  }

  /** Between two containers, == and <=> agree except on two empty ones,
      which <=> reports equivalent and == reports unequal. */
  lemma OptionalEqualityVersusOrdering<T(!new), U(!new)>(a: TombstoneOptional<T>, b: TombstoneOptional<U>,
                                                         eq: (T, U) -> bool, cmp: (T, U) -> Ordering)
    requires Consistent(eq, cmp)
    ensures a.HasValue() || b.HasValue() ==>
              (EqualsOptional(a, b, eq) <==> CompareOptionals(a, b, cmp) == Equivalent)
    ensures !a.HasValue() && !b.HasValue() ==>
              !EqualsOptional(a, b, eq) && CompareOptionals(a, b, cmp) == Equivalent
  {
  }

  /** std::nullopt <=> a, the reversed form: std::nullopt is never greater. */
  lemma NulloptNeverSortsAfter<T(!new)>(a: TombstoneOptional<T>)
    ensures Reversed(CompareNullopt(a)) != Greater
    ensures Reversed(CompareNullopt(a)) == Less <==> a.HasValue()
  {
  }

  /** cmp' is cmp with its operands exchanged. */
  ghost predicate Mirrored<T(!new), U(!new)>(cmp: (T, U) -> Ordering, cmpMirror: (U, T) -> Ordering) {
    forall x, y :: cmpMirror(y, x) == Reversed(cmp(x, y))
  }

  /** b <=> a for two containers gives the reverse of a <=> b whenever T's
      and U's comparisons mirror each other. */
  lemma CompareOptionalsMirrored<T(!new), U(!new)>(a: TombstoneOptional<T>, b: TombstoneOptional<U>,
                                                   cmp: (T, U) -> Ordering, cmpMirror: (U, T) -> Ordering)
    requires Mirrored(cmp, cmpMirror)
    ensures CompareOptionals(b, a, cmpMirror) == Reversed(CompareOptionals(a, b, cmp))
  {
  }

  /** b <=> a for a bare value b, the rewritten candidate `0 <=> (a <=> b)`:
      any value sorts after an empty container. */
  function CompareValueReversed<T(!new), U>(b: U, a: TombstoneOptional<T>, cmp: (T, U) -> Ordering): (r: Ordering)
    reads a
    ensures !a.HasValue() ==> r == Greater
    ensures a.HasValue() ==> r == Reversed(cmp(a.slot, b))
  {
    Reversed(CompareValue(a, b, cmp))
  }

  /** The rewritten b <=> a agrees with U's own comparison of b against the
      held value, whenever that comparison mirrors T's. */
  lemma CompareValueReversedMirrored<T(!new), U(!new)>(b: U, a: TombstoneOptional<T>,
                                                       cmp: (T, U) -> Ordering, cmpMirror: (U, T) -> Ordering)
    requires Mirrored(cmp, cmpMirror)
    ensures a.HasValue() ==> CompareValueReversed(b, a, cmp) == cmpMirror(b, a.slot)
    ensures Reversed(CompareValueReversed(b, a, cmp)) == CompareValue(a, b, cmp)
    ensures !a.HasValue() ==> CompareValue(a, b, cmp) == Less
    ensures a.HasValue() ==> CompareValue(a, b, cmp) == Reversed(cmpMirror(b, a.slot))
  {
  }

  /** The free swap(a, b) is a.swap(b), with everything the member promises. */
  method Swap<T(!new)>(a: TombstoneOptional<T>, b: TombstoneOptional<T>)
    requires a.Valid() && b.Valid()
    requires a.policy == b.policy && a.traits == b.traits
    modifies a, b
    ensures a.Valid() && b.Valid()
    ensures a.HasValue() == old(b.HasValue()) && b.HasValue() == old(a.HasValue())
    ensures a.HasValue() ==> a.slot == old(b.slot)
    ensures b.HasValue() ==> b.slot == old(a.slot)
    ensures a.EasilySwappable() ==>
              a.slot == old(b.slot) && b.slot == old(a.slot) && a.tag == old(b.tag) && b.tag == old(a.tag)
              && a.mishaps == old(a.mishaps) && b.mishaps == old(b.mishaps)
    ensures !a.EasilySwappable() && old(a.HasValue()) == old(b.HasValue()) ==>
              (old(a.HasValue()) ==> a.slot == old(b.slot) && b.slot == old(a.slot))
              && (!old(a.HasValue()) ==> a.slot == old(a.slot) && b.slot == old(b.slot))
              && a.tag == old(a.tag) && b.tag == old(b.tag)
              && a.mishaps == old(a.mishaps) && b.mishaps == old(b.mishaps)
    ensures !a.EasilySwappable() && old(a.HasValue()) && !old(b.HasValue()) ==>
              b.slot == old(a.slot) && b.tag == ValueLive
              && b.mishaps == old(b.mishaps) + old(b.ConstructMishap())
              && a.ResetAfterMoveOut(old(a.slot), old(a.tag), old(a.mishaps))
    ensures !a.EasilySwappable() && !old(a.HasValue()) && old(b.HasValue()) ==>
              a.slot == old(b.slot) && a.tag == ValueLive
              && a.mishaps == old(a.mishaps) + old(a.ConstructMishap())
              && b.ResetAfterMoveOut(old(b.slot), old(b.tag), old(b.mishaps))
  {
    a.Swap(b);
  }

  /** Swapping twice restores both containers' presence and values, in all
      four presence combinations. */
  method SwapTwice<T(!new)>(a: TombstoneOptional<T>, b: TombstoneOptional<T>)
    requires a.Valid() && b.Valid()
    requires a.policy == b.policy && a.traits == b.traits
    modifies a, b
    ensures a.Valid() && b.Valid()
    ensures a.HasValue() == old(a.HasValue()) && b.HasValue() == old(b.HasValue())
    ensures a.HasValue() ==> a.slot == old(a.slot)
    ensures b.HasValue() ==> b.slot == old(b.slot)
  {
    Swap(a, b);
    Swap(a, b);
  }

  /** size_t */
  type SizeT = x: int | 0 <= x < 0x1_0000_0000_0000_0000

  /** std::hash of a container: 0 when empty, T's hash of the value otherwise. */
  function Hash<T(!new)>(a: TombstoneOptional<T>, hashT: T -> SizeT): (r: SizeT)
    reads a
    ensures !a.HasValue() ==> r == 0
    ensures a.HasValue() ==> r == hashT(a.slot)
  {
    if a.HasValue() then hashT(a.Deref()) else 0
  }

  /** Containers that compare equal hash alike when T's hash respects T's ==;
      two empty containers hash alike too, although == calls them unequal. */
  lemma HashRespectsEquality<T(!new)>(a: TombstoneOptional<T>, b: TombstoneOptional<T>,
                                      eq: (T, T) -> bool, hashT: T -> SizeT)
    requires forall x, y :: eq(x, y) ==> hashT(x) == hashT(y)
    ensures EqualsOptional(a, b, eq) ==> Hash(a, hashT) == Hash(b, hashT)
    ensures !a.HasValue() && !b.HasValue() ==> Hash(a, hashT) == Hash(b, hashT) && !EqualsOptional(a, b, eq)
    ensures !a.HasValue() ==> Hash(a, hashT) == 0
    ensures a.HasValue() ==> Hash(a, hashT) == hashT(a.slot)
  {
  }
}
