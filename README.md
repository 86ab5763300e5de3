# tombstone_optional in Dafny

`zxshady::tombstone_optional<T, Interface>` is an optional value that keeps no
presence flag. Its single storage slot holds either a live `T` or a
representation reserved by the `Interface` policy (the *null state*). Presence
is recomputed each time it is asked for, as `!Interface::is_null(slot)`. The
policy supplies `is_null` and `initialize_null_state`. It may also declare
`destroy_null_state`; a policy without one has a *trivial null destroyer*.

This project models the C++20 implementation of the container and the test
policies its test suite uses.

- `cstring.dfy`, module `CString`: `memcmp`, `memset` and `memcpy` over bytes.
  Only the sign of `memcmp` is used, so the model returns -1, 0 or 1.
- `optional.dfy`, module `Optional`: these types and the class:
  - `Policy<T>` describes the `Interface`.
  - `TypeTraits<T>` holds the facts about `T` that the container dispatches on.
    These are the triviality traits and what a move leaves in its source.
  - The class `TombstoneOptional<T>` holds the slot as the field `slot`.
    - Two ghost fields follow the C++ object lifetime in that slot. `tag` says
      which object, if any, is alive there.
    - `mishaps` records each breach of the construct/destroy discipline: a
      destructor run on a dead object, or a live object with a non-trivial
      destructor that is overwritten or abandoned.
    - A destructor leaves the slot's bits as they were, so a later `has_value()`
      reads those stale bits. That is what the C++ code does; in C++ it is
      undefined behaviour.
    - Each member chooses between its defaulted and its user-defined form by
      the same conditions as the `requires` clauses of the source.
- `operators.dfy`, module `OptionalOperators`: the free functions.
  - Equality and three-way comparison against `std::nullopt`, against a value
    and against another container.
  - The free `swap` and `std::hash`.
  - `T`'s own `==`, `<=>` and hash are parameters.
- `policies.dfy`, module `TestPolicies`: the policies of `tests/interface.hpp`.
  - `ZeroBitPatternInterface`, `DefaultConstructorInterface`,
    `StringSetToNullInterface`, `Interface<bool>` and `Interface<NonNeg<T>>`.
  - The `NonNeg` class.
  - Each `initialize_null_state` is written out step by step.
- `scenarios.dfy`, module `Scenarios`: the test cases replayed on the model.
  Each promises what its test checks, except where the member's row says
  otherwise. `StringAssignFromEmpty`, `StringDestructor` and `BoolContainer`
  replay no test; they exhibit the code's behaviour on inputs the tests do
  not try.

Where the code departs from the design:

- `==` between two containers is false when both are empty, while `<=>`
  calls them equivalent (`OptionalOperators.OptionalEqualityVersusOrdering`).
- The user-defined copy and move assignments leave no live object in the slot
  when the source is empty.
- The user-defined destructor destroys a held value a second time as the null
  state when the policy declares `destroy_null_state`.
- The bitwise `swap` is meant to be skipped for a `T` with a `swap` of its
  own. The test at line 388 cannot see one, though. Inside the member `swap`,
  unqualified lookup of `swap` finds the member itself, which switches off
  argument-dependent lookup. The member takes one argument, so the test is
  true for every `T`. The model follows the code: `EasilySwappable` depends
  on triviality alone, and a trivially copyable `T` is swapped bitwise even
  when it declares a `swap`.
- A null state that has a non-trivial destructor is constructed over without
  being destroyed. This happens in `emplace`, in assignment of a value or a
  present container to an empty one, and on the receiving side of a one-sided
  `swap`.

The model follows the code in each case. The first fact is proved as a lemma.
The last is recorded as `NeverDestroyed` in the contracts. The two assignments
and the destructor are listed under Findings, each with a corrected member
beside it.

## Model

| member | source | states |
|---|---|---|
| `CString.Memcmp` | tests/interface.hpp:39 | on equal-length byte strings, the result is 0 exactly when they are equal, and it is -1, 0 or 1 |
| `CString.MemcmpAntisymmetric` | tests/interface.hpp:96 | exchanging the operands of memcmp negates its result |
| `CString.Zeros` | tests/interface.hpp:35 | n bytes, every one of them zero |
| `CString.Memset` | tests/interface.hpp:41 | every byte of the destination holds the value afterwards |
| `CString.Memcpy` | tests/interface.hpp:97 | the destination holds exactly the source bytes afterwards |
| `Optional.TombstoneOptional.TrivialNullDestroyer` | tombstone_optional/include/zxshady/optional_cpp20.hpp:410 | true exactly when the policy declares no destroy_null_state; a policy that declares one rules out every defaulted special member and the bitwise swap |
| `Scenarios.NonNegOptDispatch` | tombstone_optional/include/zxshady/optional_cpp20.hpp:143-161 | for NonNegOpt<int>, the requires clauses of lines 143-161 choose every defaulted special member (`DefaultedCopyConstruct`, `DefaultedCopyAssign`, `DefaultedDestructor` and the two move forms), and the swap is bitwise, so the user-defined members behind the Findings never run |
| `Scenarios.OptStringDispatch` | tombstone_optional/include/zxshady/optional_cpp20.hpp:143-161 | for OptString, whose policy declares destroy_null_state, none of the defaulted special members is chosen and the swap is member-wise, so every Finding applies to it |
| `Optional.TombstoneOptional.DefaultedMoveConstruct` | tombstone_optional/include/zxshady/optional_cpp20.hpp:147-150 | the defaulted move constructor is chosen exactly when T's move constructor is trivial and the policy declares no destroy_null_state; it then leaves its source as it was |
| `Optional.TombstoneOptional.DefaultedMoveAssign` | tombstone_optional/include/zxshady/optional_cpp20.hpp:155-158 | the defaulted move assignment is chosen exactly when T's move assignment is trivial and the policy declares no destroy_null_state; it then leaves its source as it was |
| `Optional.TombstoneOptional.EasilySwappable` | tombstone_optional/include/zxshady/optional_cpp20.hpp:386-388 | the bitwise swap is chosen exactly when the destructor, the move constructor and the move assignment are all the defaulted ones, so that a move leaves its source as it was |
| `Optional.TombstoneOptional.HasValue` | tombstone_optional/include/zxshady/optional_cpp20.hpp:379-380 | a slot whose null state is live reports no value |
| `Optional.TombstoneOptional.Deref` | tombstone_optional/include/zxshady/optional_cpp20.hpp:317-337 | only callable on a present container; the reference it yields is never the null representation |
| `Optional.TombstoneOptional.Value` | tombstone_optional/include/zxshady/optional_cpp20.hpp:339-363 | Ok exactly when a value is present, carrying that value; otherwise bad_optional_access |
| `Optional.TombstoneOptional.ValueOr` | tombstone_optional/include/zxshady/optional_cpp20.hpp:365-369 | the held value when present, the default otherwise, in agreement with value() |
| `Optional.TombstoneOptional.ValueMove` | tombstone_optional/include/zxshady/optional_cpp20.hpp:352-357 | initialising a T from `std::move(o).value()` yields what value() yields, and a held value is moved out, leaving T's moved-from state |
| `Optional.TombstoneOptional.ValueOrMove` | tombstone_optional/include/zxshady/optional_cpp20.hpp:370-374 | returns what value_or returns; a present value is moved out, leaving T's moved-from state, and the lifetime is unchanged |
| `Optional.TombstoneOptional.ConstructAt` | tombstone_optional/include/zxshady/optional_cpp20.hpp:175 | construct_at makes v the live value; constructing over a live object with a non-trivial destructor is a NeverDestroyed mishap |
| `Optional.TombstoneOptional.InitializeNullState` | tombstone_optional/include/zxshady/optional_cpp20.hpp:177 | the slot holds the policy's null state, which is live |
| `Optional.TombstoneOptional.DestroyValue` | tombstone_optional/include/zxshady/optional_cpp20.hpp:287 | ~T() ends the object's lifetime and leaves the bits; destroying a dead object is a DoubleDestroy mishap |
| `Optional.TombstoneOptional.DestroyNullState` | tombstone_optional/include/zxshady/optional_cpp20.hpp:279-280 | destroy_null_state ends the lifetime of the object in the slot and leaves the bits; destroying a dead object is a DoubleDestroy mishap |
| `Optional.TombstoneOptional.Empty` | tombstone_optional/include/zxshady/optional_cpp20.hpp:98-99 | the default and nullopt constructors leave the container empty, with the null state live and no mishap |
| `Optional.TombstoneOptional.FromValue` | tombstone_optional/include/zxshady/optional_cpp20.hpp:101-130 | constructing from a value that is not the null representation (the asserted precondition) yields a container holding it |
| `Optional.TombstoneOptional.Converting` | tombstone_optional/include/zxshady/optional_cpp20.hpp:132-141 | constructs the converted value of a present source, or the null state for an empty one; present exactly when the source is present and the converted value is not null |
| `Optional.TombstoneOptional.Copy` | tombstone_optional/include/zxshady/optional_cpp20.hpp:171-178 | the copy has the source's presence and value; the defaulted form copies the slot and its lifetime verbatim, the user-defined form constructs the value or the null state; the defaulted form is chosen as at lines 143-146 |
| `Optional.TombstoneOptional.Move` | tombstone_optional/include/zxshady/optional_cpp20.hpp:180-187 | as the copy constructor, and the user-defined form leaves a moved-from value in a present source; the defaulted form is chosen as at lines 147-150 |
| `Optional.TombstoneOptional.CopyAssign` | tombstone_optional/include/zxshady/optional_cpp20.hpp:189-205 | every state pair of the user-defined form: assign, construct, destroy the value, destroy a non-trivial null state, or nothing; the defaulted form copies the slot |
| `Optional.TombstoneOptional.MoveAssign` | tombstone_optional/include/zxshady/optional_cpp20.hpp:207-223 | as copy assignment, with a present source's value moved out of it |
| `Optional.TombstoneOptional.CopyAssignIntended` | tombstone_optional/include/zxshady/optional_cpp20.hpp:189-205 | afterwards presence and value are the source's, and a slot that held a live object still does |
| `Optional.TombstoneOptional.MoveAssignIntended` | tombstone_optional/include/zxshady/optional_cpp20.hpp:207-223 | as CopyAssignIntended, with a present source's value moved out of it |
| `Optional.TombstoneOptional.AssignNullopt` | tombstone_optional/include/zxshady/optional_cpp20.hpp:225-229 | assigning std::nullopt empties the container as reset() does |
| `Optional.TombstoneOptional.AssignValue` | tombstone_optional/include/zxshady/optional_cpp20.hpp:232-248 | the container holds v afterwards, assigned over a held value or constructed over the null state |
| `Optional.TombstoneOptional.ConvertAssign` | tombstone_optional/include/zxshady/optional_cpp20.hpp:249-258 | presence follows the other container; a present value is emplaced converted, an empty source resets |
| `Optional.TombstoneOptional.ConvertMoveAssign` | tombstone_optional/include/zxshady/optional_cpp20.hpp:260-272 | as ConvertAssign, and the source's value is moved out |
| `Optional.TombstoneOptional.Destruct` | tombstone_optional/include/zxshady/optional_cpp20.hpp:274-281 | the defaulted destructor, chosen as at lines 159-161, runs nothing; the user-defined one destroys a held value and then, with destroy_null_state, the same slot again |
| `Optional.TombstoneOptional.DestructIntended` | tombstone_optional/include/zxshady/optional_cpp20.hpp:274-281 | a live null state, or a live held value, is destroyed exactly once with no mishap |
| `Optional.TombstoneOptional.Reset` | tombstone_optional/include/zxshady/optional_cpp20.hpp:284-290 | the container is empty afterwards; a held value is destroyed and the null state installed; an empty container is untouched |
| `Optional.TombstoneOptional.DestroyNoNullState` | tombstone_optional/include/zxshady/optional_cpp20.hpp:412-417 | a held value is destroyed only when T's destructor is non-trivial, and the null state never is |
| `Optional.TombstoneOptional.Emplace` | tombstone_optional/include/zxshady/optional_cpp20.hpp:292-314 | the container holds v and returns it; a live non-trivial null state is overwritten without being destroyed |
| `Optional.TombstoneOptional.Swap` | tombstone_optional/include/zxshady/optional_cpp20.hpp:382-408 | presence and values are exchanged in all four presence cases; the bitwise, both-same and one-sided paths each change exactly what the code changes |
| `OptionalOperators.Reversed` | tombstone_optional/include/zxshady/optional_cpp20.hpp:452-464 | the rewritten reversed comparison `0 <=> (a <=> b)` turns less into greater and greater into less, and keeps equivalent and unordered |
| `OptionalOperators.CompareBools` | tombstone_optional/include/zxshady/optional_cpp20.hpp:463 | bool <=> bool: equivalent when equal, false before true |
| `OptionalOperators.EqualsNullopt` | tombstone_optional/include/zxshady/optional_cpp20.hpp:431-435 | a == std::nullopt holds exactly when a <=> std::nullopt (lines 460-464) is equivalent, that is, exactly when a is empty |
| `OptionalOperators.EqualsOptional` | tombstone_optional/include/zxshady/optional_cpp20.hpp:444-450 | equal exactly when both are present with equal values, so two empties are unequal |
| `OptionalOperators.CompareNullopt` | tombstone_optional/include/zxshady/optional_cpp20.hpp:460-464 | never less than std::nullopt: equivalent when empty, greater when present |
| `OptionalOperators.CompareOptionals` | tombstone_optional/include/zxshady/optional_cpp20.hpp:467-476 | presence orders first, with empty before present; two present values compare by T's <=> |
| `OptionalOperators.NulloptEqualityMatchesOrdering` | tombstone_optional/include/zxshady/optional_cpp20.hpp:431-464 | == std::nullopt agrees with <=> std::nullopt being equivalent |
| `OptionalOperators.ValueEqualityMatchesOrdering` | tombstone_optional/include/zxshady/optional_cpp20.hpp:437-458 | `EqualsValue` (a == b, lines 437-442) and `CompareValue` (a <=> b, lines 452-458) agree for every container and value whenever T's == and <=> agree: == holds exactly when <=> is equivalent, so an empty container equals no value and sorts before all of them |
| `OptionalOperators.OptionalEqualityVersusOrdering` | tombstone_optional/include/zxshady/optional_cpp20.hpp:444-476 | between containers, == agrees with <=> unless both are empty, where <=> says equivalent and == says unequal |
| `OptionalOperators.NulloptNeverSortsAfter` | tombstone_optional/include/zxshady/optional_cpp20.hpp:460-464 | the reversed comparison std::nullopt <=> a is never greater, and is less exactly when a is present |
| `OptionalOperators.CompareOptionalsMirrored` | tombstone_optional/include/zxshady/optional_cpp20.hpp:467-476 | b <=> a is the reverse of a <=> b whenever U's comparison with T mirrors T's with U |
| `OptionalOperators.CompareValueReversed` | tombstone_optional/include/zxshady/optional_cpp20.hpp:452-458 | the rewritten b <=> a for a bare value b: greater than an empty container, the reverse of T's <=> otherwise |
| `OptionalOperators.CompareValueReversedMirrored` | tombstone_optional/include/zxshady/optional_cpp20.hpp:452-458 | `CompareValue` (a <=> b): an empty container sorts before every value and a present one compares by T's <=>; its rewritten reverse b <=> a equals U's own comparison of b with the held value when that mirrors T's, and reversing it gives `CompareValue` back |
| `OptionalOperators.Swap` | tombstone_optional/include/zxshady/optional_cpp20.hpp:479-483 | the free swap has the member's whole contract: presence, values, lifetimes and mishaps of both containers on each path |
| `OptionalOperators.SwapTwice` | tombstone_optional/include/zxshady/optional_cpp20.hpp:382-408 | swapping twice restores both containers' presence and values |
| `OptionalOperators.HashRespectsEquality` | tombstone_optional/include/zxshady/optional_cpp20.hpp:486-493 | `Hash` (std::hash of a container: 0 when empty, T's hash of the value otherwise) gives equal containers equal hashes whenever T's hash respects T's ==, and two empties, which are unequal, hash alike too |
| `TestPolicies.ZeroObject` | tests/interface.hpp:33-37 | the static zero object is all zero bytes |
| `TestPolicies.ZeroIsNull` | tests/interface.hpp:31-40 | null exactly when the object is size bytes, every one zero |
| `TestPolicies.ZeroInitializeNullState` | tests/interface.hpp:41 | afterwards is_null holds and the bytes are the policy's null state |
| `TestPolicies.ZeroBitPatternPolicy` | tests/interface.hpp:28-42 | the policy is well formed with no destroy_null_state, and null is exactly the zero pattern |
| `TestPolicies.DefaultConstructorPolicy` | tests/interface.hpp:45-62 | null exactly when equal to T{}; destroy_null_state is declared exactly when T's traits say it is not trivially destructible, the same fact the container reads |
| `TestPolicies.StringSetToNullPolicy` | tests/interface.hpp:64-69 | null exactly when the string is the reserved literal; destroy_null_state is declared |
| `TestPolicies.BoolIsNull` | tests/interface.hpp:96 | null exactly when the byte is secret_value |
| `TestPolicies.BoolValuesAreNotNull` | tests/interface.hpp:94-96 | neither false nor true is stored as secret_value |
| `TestPolicies.BoolInitializeNullState` | tests/interface.hpp:97 | afterwards the byte is the null state secret_value |
| `TestPolicies.BoolPolicy` | tests/interface.hpp:92-99 | well formed, no destroy_null_state, null exactly at secret_value |
| `TestPolicies.TriviallyCopyableTraits` | tests/interface.hpp:75-90 | NonNeg<int> declares no copy or move member and no destructor, and bool is a scalar, so every special member is trivial and a move leaves its source as it was; these are the traits tombstone_optional/include/zxshady/optional_cpp20.hpp tests at lines 143-161 to choose the defaulted members and at lines 386-387 to choose the bitwise swap |
| `TestPolicies.NonNeg.GetValue` | tests/interface.hpp:83 | get_value returns the value that determines the object, and the checking constructor makes that same object of a non-negative value |
| `TestPolicies.MakeNonNeg` | tests/interface.hpp:77 | succeeds exactly for a non-negative argument, which get_value returns; a negative one raises invalid_argument |
| `TestPolicies.ConvertNonNeg` | tests/interface.hpp:78-82 | the noexcept converting constructor succeeds exactly when the checking constructor accepts the source's value, and preserves it; a negative value ends in std::terminate |
| `TestPolicies.CompareNonNeg` | tests/interface.hpp:84 | a total ordering, equivalent exactly when equal, less exactly when the value is smaller |
| `TestPolicies.EqualNonNeg` | tests/interface.hpp:84 | the defaulted == agrees with the defaulted <=> |
| `TestPolicies.NonNegIsNull` | tests/interface.hpp:103 | null exactly when the stored value is -1, a value the checking constructor rejects |
| `TestPolicies.NonNegInitializeNullState` | tests/interface.hpp:104-108 | afterwards the object is the null state and is_null holds |
| `TestPolicies.PublicNonNegIsNotNull` | tests/interface.hpp:77-103 | no NonNeg the public constructors build is null, and converting it succeeds and gives it back |
| `TestPolicies.NonNegPolicy` | tests/interface.hpp:101-110 | well formed, no destroy_null_state, null exactly at value -1 |
| `Scenarios.StringTraits` | tests/interface.hpp:71 | std::string's traits are well formed and not trivial, and a moved-from string is empty |
| `Scenarios.CompareStrings` | tests/comparisons.cpp:87-104 | string <=> never returns Unordered, and is equivalent exactly when the strings are equal |
| `Scenarios.CompareStringsLexicographic` | tests/comparisons.cpp:87-104 | strings agreeing on a prefix of length k are ordered by which one ends at k, or by their characters at k |
| `Scenarios.CompareStringsTransitive` | tests/comparisons.cpp:87-104 | less than is transitive, so with the antisymmetry below string <=> is a total ordering |
| `Scenarios.CompareStringsAntisymmetric` | tests/comparisons.cpp:87-104 | exchanging the operands reverses the string ordering |
| `Scenarios.NonNegAssignmentBehavior` | tests/assignment.cpp:3-56 | each assignment section ends with the value or emptiness its REQUIRE checks |
| `Scenarios.Comparisons` | tests/comparisons.cpp:4-104 | 4 against 42, against itself, against std::nullopt before and after `a = {}`, against 1 and 4, and "123" against "456" give the orderings the test checks |
| `Scenarios.Hashing` | tests/hash.cpp:5-32 | two empty OptStrings hash to 0 alike, two holding "Hello" alike, and one holding "World" differently when std::hash tells the two strings apart, as the test assumes |
| `Scenarios.Constructors` | tests/constructors.cpp:10-49 | default, copy, copy-from-empty and move construction of OptString give what the test checks |
| `Scenarios.Swaps` | tests/swap.cpp:3-27 | the three swap cases exchange values and emptiness as the test checks; in the two one-sided cases the receiving container's null string is never destroyed |
| `Scenarios.Observers` | tests/observers.cpp:20-29 | after a new did_i_move is initialised from `std::move(source).value()`, the source still holds a value whose `yes` is true |
| `Scenarios.StringAssignFromEmpty` | tombstone_optional/include/zxshady/optional_cpp20.hpp:189-205 | no test case: as written, a held string assigned from an empty container is destroyed and still reads as present; as intended it is empty |
| `Scenarios.StringDestructor` | tombstone_optional/include/zxshady/optional_cpp20.hpp:274-281 | no test case: as written, a held string is destroyed twice; as intended, once |
| `Scenarios.StringSelfAssignEmpty` | tombstone_optional/include/zxshady/optional_cpp20.hpp:189-205 | no test case: as written, an empty OptString assigned to itself destroys its own null string and its destructor destroys it again; as intended, nothing is destroyed twice |
| `Scenarios.BoolContainer` | tests/interface.hpp:92-99 | no test case: under Interface<bool> both bools are held and reset() empties the container |

## Findings

| source | as written | input that shows it | evidently intended | confidence | as-written member | corrected member |
|---|---|---|---|---|---|---|
| tombstone_optional/include/zxshady/optional_cpp20.hpp:189-205 | an empty source makes the user-defined copy assignment destroy the held value (or a non-trivial null state) and construct nothing in its place | an OptString holding "Hello" assigned from an empty OptString: has_value() then reads a destroyed string; an empty OptString assigned to itself: its null string is destroyed by the assignment and again by the destructor, so self-assignment is not safe | reset(), as the nullopt and converting assignments do: the null state takes the value's place | high; not executed | `Optional.TombstoneOptional.CopyAssign` with `Scenarios.StringAssignFromEmpty` and `Scenarios.StringSelfAssignEmpty` | `Optional.TombstoneOptional.CopyAssignIntended` |
| tombstone_optional/include/zxshady/optional_cpp20.hpp:207-223 | the user-defined move assignment has the same empty-source branch | an OptString holding "Hello" move-assigned from an empty OptString | reset() on an empty source | high; not executed | `Optional.TombstoneOptional.MoveAssign` | `Optional.TombstoneOptional.MoveAssignIntended` |
| tombstone_optional/include/zxshady/optional_cpp20.hpp:274-281 | the user-defined destructor destroys a held value and then calls destroy_null_state on the same, already destroyed, object | an OptString holding "Is someone there?" going out of scope: its string is destroyed twice | destroy_null_state only when no value is held | high; not executed | `Optional.TombstoneOptional.Destruct` with `Scenarios.StringDestructor` | `Optional.TombstoneOptional.DestructIntended` |

## Left out

- The concept and requirement machinery of the header is not modelled. This
  covers `tombstone_optional_interface_for`, the details concepts and the
  `static_assert`s. The container's choices are modelled as the predicates
  `TrivialNullDestroyer`, `DefaultedCopyConstruct`, `DefaultedMoveAssign` and
  the like, over `Policy` and `TypeTraits`. Which overload C++ picks for a
  given argument type is not modelled. This includes the rule that excludes
  a scalar `T`'s own type from the value assignment.
- The triviality traits of the container itself, and its size law, are not
  modelled.
- The real union, placement new and `std::addressof` are modelled as the
  field `slot` plus the ghost lifetime `tag`.
- `T`'s own constructors, assignment, swap, comparison and hash are not
  modelled. A constructed value is passed in, assignment and swap overwrite
  or exchange the field, and comparison and hash are parameters.
- `Optional.TombstoneOptional.FromValue`: the `std::in_place_t` constructors
  of lines 111-130 are merged into it, because `T(args...)` is abstract here.
- `Optional.TombstoneOptional.Emplace`: both `emplace` overloads are merged
  into it, for the same reason.
- `Optional.TombstoneOptional.MoveAssign`: requires a distinct source on the
  user-defined path. There self move assignment yields whatever `T`'s self
  move yields, which is not modelled. On the defaulted path a self move is a
  bitwise self-copy, and the model allows it. `MoveAssignIntended` is the
  same.
- `Optional.TombstoneOptional.ConvertMoveAssign`: also requires a distinct
  source, for the same reason.
- The `ZXSHADY_OPTIONAL_TOMBSTONE_ASSERT` checks are modelled as
  preconditions: a value that is not the null representation in the value
  constructor, emplace and value assignment, and presence for `operator*`.
- Exceptions are modelled as `Result` values. This covers
  `bad_optional_access` from `value()` and `invalid_argument` from
  `NonNeg(T x)` at line 77 of `tests/interface.hpp`. Propagation through the
  container is not modelled.
- `TestPolicies.ConvertNonNeg`: the constructor is `noexcept`, so a negative
  value ends in `std::terminate`, modelled as the outcome `Terminate`. The
  model has one `NonNeg` type, so the function stands for a conversion from a
  `NonNeg<U>` with another `U` that holds the same value. Copying a
  `NonNeg<int>` does not use this template. It uses the implicit trivial copy
  constructor, which keeps even the null state -1.
- `TestPolicies.BoolIsNull` takes the stored byte as it is. In C++, `is_null`
  takes its `bool` by value. `has_value()` then copies a `bool` whose byte is
  `secret_value` (2), which is undefined behaviour: a `bool` object must hold
  0 or 1. A compiler may keep only one bit, and then an empty container
  reports a held `false`. The model follows a build that passes the byte
  through unchanged. `Scenarios.BoolContainer` and `Scenarios.Observers` rely
  on that.
- `Optional.TombstoneOptional.Deref` returns a copy of the slot. `operator*`
  returns a reference into it, so writes through that reference are not
  modelled. That includes writing the null representation through it.
- `Optional.TombstoneOptional.Value` likewise returns a copy and not a
  reference. A caller moving out of the `&&` form is modelled by
  `Optional.TombstoneOptional.ValueMove`, which moves the whole value out.
- `Optional.TombstoneOptional.Emplace` returns the new value as a copy, not as
  the reference `emplace` returns.
- `Optional.TombstoneOptional.HasValue` on a destroyed slot reads the stale
  bits. C++ makes that undefined.
- `operator->` is not part of this model; it is `operator*` plus an address.
- Only the sign of `memcmp` is modelled, as -1, 0 or 1. Its magnitude is
  unspecified and no caller uses it.
- `Optional.TombstoneOptional.EasilySwappable`: the name lookup argument
  above is not itself modelled. The model takes its result, so a `swap` that
  `T` declares is never called on the bitwise path.
- `Scenarios.CompareStrings`: `std::string` is modelled as a Dafny `string`,
  a sequence of Unicode characters, ordered by code point. A `std::string`
  holds bytes that `char_traits<char>` compares as `unsigned char`. The two
  orders agree on ASCII, which is all the tests use, and on valid UTF-8.
- `Scenarios.StringTraits`: a moved-from `std::string` is taken to be empty.
  The standard leaves its value unspecified.
- `Scenarios.Observers` does not replay `REQUIRE(!value.yes)`. The move
  constructor of `did_i_move` never sets the new object's `yes`, so that
  member holds an indeterminate value.
- The tests' `OptStringView` conversions and `std::unordered_set` sizes are not
  part of this model. Neither are the tests that do not exercise these
  policies.
- `NonNeg<T>` is modelled with `T = int` as an unbounded integer. No
  arithmetic is done on it, so no width matters.
- The older `optional.hpp`, which only dispatches to the C++20 header, is not
  part of this model. Neither are the forward declarations in
  `optional_cpp20_fwd.hpp` or the `optional` alias.
- The Catch2 `StringMaker` specialisations are test output and are left out.
