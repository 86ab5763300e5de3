/** The tombstone optional: an optional value with no presence flag. Its one
    storage slot holds either a live T or the policy's null representation,
    and presence is recomputed from the slot each time it is asked for. */
module Optional {

  /** The null-state policy (the `Interface` parameter): how the null
      representation is recognised, what initialize_null_state writes, and
      whether the policy declares a destroy_null_state. */
  datatype Policy<!T> = Policy(
    isNull: T -> bool,
    nullState: T,
    trivialNullDestroyer: bool)
  {
    /** initialize_null_state produces a representation that is_null recognises. */
    predicate WellFormed() {
      isNull(nullState)
    }
  }

  /** What the container needs to know of T itself: its type traits and what
      a move leaves behind in the object moved from. */
  datatype TypeTraits<!T(!new)> = TypeTraits(
    triviallyDestructible: bool,
    triviallyCopyConstructible: bool,
    triviallyMoveConstructible: bool,
    triviallyCopyAssignable: bool,
    triviallyMoveAssignable: bool,
    movedFrom: T -> T)
  {
    /** A trivial move copies the bytes and leaves its source as it was. */
    ghost predicate WellFormed() {
      triviallyMoveConstructible || triviallyMoveAssignable ==> forall x :: movedFrom(x) == x
    }
  }

  /** Which object, if any, currently lives in the slot. */
  datatype Lifecycle = ValueLive | NullLive | Destroyed

  /** A breach of the construct/destroy discipline on the slot. */
  datatype Mishap =
    | DoubleDestroy   // a destructor ran on a slot whose object was already destroyed
    | NeverDestroyed  // a live object with a non-trivial destructor was overwritten or abandoned

  datatype BadOptionalAccess = BadOptionalAccess

  datatype Result<+R, +E> = Ok(value: R) | Err(error: E)

  class TombstoneOptional<T(!new)> {
    const policy: Policy<T>
    const traits: TypeTraits<T>

    /** The union member mValue. */
    var slot: T
    ghost var tag: Lifecycle
    ghost var mishaps: seq<Mishap>

    ghost predicate Valid()
      reads this
    {
      && policy.WellFormed()
      && traits.WellFormed()
      && (tag == NullLive ==> slot == policy.nullState)
    }

    /** The policy declares no destroy_null_state. A policy that declares
        one rules out every defaulted special member and the bitwise swap. */
    function TrivialNullDestroyer(): (r: bool)
      ensures r <==> policy.trivialNullDestroyer
      ensures !r ==> !DefaultedCopyConstruct() && !DefaultedMoveConstruct()
                     && !DefaultedCopyAssign() && !DefaultedMoveAssign()
                     && !DefaultedDestructor() && !EasilySwappable()
    {
      policy.trivialNullDestroyer
    }

    /** The defaulted copy constructor is chosen: T's copy constructor is
        trivial and the policy declares no destroy_null_state. */
    function DefaultedCopyConstruct(): (r: bool)
      ensures r <==> traits.triviallyCopyConstructible && policy.trivialNullDestroyer
    {
      traits.triviallyCopyConstructible && policy.trivialNullDestroyer
    }

    /** The defaulted move constructor is chosen; being a copy of the bytes,
        it leaves a source that satisfies the traits as it was. */
    function DefaultedMoveConstruct(): (r: bool)
      ensures r <==> traits.triviallyMoveConstructible && policy.trivialNullDestroyer
      ensures r && traits.WellFormed() ==> forall x :: traits.movedFrom(x) == x
    {
      traits.triviallyMoveConstructible && policy.trivialNullDestroyer
    }

    /** The defaulted copy assignment is chosen. */
    function DefaultedCopyAssign(): (r: bool)
      ensures r <==> traits.triviallyCopyAssignable && policy.trivialNullDestroyer
    {
      traits.triviallyCopyAssignable && policy.trivialNullDestroyer
    }

    /** The defaulted move assignment is chosen; it too leaves its source as
        it was. */
    function DefaultedMoveAssign(): (r: bool)
      ensures r <==> traits.triviallyMoveAssignable && policy.trivialNullDestroyer
      ensures r && traits.WellFormed() ==> forall x :: traits.movedFrom(x) == x
    {
      traits.triviallyMoveAssignable && policy.trivialNullDestroyer
    }

    /** The defaulted destructor is chosen: neither T's destructor nor a
        destroy_null_state has anything to do. */
    function DefaultedDestructor(): (r: bool)
      ensures r <==> traits.triviallyDestructible && policy.trivialNullDestroyer
    {
      traits.triviallyDestructible && policy.trivialNullDestroyer
    }

    /** swap exchanges the two slots bitwise exactly when the destructor, the
        move constructor and the move assignment are all the defaulted ones.
        The last conjunct of the source, `!requires(T& a) { swap(a, a); }`,
        holds for every T: inside the member swap, unqualified lookup of
        `swap` finds the member, which turns argument-dependent lookup off,
        and the member takes one argument. */
    function EasilySwappable(): (r: bool)
      ensures r <==> DefaultedDestructor() && DefaultedMoveConstruct() && DefaultedMoveAssign()
      ensures r && traits.WellFormed() ==> forall x :: traits.movedFrom(x) == x
    {
      && policy.trivialNullDestroyer
      && traits.triviallyDestructible
      && traits.triviallyMoveConstructible
      && traits.triviallyMoveAssignable
    }

    /** The object in the slot has a destructor that has to run. */
    ghost predicate NeedsDestroy()
      reads this
    {
      || (tag == ValueLive && !traits.triviallyDestructible)
      || (tag == NullLive && !TrivialNullDestroyer())
    }

    /** What constructing over the current slot adds to the mishaps. */
    ghost function ConstructMishap(): seq<Mishap>
      reads this
    {
      if NeedsDestroy() then [NeverDestroyed] else []
    }

    /** What destroying the current slot adds to the mishaps. */
    ghost function DestroyMishap(): seq<Mishap>
      reads this
    {
      if tag == Destroyed then [DoubleDestroy] else []
    }

    /** has_value() and operator bool: the slot is not the null representation. */
    predicate HasValue()
      reads this
      ensures Valid() && tag == NullLive ==> !HasValue()
    {
      !policy.isNull(slot)
    }

    /** operator* in its four forms: presence is asserted, not checked. */
    function Deref(): (r: T)
      requires HasValue()
      reads this
      ensures !policy.isNull(r)
    {
      slot
    }

    /** The checked value() in its four forms. */
    function Value(): (r: Result<T, BadOptionalAccess>)
      reads this
      ensures r.Ok? <==> HasValue()
      ensures r.Ok? ==> r.value == slot && !policy.isNull(r.value)
    {
      if !HasValue() then Err(BadOptionalAccess) else Ok(slot)
    }

    /** value_or on a const lvalue: the container is only read. */
    function ValueOr(default: T): (r: T)
      reads this
      ensures HasValue() ==> r == slot
      ensures !HasValue() ==> r == default
      ensures r == match Value() case Ok(v) => v case Err(_) => default
    {
      if HasValue() then slot else default
    }

    /** value_or on an rvalue: a held value is moved out of the slot. */
    method ValueOrMove(default: T) returns (r: T)
      requires Valid()
      modifies this
      ensures Valid()
      ensures r == old(ValueOr(default))
      ensures slot == if old(HasValue()) then traits.movedFrom(old(slot)) else old(slot)
      ensures tag == old(tag) && mishaps == old(mishaps)
    {
      if HasValue() {
        r := slot;
        slot := traits.movedFrom(slot);
      } else {
        r := default;
      }
    }

    /** A T initialised from `std::move(o).value()`: the checked access on an
        rvalue, whose result a held value is then moved out of. */
    method ValueMove() returns (r: Result<T, BadOptionalAccess>)
      requires Valid()
      modifies this
      ensures Valid()
      ensures r == old(Value())
      ensures slot == if old(HasValue()) then traits.movedFrom(old(slot)) else old(slot)
      ensures tag == old(tag) && mishaps == old(mishaps)
    {
      r := Value();
      if r.Ok? {
        slot := traits.movedFrom(slot);
      }
    }

    /** std::construct_at(std::addressof(mValue), v) */
    method ConstructAt(v: T)
      modifies this
      ensures slot == v && tag == ValueLive
      ensures mishaps == old(mishaps) + old(ConstructMishap())
    {
      mishaps := mishaps + ConstructMishap();
      slot := v;
      tag := ValueLive;
    }

    /** Interface::initialize_null_state(mValue) */
    method InitializeNullState()
      modifies this
      ensures slot == policy.nullState && tag == NullLive
      ensures mishaps == old(mishaps) + old(ConstructMishap())
    {
      mishaps := mishaps + ConstructMishap();
      slot := policy.nullState;
      tag := NullLive;
    }

    /** mValue.~T(): the slot keeps the bits the destroyed object left. */
    method DestroyValue()
      modifies this
      ensures slot == old(slot) && tag == Destroyed
      ensures mishaps == old(mishaps) + old(DestroyMishap())
    {
      mishaps := mishaps + DestroyMishap();
      tag := Destroyed;
    }

    /** Interface::destroy_null_state(mValue) */
    method DestroyNullState()
      modifies this
      ensures slot == old(slot) && tag == Destroyed
      ensures mishaps == old(mishaps) + old(DestroyMishap())
    {
      mishaps := mishaps + DestroyMishap();
      tag := Destroyed;
    }

    /** The default constructor, and the one taking std::nullopt. */
    constructor Empty(policy: Policy<T>, traits: TypeTraits<T>)
      requires policy.WellFormed() && traits.WellFormed()
      ensures Valid() && this.policy == policy && this.traits == traits
      ensures !HasValue()
      ensures slot == policy.nullState && tag == NullLive && mishaps == []
    {
      this.policy := policy;
      this.traits := traits;
      slot := policy.nullState;
      tag := NullLive;
      mishaps := [];
    }

    /** Construction from a value, and in place from an argument pack or an
        initializer list: `v` is the T those arguments construct. */
    constructor FromValue(policy: Policy<T>, traits: TypeTraits<T>, v: T)
      requires policy.WellFormed() && traits.WellFormed()
      requires !policy.isNull(v)
      ensures Valid() && this.policy == policy && this.traits == traits
      ensures HasValue() && Deref() == v
      ensures slot == v && tag == ValueLive && mishaps == []
    {
      this.policy := policy;
      this.traits := traits;
      slot := v;
      tag := ValueLive;
      mishaps := [];
    }

    /** Converting construction from a container over U: T is built from the
        source's value without checking that the result is not null. */
    constructor Converting<U(!new)>(policy: Policy<T>, traits: TypeTraits<T>,
                              that: TombstoneOptional<U>, convert: U -> T)
      requires policy.WellFormed() && traits.WellFormed()
      ensures Valid() && this.policy == policy && this.traits == traits
      ensures HasValue() <==> that.HasValue() && !policy.isNull(convert(that.slot))
      ensures that.HasValue() ==> slot == convert(that.slot) && tag == ValueLive
      ensures !that.HasValue() ==> slot == policy.nullState && tag == NullLive
      ensures mishaps == []
    {
      this.policy := policy;
      this.traits := traits;
      if that.HasValue() {
        slot := convert(that.slot);
        tag := ValueLive;
      } else {
        slot := policy.nullState;
        tag := NullLive;
      }
      mishaps := [];
    }

    /** Copy construction: the defaulted bitwise copy, or the user-defined one
        that copies a held value and otherwise initializes a fresh null state. */
    constructor Copy(that: TombstoneOptional<T>)
      requires that.Valid()
      ensures Valid() && policy == that.policy && traits == that.traits
      ensures HasValue() == that.HasValue()
      ensures HasValue() ==> slot == that.slot
      ensures DefaultedCopyConstruct() ==> slot == that.slot && tag == that.tag
      ensures !DefaultedCopyConstruct() && that.HasValue() ==> tag == ValueLive
      ensures !DefaultedCopyConstruct() && !that.HasValue() ==>
                slot == policy.nullState && tag == NullLive
      ensures mishaps == []
    {
      policy := that.policy;
      traits := that.traits;
      if that.DefaultedCopyConstruct() {
        slot := that.slot;
        tag := that.tag;
      } else if that.HasValue() {
        slot := that.slot;
        tag := ValueLive;
      } else {
        slot := that.policy.nullState;
        tag := NullLive;
      }
      mishaps := [];
    }

    /** Move construction: the defaulted bitwise copy, or the user-defined one
        that moves a held value out of the source. */
    constructor Move(that: TombstoneOptional<T>)
      requires that.Valid()
      modifies that
      ensures Valid() && that.Valid() && policy == that.policy && traits == that.traits
      ensures HasValue() == old(that.HasValue())
      ensures HasValue() ==> slot == old(that.slot)
      ensures DefaultedMoveConstruct() ==> slot == old(that.slot) && tag == old(that.tag)
      ensures !DefaultedMoveConstruct() && old(that.HasValue()) ==> tag == ValueLive
      ensures !DefaultedMoveConstruct() && !old(that.HasValue()) ==>
                slot == policy.nullState && tag == NullLive
      ensures that.slot == if !DefaultedMoveConstruct() && old(that.HasValue())
                           then traits.movedFrom(old(that.slot)) else old(that.slot)
      ensures that.tag == old(that.tag) && that.mishaps == old(that.mishaps)
      ensures mishaps == []
    {
      policy := that.policy;
      traits := that.traits;
      var moveOut := false;
      if that.DefaultedMoveConstruct() {
        slot := that.slot;
        tag := that.tag;
      } else if that.HasValue() {
        slot := that.slot;
        tag := ValueLive;
        moveOut := true;
      } else {
        slot := that.policy.nullState;
        tag := NullLive;
      }
      mishaps := [];
      new;
      if moveOut {
        that.slot := that.traits.movedFrom(that.slot);
      }
    }

    /** Copy assignment. The defaulted form copies the slot verbatim. The
        user-defined form assigns or constructs a present source's value; for
        an empty source it destroys the held value, or a non-trivial null
        state, and installs nothing in its place. */
    method CopyAssign(that: TombstoneOptional<T>)
      requires Valid() && that.Valid()
      requires that.policy == policy && that.traits == traits
      modifies this
      ensures Valid()
      ensures old(that.HasValue()) ==> HasValue() && slot == old(that.slot)
      ensures DefaultedCopyAssign() ==>
                slot == old(that.slot) && tag == old(that.tag) && mishaps == old(mishaps)
      ensures !DefaultedCopyAssign() && old(that.HasValue()) && old(HasValue()) ==>
                tag == old(tag) && mishaps == old(mishaps)
      ensures !DefaultedCopyAssign() && old(that.HasValue()) && !old(HasValue()) ==>
                tag == ValueLive && mishaps == old(mishaps) + old(ConstructMishap())
      ensures !DefaultedCopyAssign() && !old(that.HasValue()) && (old(HasValue()) || !TrivialNullDestroyer()) ==>
                slot == old(slot) && tag == Destroyed && mishaps == old(mishaps) + old(DestroyMishap())
      ensures !DefaultedCopyAssign() && !old(that.HasValue()) && !old(HasValue()) && TrivialNullDestroyer() ==>
                slot == old(slot) && tag == old(tag) && mishaps == old(mishaps)
    {
      if DefaultedCopyAssign() {
        slot := that.slot;
        tag := that.tag;
      } else if that.HasValue() {
        if HasValue() {
          slot := that.slot;
        } else {
          ConstructAt(that.slot);
        }
      } else {
        if HasValue() {
          DestroyValue();
        } else if !TrivialNullDestroyer() {
          DestroyNullState();
        }
      }
    }

    /** Move assignment: as copy assignment, except that a present source's
        value is moved out of it on the user-defined path. */
    method MoveAssign(that: TombstoneOptional<T>)
      requires Valid() && that.Valid() && (that != this || DefaultedMoveAssign())
      requires that.policy == policy && that.traits == traits
      modifies this, that
      ensures Valid() && that.Valid()
      ensures old(that.HasValue()) ==> HasValue() && slot == old(that.slot)
      ensures DefaultedMoveAssign() ==>
                slot == old(that.slot) && tag == old(that.tag) && mishaps == old(mishaps)
      ensures !DefaultedMoveAssign() && old(that.HasValue()) && old(HasValue()) ==>
                tag == old(tag) && mishaps == old(mishaps)
      ensures !DefaultedMoveAssign() && old(that.HasValue()) && !old(HasValue()) ==>
                tag == ValueLive && mishaps == old(mishaps) + old(ConstructMishap())
      ensures !DefaultedMoveAssign() && !old(that.HasValue()) && (old(HasValue()) || !TrivialNullDestroyer()) ==>
                slot == old(slot) && tag == Destroyed && mishaps == old(mishaps) + old(DestroyMishap())
      ensures !DefaultedMoveAssign() && !old(that.HasValue()) && !old(HasValue()) && TrivialNullDestroyer() ==>
                slot == old(slot) && tag == old(tag) && mishaps == old(mishaps)
      ensures that.slot == if !DefaultedMoveAssign() && old(that.HasValue())
                           then traits.movedFrom(old(that.slot)) else old(that.slot)
      ensures that.tag == old(that.tag) && that.mishaps == old(that.mishaps)
    {
      if DefaultedMoveAssign() {
        slot := that.slot;
        tag := that.tag;
      } else if that.HasValue() {
        var v := that.slot;
        that.slot := traits.movedFrom(v);
        if HasValue() {
          slot := v;
        } else {
          ConstructAt(v);
        }
      } else {
        if HasValue() {
          DestroyValue();
        } else if !TrivialNullDestroyer() {
          DestroyNullState();
        }
      }
    }

    /** Copy assignment as evidently intended: an empty source resets this
        container, so the slot holds a live null state afterwards instead of
        a destroyed object. The other branches are those of CopyAssign. */
    method CopyAssignIntended(that: TombstoneOptional<T>)
      requires Valid() && that.Valid()
      requires that.policy == policy && that.traits == traits
      modifies this
      ensures Valid()
      ensures HasValue() == old(that.HasValue())
      ensures HasValue() ==> slot == old(that.slot)
      ensures old(tag) != Destroyed && old(that.tag) != Destroyed ==> tag != Destroyed
      ensures DefaultedCopyAssign() ==>
                slot == old(that.slot) && tag == old(that.tag) && mishaps == old(mishaps)
      ensures !DefaultedCopyAssign() && !old(that.HasValue()) && old(HasValue()) ==>
                slot == policy.nullState && tag == NullLive && mishaps == old(mishaps) + old(DestroyMishap())
      ensures !DefaultedCopyAssign() && !old(that.HasValue()) && !old(HasValue()) ==>
                slot == old(slot) && tag == old(tag) && mishaps == old(mishaps)
    {
      if DefaultedCopyAssign() {
        slot := that.slot;
        tag := that.tag;
      } else if that.HasValue() {
        if HasValue() {
          slot := that.slot;
        } else {
          ConstructAt(that.slot);
        }
      } else {
        Reset();
      }
    }

    /** Move assignment as evidently intended: an empty source resets this
        container. The other branches are those of MoveAssign. */
    method MoveAssignIntended(that: TombstoneOptional<T>)
      requires Valid() && that.Valid() && (that != this || DefaultedMoveAssign())
      requires that.policy == policy && that.traits == traits
      modifies this, that
      ensures Valid() && that.Valid()
      ensures HasValue() == old(that.HasValue())
      ensures HasValue() ==> slot == old(that.slot)
      ensures old(tag) != Destroyed && old(that.tag) != Destroyed ==> tag != Destroyed
      ensures DefaultedMoveAssign() ==>
                slot == old(that.slot) && tag == old(that.tag) && mishaps == old(mishaps)
      ensures !DefaultedMoveAssign() && !old(that.HasValue()) && old(HasValue()) ==>
                slot == policy.nullState && tag == NullLive && mishaps == old(mishaps) + old(DestroyMishap())
      ensures !DefaultedMoveAssign() && !old(that.HasValue()) && !old(HasValue()) ==>
                slot == old(slot) && tag == old(tag) && mishaps == old(mishaps)
      ensures that.slot == if !DefaultedMoveAssign() && old(that.HasValue())
                           then traits.movedFrom(old(that.slot)) else old(that.slot)
      ensures that.tag == old(that.tag) && that.mishaps == old(that.mishaps)
    {
      if DefaultedMoveAssign() {
        slot := that.slot;
        tag := that.tag;
      } else if that.HasValue() {
        var v := that.slot;
        that.slot := traits.movedFrom(v);
        if HasValue() {
          slot := v;
        } else {
          ConstructAt(v);
        }
      } else {
        Reset();
      }
    }

    /** Assignment of std::nullopt is reset(). */
    method AssignNullopt()
      requires Valid()
      modifies this
      ensures Valid() && !HasValue()
      ensures old(HasValue()) ==>
                slot == policy.nullState && tag == NullLive && mishaps == old(mishaps) + old(DestroyMishap())
      ensures !old(HasValue()) ==> slot == old(slot) && tag == old(tag) && mishaps == old(mishaps)
    {
      Reset();
    }

    /** Assignment of a bare value: T's assignment when a value is held,
        otherwise construction over the slot, whose null state is not destroyed. */
    method AssignValue(v: T)
      requires Valid() && !policy.isNull(v)
      modifies this
      ensures Valid() && HasValue() && slot == v
      ensures old(HasValue()) ==> tag == old(tag) && mishaps == old(mishaps)
      ensures !old(HasValue()) ==> tag == ValueLive && mishaps == old(mishaps) + old(ConstructMishap())
    {
      if HasValue() {
        slot := v;
      } else {
        ConstructAt(v);
      }
    }

    /** Converting copy assignment from a container over U: emplace of the
        converted value when the source holds one, reset() otherwise. */
    method ConvertAssign<U(!new)>(that: TombstoneOptional<U>, convert: U -> T)
      requires Valid()
      requires that.HasValue() ==> !policy.isNull(convert(that.slot))
      modifies this
      ensures Valid()
      ensures HasValue() == old(that.HasValue())
      ensures old(that.HasValue()) ==> slot == convert(old(that.slot)) && tag == ValueLive
      ensures old(that.HasValue()) && !traits.triviallyDestructible && old(HasValue()) ==>
                mishaps == old(mishaps) + old(DestroyMishap())
      ensures old(that.HasValue()) && (traits.triviallyDestructible || !old(HasValue())) ==>
                mishaps == old(mishaps) + old(ConstructMishap())
      ensures !old(that.HasValue()) && old(HasValue()) ==>
                slot == policy.nullState && tag == NullLive && mishaps == old(mishaps) + old(DestroyMishap())
      ensures !old(that.HasValue()) && !old(HasValue()) ==>
                slot == old(slot) && tag == old(tag) && mishaps == old(mishaps)
    {
      if that.HasValue() {
        var _ := Emplace(convert(that.slot));
      } else {
        Reset();
      }
    }

    /** Converting move assignment from a container over U: as the copy form,
        but the source's value is moved out of it. */
    method ConvertMoveAssign<U(!new)>(that: TombstoneOptional<U>, convert: U -> T)
      requires Valid()
      requires that.HasValue() ==> !policy.isNull(convert(that.slot))
      requires that as object != this as object
      modifies this, that
      ensures Valid()
      ensures HasValue() == old(that.HasValue())
      ensures old(that.HasValue()) ==> slot == convert(old(that.slot)) && tag == ValueLive
      ensures old(that.HasValue()) && !traits.triviallyDestructible && old(HasValue()) ==>
                mishaps == old(mishaps) + old(DestroyMishap())
      ensures old(that.HasValue()) && (traits.triviallyDestructible || !old(HasValue())) ==>
                mishaps == old(mishaps) + old(ConstructMishap())
      ensures !old(that.HasValue()) && old(HasValue()) ==>
                slot == policy.nullState && tag == NullLive && mishaps == old(mishaps) + old(DestroyMishap())
      ensures !old(that.HasValue()) && !old(HasValue()) ==>
                slot == old(slot) && tag == old(tag) && mishaps == old(mishaps)
      ensures that.slot == if old(that.HasValue()) then that.traits.movedFrom(old(that.slot)) else old(that.slot)
      ensures that.tag == old(that.tag) && that.mishaps == old(that.mishaps)
    {
      if that.HasValue() {
        var v := convert(that.slot);
        that.slot := that.traits.movedFrom(that.slot);
        var _ := Emplace(v);
      } else {
        Reset();
      }
    }

    /** The destructor. The defaulted one runs nothing. The user-defined one
        destroys a held T and then, for a policy with destroy_null_state,
        destroys the null state of that same slot as well. */
    method Destruct()
      requires Valid()
      modifies this
      ensures tag == Destroyed && slot == old(slot)
      ensures DefaultedDestructor() ==> mishaps == old(mishaps)
      ensures !DefaultedDestructor() && old(HasValue()) ==>
                mishaps == old(mishaps) + old(DestroyMishap())
                           + (if TrivialNullDestroyer() then [] else [DoubleDestroy])
      ensures !DefaultedDestructor() && !old(HasValue()) && TrivialNullDestroyer() ==>
                mishaps == old(mishaps) + (if old(tag) == ValueLive then [NeverDestroyed] else [])
      ensures !DefaultedDestructor() && !old(HasValue()) && !TrivialNullDestroyer() ==>
                mishaps == old(mishaps) + old(DestroyMishap())
    {
      if !DefaultedDestructor() {
        if HasValue() {
          DestroyValue();
        }
        if !TrivialNullDestroyer() {
          DestroyNullState();
        }
      }
      // the end of the slot's lifetime
      mishaps := mishaps + ConstructMishap();
      tag := Destroyed;
    }

    /** The destructor as evidently intended: a held value or the null
        state, whichever is live, is destroyed once. A slot holding a live
        object, and a value whenever that object is a value, ends its
        lifetime without any mishap. */
    method DestructIntended()
      requires Valid()
      modifies this
      ensures tag == Destroyed && slot == old(slot)
      ensures old(tag) == NullLive || (old(tag) == ValueLive && old(HasValue())) ==> mishaps == old(mishaps)
      ensures DefaultedDestructor() ==> mishaps == old(mishaps)
    {
      if !DefaultedDestructor() {
        if HasValue() {
          DestroyValue();
        } else if !TrivialNullDestroyer() {
          DestroyNullState();
        }
      }
      // the end of the slot's lifetime
      mishaps := mishaps + ConstructMishap();
      tag := Destroyed;
    }

    /** reset(): a held value is destroyed and the null state installed in
        its place; an empty container is left exactly as it was. */
    method Reset()
      requires Valid()
      modifies this
      ensures Valid() && !HasValue()
      ensures old(HasValue()) ==>
                slot == policy.nullState && tag == NullLive && mishaps == old(mishaps) + old(DestroyMishap())
      ensures !old(HasValue()) ==> slot == old(slot) && tag == old(tag) && mishaps == old(mishaps)
    {
      if HasValue() {
        DestroyValue();
        InitializeNullState();
      }
    }

    /** destroyNoNullState(): destroys a held value when T's destructor is not
        trivial, and never touches a null state. */
    method DestroyNoNullState()
      requires Valid()
      modifies this
      ensures Valid() && slot == old(slot)
      ensures !traits.triviallyDestructible && old(HasValue()) ==>
                tag == Destroyed && mishaps == old(mishaps) + old(DestroyMishap())
      ensures traits.triviallyDestructible || !old(HasValue()) ==>
                tag == old(tag) && mishaps == old(mishaps)
    {
      if !traits.triviallyDestructible {
        if HasValue() {
          DestroyValue();
        }
      }
    }

    /** emplace, from an argument pack or an initializer list (`v` is the T
        they construct). It returns the new value. A non-trivial null state
        is constructed over without being destroyed. */
    method Emplace(v: T) returns (r: T)
      requires Valid() && !policy.isNull(v)
      modifies this
      ensures Valid() && HasValue()
      ensures r == v && slot == v && tag == ValueLive
      ensures !traits.triviallyDestructible && old(HasValue()) ==>
                mishaps == old(mishaps) + old(DestroyMishap())
      ensures traits.triviallyDestructible || !old(HasValue()) ==>
                mishaps == old(mishaps) + old(ConstructMishap())
      ensures old(tag) == NullLive && !TrivialNullDestroyer() ==>
                mishaps == old(mishaps) + [NeverDestroyed]
    {
      DestroyNoNullState();
      ConstructAt(v);
      r := slot;
    }

    /** What the emptied side of a one-sided swap looks like: `v` was moved
        out of it and reset() then ran on what the move left behind. */
    ghost predicate ResetAfterMoveOut(v: T, oldTag: Lifecycle, oldMishaps: seq<Mishap>)
      reads this
    {
      var rest := traits.movedFrom(v);
      if policy.isNull(rest) then
        slot == rest && tag == oldTag && mishaps == oldMishaps
      else
        slot == policy.nullState && tag == NullLive
        && mishaps == oldMishaps + (if oldTag == Destroyed then [DoubleDestroy] else [])
    }

    /** swap. The easily swappable form exchanges the slots bitwise. Otherwise
        two held values are swapped by T's swap, and a single held value is
        move-constructed over the other container's null state, which is not
        destroyed, before its source is reset(). */
    method Swap(that: TombstoneOptional<T>)
      requires Valid() && that.Valid()
      requires that.policy == policy && that.traits == traits
      modifies this, that
      ensures Valid() && that.Valid()
      ensures HasValue() == old(that.HasValue()) && that.HasValue() == old(HasValue())
      ensures HasValue() ==> slot == old(that.slot)
      ensures that.HasValue() ==> that.slot == old(slot)
      ensures EasilySwappable() ==>
                slot == old(that.slot) && that.slot == old(slot) && tag == old(that.tag) && that.tag == old(tag)
                && mishaps == old(mishaps) && that.mishaps == old(that.mishaps)
      ensures !EasilySwappable() && old(HasValue()) == old(that.HasValue()) ==>
                (old(HasValue()) ==> slot == old(that.slot) && that.slot == old(slot))
                && (!old(HasValue()) ==> slot == old(slot) && that.slot == old(that.slot))
                && tag == old(tag) && that.tag == old(that.tag)
                && mishaps == old(mishaps) && that.mishaps == old(that.mishaps)
      ensures !EasilySwappable() && old(HasValue()) && !old(that.HasValue()) ==>
                that.slot == old(slot) && that.tag == ValueLive
                && that.mishaps == old(that.mishaps) + old(that.ConstructMishap())
                && ResetAfterMoveOut(old(slot), old(tag), old(mishaps))
      ensures !EasilySwappable() && !old(HasValue()) && old(that.HasValue()) ==>
                slot == old(that.slot) && tag == ValueLive
                && mishaps == old(mishaps) + old(ConstructMishap())
                && that.ResetAfterMoveOut(old(that.slot), old(that.tag), old(that.mishaps))
    {
      if EasilySwappable() {
        slot, that.slot := that.slot, slot;
        tag, that.tag := that.tag, tag;
      } else {
        var hasVal := HasValue();
        if hasVal == that.HasValue() {
          if hasVal {
            slot, that.slot := that.slot, slot;
          }
        } else {
          var source := if hasVal then this else that;
          var dest := if hasVal then that else this;
          var v := source.slot;
          dest.ConstructAt(v);
          source.slot := traits.movedFrom(v);
          source.Reset();
        }
      }
    }
  }
}
