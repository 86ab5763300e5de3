/** The concrete null-state policies the tests instantiate, and the NonNeg
    value type: each one an instance of the policy contract, with its
    initialize_null_state written out step by step. */
module TestPolicies {
  import opened CString
  import opened Optional
  import OptionalOperators

  /** The traits of a trivially copyable T such as bool or NonNeg<int>: every
      special member is trivial, so a move leaves its source as it was. */
  function TriviallyCopyableTraits<T(!new)>(): (t: TypeTraits<T>)
    ensures t.WellFormed()
    ensures t.triviallyDestructible && t.triviallyMoveConstructible && t.triviallyMoveAssignable
    ensures t.triviallyCopyConstructible && t.triviallyCopyAssignable
  {
    TypeTraits(true, true, true, true, true, x => x)
  }

  // ---------------------------------------------------------------------
  // ZeroBitPatternInterface<T>: T is a trivially copyable type, seen here as
  // its object representation of `size` bytes.

  /** The static `zero` object of is_null: a T whose bytes memset cleared. */
  method ZeroObject(size: nat) returns (zero: seq<byte>)
    ensures zero == Zeros(size)
  {
    var a := new byte[size];
    Memset(a, 0);
    zero := a[..];
  }

  /** is_null: memcmp of every byte of x against the zero object. */
  function ZeroIsNull(size: nat, x: seq<byte>): (r: bool)
    ensures r <==> |x| == size && forall i :: 0 <= i < |x| ==> x[i] == 0
  {
    |x| == size && Memcmp(x, Zeros(size)) == 0
  }

  /** initialize_null_state: memset of every byte of x to zero. */
  method ZeroInitializeNullState(x: array<byte>)
    modifies x
    ensures ZeroIsNull(x.Length, x[..])
    ensures x[..] == ZeroBitPatternPolicy(x.Length).nullState
  {
    Memset(x, 0);
  }

  /** The policy as the container sees it; it declares no destroy_null_state. */
  function ZeroBitPatternPolicy(size: nat): (p: Policy<seq<byte>>)
    ensures p.WellFormed() && p.trivialNullDestroyer
    ensures forall x :: p.isNull(x) <==> x == Zeros(size)
  {
    Policy(x => ZeroIsNull(size, x), Zeros(size), true)
  }

  // ---------------------------------------------------------------------
  // DefaultConstructorInterface: the value T{} is the null state.

  /** is_null is `x == T{}`, initialize_null_state constructs T(), and
      destroy_null_state exists exactly when T is not trivially destructible,
      as T's own traits say. */
  function DefaultConstructorPolicy<T(==,!new)>(defaultValue: T, traits: TypeTraits<T>): (p: Policy<T>)
    ensures p.WellFormed()
    ensures forall x :: p.isNull(x) <==> x == defaultValue
    ensures p.trivialNullDestroyer <==> traits.triviallyDestructible
  {
    Policy(x => x == defaultValue, defaultValue, traits.triviallyDestructible)
  }

  // ---------------------------------------------------------------------
  // StringSetToNullInterface<String>: a reserved literal is the null state.

  const NullLiteral: string := "[std::nullopt]"

  /** is_null compares with the literal, initialize_null_state constructs a
      String holding it, and destroy_null_state destroys that String. */
  function StringSetToNullPolicy(): (p: Policy<string>)
    ensures p.WellFormed() && !p.trivialNullDestroyer
    ensures forall s :: p.isNull(s) <==> s == NullLiteral
  {
    Policy(s => s == NullLiteral, NullLiteral, false)
  }

  // ---------------------------------------------------------------------
  // Interface<bool>: a byte pattern no bool value has.

  const SecretValue: byte := 2

  /** The byte a bool value is stored as. */
  function BoolRepresentation(b: bool): byte {
    if b then 1 else 0
  }

  /** is_null: memcmp of the bool's one byte against secret_value. */
  function BoolIsNull(x: byte): (r: bool)
    ensures r <==> x == SecretValue
  {
    Memcmp([x], [SecretValue]) == 0
  }

  /** Neither bool value is stored as the null pattern. */
  lemma BoolValuesAreNotNull(b: bool)
    ensures !BoolIsNull(BoolRepresentation(b))
  {
  }

  /** initialize_null_state: memcpy of secret_value into the bool's byte. */
  method BoolInitializeNullState(x: array<byte>)
    requires x.Length == 1
    modifies x
    ensures BoolIsNull(x[0]) && x[0] == BoolPolicy().nullState
  {
    Memcpy(x, [SecretValue]);
  }

  function BoolPolicy(): (p: Policy<byte>)
    ensures p.WellFormed() && p.trivialNullDestroyer
    ensures forall x :: p.isNull(x) <==> x == SecretValue
  {
    Policy(BoolIsNull, SecretValue, true)
  }

  // ---------------------------------------------------------------------
  // NonNeg<T>, with T = int, and Interface<NonNeg<T>>.

  /** `value` is private: only the constructors and the policy set it. */
  datatype NonNeg = NonNeg(value: int) {
    /** get_value(): the value determines the object, and a NonNeg holding a
        non-negative value is the one the checking constructor makes of it. */
    function GetValue(): (r: int)
      ensures NonNeg(r) == this
      ensures r >= 0 ==> MakeNonNeg(r) == Ok(this)
    {
      value
    }
  }

  datatype InvalidArgument = InvalidArgument(message: string)

  /** An exception escaping a noexcept function: std::terminate runs. */
  datatype Termination = Terminate

  /** NonNeg(T x): a negative argument is rejected with std::invalid_argument. */
  function MakeNonNeg(x: int): (r: Result<NonNeg, InvalidArgument>)
    ensures r.Ok? <==> x >= 0
    ensures r.Ok? ==> r.value.value == x && r.value.value >= 0
  {
    if x < 0 then Err(InvalidArgument("Negative input not allowed")) else Ok(NonNeg(x))
  }

  /** NonNeg(const NonNeg<U> x): delegates to the checking constructor, but
      is noexcept, so the invalid_argument a negative value raises ends the
      program instead of reaching the caller. */
  function ConvertNonNeg(x: NonNeg): (r: Result<NonNeg, Termination>)
    ensures r.Ok? <==> MakeNonNeg(x.GetValue()).Ok?
    ensures r.Ok? ==> r.value == x && r.value == MakeNonNeg(x.GetValue()).value
    ensures r.Err? <==> x.GetValue() < 0
  {
    match MakeNonNeg(x.GetValue())
    case Ok(v) => Ok(v)
    case Err(_) => Err(Terminate)
  }

  /** The defaulted operator<=>, which compares `value`. */
  function CompareNonNeg(a: NonNeg, b: NonNeg): (r: OptionalOperators.Ordering)
    ensures r != OptionalOperators.Unordered
    ensures r == OptionalOperators.Equivalent <==> a == b
    ensures r == OptionalOperators.Less <==> a.GetValue() < b.GetValue()
  {
    if a.value < b.value then OptionalOperators.Less
    else if a.value > b.value then OptionalOperators.Greater
    else OptionalOperators.Equivalent
  }

  /** The operator== that the defaulted operator<=> brings with it. */
  function EqualNonNeg(a: NonNeg, b: NonNeg): (r: bool)
    ensures r <==> CompareNonNeg(a, b) == OptionalOperators.Equivalent
  {
    a.value == b.value
  }

  /** is_null: the stored value is -1, which no public constructor stores. */
  function NonNegIsNull(x: NonNeg): (r: bool)
    ensures r <==> x.GetValue() == -1
    ensures r ==> MakeNonNeg(x.GetValue()).Err?
  {
    x.value == -1
  }

  /** initialize_null_state: constructs NonNeg(0), then overwrites its value with -1. */
  method NonNegInitializeNullState() returns (x: NonNeg)
    ensures NonNegIsNull(x) && x == NonNegPolicy().nullState
  {
    var zero := MakeNonNeg(0);
    x := zero.value;
    x := x.(value := -1);
  }

  /** No NonNeg the public constructors produce is the null state, and
      converting one never terminates. */
  lemma PublicNonNegIsNotNull(x: int)
    ensures MakeNonNeg(x).Ok? ==> !NonNegIsNull(MakeNonNeg(x).value)
    ensures MakeNonNeg(x).Ok? ==> ConvertNonNeg(MakeNonNeg(x).value) == Ok(MakeNonNeg(x).value)
  {
  }

  function NonNegPolicy(): (p: Policy<NonNeg>)
    ensures p.WellFormed() && p.trivialNullDestroyer
    ensures forall x :: p.isNull(x) <==> x.GetValue() == -1
  {
    Policy(NonNegIsNull, NonNeg(-1), true)
  }

}
