/** The repository's test cases replayed on the model: each method builds the
    containers a test case builds, performs its operations, and promises in
    its postcondition what the test checks. */
module Scenarios {
  import opened Optional
  import opened OptionalOperators
  import opened TestPolicies
  import CString

  /** std::string: nothing about it is trivial, and a moved-from string is
      left empty. */
  function StringTraits(): (t: TypeTraits<string>)
    ensures t.WellFormed() && !t.triviallyDestructible
    ensures !t.triviallyCopyConstructible && !t.triviallyMoveConstructible
    ensures forall s :: t.movedFrom(s) == ""
  {
    TypeTraits(false, false, false, false, false, _ => "")
  }

  /** std::string's operator<=>: lexicographic by character, and a proper
      prefix sorts first. */
  function CompareStrings(a: string, b: string): (r: Ordering)
    ensures r != Unordered
    ensures r == Equivalent <==> a == b
  {
    if |a| == 0 && |b| == 0 then Equivalent
    else if |a| == 0 then Less
    else if |b| == 0 then Greater
    else if a[0] < b[0] then Less
    else if a[0] > b[0] then Greater
    else
      assert a == [a[0]] + a[1..] && b == [b[0]] + b[1..];
      CompareStrings(a[1..], b[1..])
  }

  /** The lexicographic rule: strings that agree on their first k characters
      are ordered by the end of the shorter one or by the character at k. */
  lemma {:induction false} CompareStringsLexicographic(a: string, b: string, k: nat)
    requires k <= |a| && k <= |b| && a[..k] == b[..k]
    ensures k == |a| && k < |b| ==> CompareStrings(a, b) == Less
    ensures k < |a| && k < |b| && a[k] < b[k] ==> CompareStrings(a, b) == Less
    ensures k < |a| && k < |b| && a[k] > b[k] ==> CompareStrings(a, b) == Greater
  {
    if k > 0 {
      assert a[0] == a[..k][0] && b[0] == b[..k][0];
      assert a[1..][..k - 1] == a[..k][1..] && b[1..][..k - 1] == b[..k][1..];
      CompareStringsLexicographic(a[1..], b[1..], k - 1);
    }
  }

  /** The string ordering is transitive. */
  lemma {:induction false} CompareStringsTransitive(a: string, b: string, c: string)
    requires CompareStrings(a, b) == Less && CompareStrings(b, c) == Less
    ensures CompareStrings(a, c) == Less
  {
    if |a| > 0 && |b| > 0 && |c| > 0 && a[0] == b[0] && b[0] == c[0] {
      CompareStringsTransitive(a[1..], b[1..], c[1..]);
    }
  }

  /** Exchanging the operands of the string comparison reverses it. */
  lemma {:induction false} CompareStringsAntisymmetric(a: string, b: string)
    ensures CompareStrings(b, a) == Reversed(CompareStrings(a, b))
  {
    if |a| > 0 && |b| > 0 && a[0] == b[0] {
      CompareStringsAntisymmetric(a[1..], b[1..]);
    }
  }

  /** NonNegOpt<int>: every special member is the defaulted one and swap is
      bitwise, so none of the user-defined members behind the findings runs. */
  lemma NonNegOptDispatch(o: TombstoneOptional<NonNeg>)
    requires o.policy == NonNegPolicy() && o.traits == TriviallyCopyableTraits<NonNeg>()
    ensures o.DefaultedCopyConstruct() && o.DefaultedMoveConstruct()
    ensures o.DefaultedCopyAssign() && o.DefaultedMoveAssign()
    ensures o.DefaultedDestructor() && o.EasilySwappable()
  {
  }

  /** OptString: the policy declares destroy_null_state and std::string is not
      trivial, so every special member is the user-defined one and swap is
      member-wise. */
  lemma OptStringDispatch(o: TombstoneOptional<string>)
    requires o.policy == StringSetToNullPolicy() && o.traits == StringTraits()
    ensures !o.DefaultedCopyConstruct() && !o.DefaultedMoveConstruct()
    ensures !o.DefaultedCopyAssign() && !o.DefaultedMoveAssign()
    ensures !o.DefaultedDestructor() && !o.EasilySwappable()
  {
  }

  /** A NonNeg the public constructor accepts. */
  function NonNegOf(x: nat): (n: NonNeg)
    ensures n.GetValue() == x && !NonNegIsNull(n)
  {
    MakeNonNeg(x).value
  }

  /** std::string's operator==. */
  function EqualStrings(a: string, b: string): bool {
    a == b
  }

  /** "NonNegOpt assignment behavior" (tests/assignment.cpp): every NonNeg
      copy and move goes through the defaulted members. */
  method NonNegAssignmentBehavior()
    returns (selfAssigned: int, fromOther: int, fromEmpty: bool, fromValue: int,
             fromNullopt: bool, fromBraces: bool, moved: int)
    ensures selfAssigned == 42 && fromOther == 12 && fromValue == 99 && moved == 12
    ensures !fromEmpty && !fromNullopt && !fromBraces
  {
    var p, t := NonNegPolicy(), TriviallyCopyableTraits<NonNeg>();

    var o := new TombstoneOptional.FromValue(p, t, NonNegOf(42));
    o.CopyAssign(o);
    selfAssigned := o.Deref().GetValue();

    var o1 := new TombstoneOptional.FromValue(p, t, NonNegOf(42));
    var o2 := new TombstoneOptional.FromValue(p, t, NonNegOf(12));
    o1.CopyAssign(o2);
    fromOther := o1.Deref().GetValue();

    var o3 := new TombstoneOptional.FromValue(p, t, NonNegOf(42));
    var empty := new TombstoneOptional.Empty(p, t);
    o3.CopyAssign(empty);
    fromEmpty := o3.HasValue();

    var o4 := new TombstoneOptional.FromValue(p, t, NonNegOf(0));
    o4.AssignValue(NonNegOf(99));
    fromValue := o4.Deref().GetValue();

    var o5 := new TombstoneOptional.FromValue(p, t, NonNegOf(42));
    o5.AssignNullopt();
    fromNullopt := o5.HasValue();

    // `o = {}` move-assigns a value-initialised container
    var o6 := new TombstoneOptional.FromValue(p, t, NonNegOf(42));
    var braces := new TombstoneOptional.Empty(p, t);
    o6.MoveAssign(braces);
    fromBraces := o6.HasValue();

    var o7 := new TombstoneOptional.FromValue(p, t, NonNegOf(0));
    var o8 := new TombstoneOptional.FromValue(p, t, NonNegOf(12));
    o7.MoveAssign(o8);
    moved := o7.Deref().GetValue();
  }

  /** "Optional Comparisons" (tests/comparisons.cpp), for NonNegOpt<int>
      holding 4 and 42, against std::nullopt before and after `a = {}`, and
      for OptString holding "123" and "456". */
  method Comparisons()
    returns (aVersusB: Ordering, aEqualsB: bool, aEqualsA: bool, aVersusA: Ordering,
             aVersusNullopt: Ordering, emptyVersusNullopt: Ordering, emptyEqualsNullopt: bool,
             aVersusOne: Ordering, aVersusFour: Ordering, stringsCompared: Ordering, stringsEqual: bool)
    ensures aVersusB == Less && !aEqualsB && aEqualsA && aVersusA == Equivalent
    ensures aVersusNullopt == Greater && Reversed(aVersusNullopt) == Less
    ensures emptyVersusNullopt == Equivalent && emptyEqualsNullopt
    ensures aVersusOne == Greater && aVersusFour == Equivalent
    ensures stringsCompared == Less && !stringsEqual
  {
    var p, t := NonNegPolicy(), TriviallyCopyableTraits<NonNeg>();
    var a := new TombstoneOptional.FromValue(p, t, NonNegOf(4));
    var b := new TombstoneOptional.FromValue(p, t, NonNegOf(42));
    aVersusB := CompareOptionals(a, b, CompareNonNeg);
    aEqualsB := EqualsOptional(a, b, EqualNonNeg);
    aEqualsA := EqualsOptional(a, a, EqualNonNeg);
    aVersusA := CompareOptionals(a, a, CompareNonNeg);
    aVersusNullopt := CompareNullopt(a);
    aVersusOne := CompareValue(a, NonNegOf(1), CompareNonNeg);
    aVersusFour := CompareValue(a, NonNegOf(4), CompareNonNeg);

    var braces := new TombstoneOptional.Empty(p, t);
    a.MoveAssign(braces);
    emptyVersusNullopt := CompareNullopt(a);
    emptyEqualsNullopt := EqualsNullopt(a);

    var sp, st := StringSetToNullPolicy(), StringTraits();
    var s1 := new TombstoneOptional.FromValue(sp, st, "123");
    var s2 := new TombstoneOptional.FromValue(sp, st, "456");
    stringsCompared := CompareOptionals(s1, s2, CompareStrings);
    stringsEqual := EqualsOptional(s1, s2, EqualStrings);
  }

  /** "Hashing" (tests/hash.cpp): two empty OptStrings hash alike, and so do
      two holding "Hello"; "World" hashes differently when std::hash of the
      two strings differs, as the test takes it to. */
  method Hashing(hashString: string -> SizeT)
    returns (empty1: SizeT, empty2: SizeT, hello1: SizeT, hello2: SizeT, world: SizeT)
    requires hashString("Hello") != hashString("World")
    ensures empty1 == empty2 == 0
    ensures hello1 == hello2 == hashString("Hello")
    ensures hello1 != world
  {
    var p, t := StringSetToNullPolicy(), StringTraits();
    var e1 := new TombstoneOptional.Empty(p, t);
    var e2 := new TombstoneOptional.Empty(p, t);
    empty1, empty2 := Hash(e1, hashString), Hash(e2, hashString);
    var h1 := new TombstoneOptional.FromValue(p, t, "Hello");
    var h2 := new TombstoneOptional.FromValue(p, t, "Hello");
    hello1, hello2 := Hash(h1, hashString), Hash(h2, hashString);
    var w := new TombstoneOptional.FromValue(p, t, "World");
    world := Hash(w, hashString);
  }

  /** "Test constructors of tombstone_optional" (tests/constructors.cpp), for
      OptString. */
  method Constructors() returns (defaulted: bool, copied: string, copiedFromEmpty: bool, moved: string)
    ensures !defaulted && !copiedFromEmpty
    ensures copied == "Hello World" && moved == "Hello World"
  {
    var p, t := StringSetToNullPolicy(), StringTraits();
    var emptyOpt := new TombstoneOptional.Empty(p, t);
    defaulted := emptyOpt.HasValue();

    var original := new TombstoneOptional.FromValue(p, t, "Hello World");
    var copy := new TombstoneOptional.Copy(original);
    copied := copy.Deref();

    var copyOfEmpty := new TombstoneOptional.Copy(emptyOpt);
    copiedFromEmpty := copyOfEmpty.HasValue();

    var source := new TombstoneOptional.FromValue(p, t, "Hello World");
    var movedOpt := new TombstoneOptional.Move(source);
    moved := movedOpt.Deref();
  }

  /** "swap value", "Swap value with null" and "Swap null with value"
      (tests/swap.cpp). In the last two, the container that received a value
      had its null string constructed over without being destroyed. */
  method Swaps()
    returns (a1: string, b1: string, swappedHasValue: bool, swappedValue: string,
             emptiedHasValue: bool, receivedValue: string,
             ghost swappedMishaps: seq<Mishap>, ghost receiverMishaps: seq<Mishap>)
    ensures a1 == "World" && b1 == "Hello"
    ensures !swappedHasValue && swappedValue == "Is someone there?"
    ensures !emptiedHasValue && receivedValue == "I should be null"
    ensures swappedMishaps == [NeverDestroyed] && receiverMishaps == [NeverDestroyed]
  {
    var p, t := StringSetToNullPolicy(), StringTraits();
    var a := new TombstoneOptional.FromValue(p, t, "Hello");
    var b := new TombstoneOptional.FromValue(p, t, "World");
    a.Swap(b);
    a1, b1 := a.Deref(), b.Deref();

    var c := new TombstoneOptional.FromValue(p, t, "Is someone there?");
    var d := new TombstoneOptional.Empty(p, t);
    Swap(c, d);
    swappedHasValue, swappedValue, swappedMishaps := c.HasValue(), d.Deref(), d.mishaps;

    var e := new TombstoneOptional.Empty(p, t);
    var f := new TombstoneOptional.FromValue(p, t, "I should be null");
    e.Swap(f);
    emptiedHasValue := f.HasValue();
    receivedValue := e.Deref();
    receiverMishaps := e.mishaps;
  }

  /** No test case: an OptString holding a value that is assigned from an empty OptString:
      as written, the held string is destroyed and nothing takes its place,
      so has_value() then inspects a dead string, which still reads as the
      value. With the assignment as intended the container is empty. */
  method StringAssignFromEmpty() returns (asWritten: bool, ghost asWrittenTag: Lifecycle, intended: bool)
    ensures asWritten && asWrittenTag == Destroyed
    ensures !intended
  {
    var p, t := StringSetToNullPolicy(), StringTraits();
    var empty := new TombstoneOptional.Empty(p, t);
    var o1 := new TombstoneOptional.FromValue(p, t, "Hello");
    o1.CopyAssign(empty);
    asWritten, asWrittenTag := o1.HasValue(), o1.tag;

    var o2 := new TombstoneOptional.FromValue(p, t, "Hello");
    o2.CopyAssignIntended(empty);
    intended := o2.HasValue();
  }

  /** No test case: the destructor of an OptString holding a value: as written, the string
      is destroyed and then destroyed again as the null state. As intended,
      it is destroyed once. */
  method StringDestructor() returns (ghost asWritten: seq<Mishap>, ghost intended: seq<Mishap>)
    ensures asWritten == [DoubleDestroy]
    ensures intended == []
  {
    var p, t := StringSetToNullPolicy(), StringTraits();
    var o1 := new TombstoneOptional.FromValue(p, t, "Is someone there?");
    o1.Destruct();
    asWritten := o1.mishaps;

    var o2 := new TombstoneOptional.FromValue(p, t, "Is someone there?");
    o2.DestructIntended();
    intended := o2.mishaps;
  }

  /** No test case: an empty OptString assigned to itself. As written, the
      empty-source branch destroys the container's own null string and
      installs nothing, so the destructor then destroys it a second time.
      As intended, self-assignment of an empty container changes nothing. */
  method StringSelfAssignEmpty()
    returns (asWrittenHasValue: bool, ghost asWritten: seq<Mishap>, intendedHasValue: bool, ghost intended: seq<Mishap>)
    ensures !asWrittenHasValue && asWritten == [DoubleDestroy]
    ensures !intendedHasValue && intended == []
  {
    var p, t := StringSetToNullPolicy(), StringTraits();
    var e1 := new TombstoneOptional.Empty(p, t);
    e1.CopyAssign(e1);
    asWrittenHasValue := e1.HasValue();
    e1.Destruct();
    asWritten := e1.mishaps;

    var e2 := new TombstoneOptional.Empty(p, t);
    e2.CopyAssignIntended(e2);
    intendedHasValue := e2.HasValue();
    e2.DestructIntended();
    intended := e2.mishaps;
  }

  /** "Observers" (tests/observers.cpp): did_i_move, seen as the byte of its
      one bool member, whose move constructor sets that member of its source
      to true. After `std::move(source).value()` initialises a new object the
      source still holds a value, and that value says it was moved from. */
  method Observers() returns (sourceHasValue: bool, sourceYes: bool)
    ensures sourceHasValue && sourceYes
  {
    var p := BoolPolicy();
    var t := TypeTraits(true, false, false, false, false, _ => BoolRepresentation(true));
    BoolValuesAreNotNull(false);
    var source := new TombstoneOptional.FromValue(p, t, BoolRepresentation(false));
    var value := source.ValueMove();
    sourceHasValue := source.HasValue();
    sourceYes := source.Deref() == BoolRepresentation(true);
  }

  /** No test case: a bool container under Interface<bool> holds both bool
      values, and reset() brings back the secret byte. */
  method BoolContainer() returns (holdsFalse: bool, holdsTrue: bool, afterReset: bool)
    ensures holdsFalse && holdsTrue && !afterReset
  {
    var p := BoolPolicy();
    var t := TriviallyCopyableTraits<CString.byte>();
    BoolValuesAreNotNull(false);
    BoolValuesAreNotNull(true);
    var f := new TombstoneOptional.FromValue(p, t, BoolRepresentation(false));
    holdsFalse := f.HasValue();
    var tr := new TombstoneOptional.FromValue(p, t, BoolRepresentation(true));
    holdsTrue := tr.HasValue();
    tr.Reset();
    afterReset := tr.HasValue();
  }
}
