/**
  The value-or-error return type `r<T>` as its unit tests describe it.

  An `R<T>` holds either a value or an error code. It converts to `true`
  exactly when it holds a value; reading the value of an error result throws;
  reading the error of a value result yields the default (cleared) error code.
 */
module Results {
  import opened Errors

  /** The outcome of reading the value: the value itself, or a thrown exception. */
  datatype Access<T> = Returns(value: T) | Throws

  datatype R<T> = Value(value: T) | Error(error: ErrorCode) {

    /** The conversion to `bool`. */
    predicate Truthy() {
      Value?
    }

    /** `v()`: the held value, throwing exactly when the result is falsy. */
    function V(): (a: Access<T>)
      ensures a.Returns? <==> Truthy()
      ensures Truthy() ==> a.value == value
    {
      match this
      case Value(x) => Returns(x)
      case Error(_) => Throws
    }

    /** `e()`: the held error of a falsy result, `NoError` for a truthy one. */
    function E(): (c: ErrorCode)
      ensures !Truthy() ==> c == error
      ensures Truthy() ==> c == NoError
      ensures IsFailure(c) ==> !Truthy()
    {
      match this
      case Value(_) => NoError
      case Error(c) => c
    }
  }

  /** The record the tests store in an `r`; its `moved_` flag is not modelled. */
  datatype TestType = TestType(a: int, b: int)

  /** Construction from a value. */
  function FromValue<T>(x: T): (r: R<T>)
    ensures r.Truthy()
    ensures r.V() == Returns(x)
    ensures r.E() == NoError
  {
    Value(x)
  }

  /** Construction from an error code. */
  function FromError<T>(c: ErrorCode): (r: R<T>)
    ensures !r.Truthy()
    ensures r.V() == Throws
    ensures r.E() == c
  {
    Error(c)
  }

  /** Emplace construction: the value is built in place from its two fields. */
  function Emplace(a: int, b: int): (r: R<TestType>)
    ensures r.Truthy()
    ensures r.V().Returns? && r.V().value.a == a && r.V().value.b == b
    ensures r.E() == NoError
  {
    Value(TestType(a, b))
  }

  /** Copy construction. */
  function Copy<T>(r: R<T>): (c: R<T>)
    ensures c.Truthy() == r.Truthy()
    ensures c.V() == r.V()
    ensures c.E() == r.E()
  {
    match r
    case Value(x) => Value(x)
    case Error(e) => Error(e)
  }

  /**
    Move construction of a result holding the tests' record: yields the
    moved-from source and the new result. The record's move constructor copies
    both fields (only its `moved_` flag changes), so both compare equal
    afterwards; for other value types the moved-from content is whatever their
    move constructor leaves, which is why this is stated for `TestType` only.
   */
  function Move(r: R<TestType>): (p: (R<TestType>, R<TestType>))
    ensures p.1.Truthy() == r.Truthy()
    ensures p.1.V() == r.V()
    ensures p.1.E() == r.E()
    ensures p.0 == r
    ensures p.0.V() == p.1.V()
    ensures p.0.E() == p.1.E()
  {
    (r, Copy(r))
  }

  /** Assignment of a value, whatever the result held before. */
  function AssignValue<T>(r: R<T>, x: T): (r': R<T>)
    ensures r'.Truthy()
    ensures r'.V() == Returns(x)
    ensures r'.E() == NoError
  {
    Value(x)
  }

  /** Assignment of an error, whatever the result held before. */
  function AssignError<T>(r: R<T>, c: ErrorCode): (r': R<T>)
    ensures !r'.Truthy()
    ensures r'.V() == Throws
    ensures r'.E() == c
  {
    Error(c)
  }

  /**
    The conversion to `bool` agrees with the other two observers: a truthy
    result gives access to its value and reports no error, a falsy one throws
    on `v()`.
   */
  lemma ObserversAgree<T>(r: R<T>)
    ensures r.Truthy() <==> r.V().Returns?
    ensures r.Truthy() ==> r.E() == NoError
  {
  }

  /** The three observers determine a result completely. */
  lemma ObserversDetermine<T>(r1: R<T>, r2: R<T>)
    requires r1.Truthy() == r2.Truthy()
    requires r1.V() == r2.V()
    requires r1.E() == r2.E()
    ensures r1 == r2
  {
  }

  /** Copy is the identity: the copy is indistinguishable from the original. */
  lemma CopyIsIdentity<T>(r: R<T>)
    ensures Copy(r) == r
  {
    ObserversDetermine(Copy(r), r);
  }

  /** Assignment forgets the previous content: the result is a fresh construction. */
  lemma AssignmentForgetsPrevious<T>(r1: R<T>, r2: R<T>, x: T, c: ErrorCode)
    ensures AssignValue(r1, x) == AssignValue(r2, x) == FromValue(x)
    ensures AssignError(r1, c) == AssignError(r2, c) == FromError(c)
  {
  }

  // The unit tests' assertions, one lemma per test case.

  lemma CanBeConstructedFromAValue()
    ensures FromValue(42).Truthy() && FromValue(42).V() == Returns(42) && FromValue(42).E() == NoError
  {
  }

  lemma CanBeConstructedEmplace()
    ensures Emplace(42, 69).Truthy()
    ensures Emplace(42, 69).V() == Returns(TestType(42, 69))
  {
  }

  lemma CanBeConstructedFromAnError()
    ensures !FromError<int>(AddressInUse).Truthy()
    ensures FromError<int>(AddressInUse).V() == Throws
    ensures FromError<int>(AddressInUse).E() == AddressInUse
  {
  }

  lemma CanBeCopyConstructed()
    ensures var r1 := Emplace(42, 69); var r2 := Copy(r1);
      r2.Truthy() && r1.V() == r2.V() && r1.E() == r2.E()
    ensures var r1 := FromError<TestType>(AddressInUse); var r2 := Copy(r1);
      !r2.Truthy() && r1.E() == r2.E()
  {
  }

  lemma CanBeMoveConstructed()
    ensures var p := Move(Emplace(42, 69));
      p.1.Truthy() && p.0.V() == p.1.V() && p.0.E() == p.1.E()
    ensures var p := Move(FromError<TestType>(AddressInUse));
      !p.1.Truthy() && p.0.E() == p.1.E()
  {
  }

  lemma CanBeAssigned()
    ensures var r := AssignValue(Emplace(0, 0), TestType(42, 69));
      r.Truthy() && r.V() == Returns(TestType(42, 69))
    ensures var r := AssignError(Emplace(0, 0), AddressInUse);
      !r.Truthy() && r.E() == AddressInUse
    ensures var r := AssignError(FromError<TestType>(AddressFamilyNotSupported), AddressInUse);
      !r.Truthy() && r.E() == AddressInUse
  {
  }
}
