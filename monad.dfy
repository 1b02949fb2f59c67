/**
 * Model of src/monad.rs: the `Monad` trait (`new` wraps a value, `bind`
 * sequences a container with a function returning a container) and its
 * three implementations, each over its own container type.
 */
module Monad {

  /** A container that always holds exactly one value. */
  datatype Identity<T> = Identity(value: T) {

    /** `new` wraps exactly the given value. */
    static function New(value: T): (r: Identity<T>)
      ensures r.value == value
    {
      Identity(value)
    }

    /** `bind` always calls `f` on the held value and returns its result. */
    function Bind<U>(f: T -> Identity<U>): (r: Identity<U>)
      ensures r == f(value)
    {
      f(value)
    }
  }

  /** An optional value: `Just` a value, or `Nothing`. */
  datatype Maybe<T> = Just(value: T) | Nothing {

    /** `new` always succeeds: it builds the populated state. */
    static function New(value: T): (r: Maybe<T>)
      ensures r.Just? && r.value == value
    {
      Just(value)
    }

    /** `bind` returns `f`'s result on a `Just` and `Nothing` otherwise. */
    function Bind<U>(f: T -> Maybe<U>): (r: Maybe<U>)
      ensures Just? ==> r == f(value)
      ensures Nothing? ==> r.Nothing?
    {
      match this
      case Just(v) => f(v)
      case Nothing => Nothing
    }
  }

  /**
   * A two-sided value. `Left` is the primary side that `bind` passes to the
   * function; `Right` is a short-circuit value carried through unchanged.
   */
  datatype Either<L, R> = Left(left: L) | Right(right: R) {

    /** `new` builds the primary side. */
    static function New(value: L): (r: Either<L, R>)
      ensures r.Left? && r.left == value
    {
      Left(value)
    }

    /**
     * `bind` returns exactly `f`'s result on a `Left`, whichever side that
     * result is on, and copies a `Right`.
     */
    function Bind<U>(f: L -> Either<U, R>): (r: Either<U, R>)
      ensures Left? ==> r == f(left)
      ensures Right? ==> r == Right(right)
    {
      match this
      case Left(v) => f(v)
      case Right(e) => Right(e)
    }
  }

  // ---------------------------------------------------------------------
  // Identity

  /** Monad left identity law. */
  lemma IdentityBindLeftId<T, U>(x: T, f: T -> Identity<U>)
    ensures Identity.New(x).Bind(f) == f(x)
  {
  }

  /** Monad right identity law. */
  lemma IdentityBindRightId<T>(m: Identity<T>)
    ensures m.Bind(x => Identity.New(x)) == m
  {
  }

  /** Monad associativity law. */
  lemma IdentityBindAssoc<A, B, C>(m: Identity<A>, f: A -> Identity<B>, g: B -> Identity<C>)
    ensures m.Bind(f).Bind(g) == m.Bind(x => f(x).Bind(g))
  {
  }

  /** `bind` can produce every container: the result is entirely `f`'s choice. */
  lemma {:induction false} IdentityBindReach<T, U>(m: Identity<T>, y: Identity<U>)
    ensures exists f: T -> Identity<U> :: m.Bind(f) == y
  {
    var f := (_: T) => y;
    assert m.Bind(f) == y;
  }

  /** The two tests of the `identity` module. */
  lemma IdentityBindTests()
    ensures Identity.New(1).Bind(x => Identity.New(x + 1)) == Identity.New(2)
    ensures Identity<int>.New(1).Bind(x => Identity.New([x])) == Identity.New([1])
  {
  }

  // ---------------------------------------------------------------------
  // Maybe

  /** Monad left identity law. */
  lemma MaybeBindLeftId<T, U>(x: T, f: T -> Maybe<U>)
    ensures Maybe.New(x).Bind(f) == f(x)
  {
  }

  /** Monad right identity law. */
  lemma MaybeBindRightId<T>(m: Maybe<T>)
    ensures m.Bind(x => Maybe.New(x)) == m
  {
  }

  /** Monad associativity law. */
  lemma MaybeBindAssoc<A, B, C>(m: Maybe<A>, f: A -> Maybe<B>, g: B -> Maybe<C>)
    ensures m.Bind(f).Bind(g) == m.Bind(x => f(x).Bind(g))
  {
  }

  /** `Nothing` absorbs every function, including one that always returns `Just`. */
  lemma MaybeBindNothing<T, U>(f: T -> Maybe<U>)
    ensures Maybe<T>.Nothing.Bind(f) == Nothing
  {
  }

  /**
   * From `Just(v)` every result is reachable; from `Nothing` only `Nothing`
   * is.
   */
  lemma {:induction false} MaybeBindReach<T, U>(m: Maybe<T>, y: Maybe<U>)
    ensures (exists f: T -> Maybe<U> :: m.Bind(f) == y) <==> m.Just? || y.Nothing?
  {
    if m.Just? || y.Nothing? {
      var f := (_: T) => y;
      assert m.Bind(f) == y;
    }
  }

  /** The four tests of the `maybe` module. */
  lemma MaybeBindTests()
    ensures Just(1).Bind(x => Just(x + 1)) == Just(2)
    ensures Maybe<int>.Nothing.Bind(x => Just(x + 1)) == Nothing
    ensures Just(1).Bind(_ => Maybe<int>.Nothing) == Nothing
    ensures Maybe<int>.Nothing.Bind(_ => Just(1)) == Nothing
  {
  }

  // ---------------------------------------------------------------------
  // Either

  /** Monad left identity law. */
  lemma EitherBindLeftId<T, U, R>(x: T, f: T -> Either<U, R>)
    ensures Either.New(x).Bind(f) == f(x)
  {
  }

  /** Monad right identity law. */
  lemma EitherBindRightId<L, R>(m: Either<L, R>)
    ensures m.Bind(x => Either.New(x)) == m
  {
  }

  /** Monad associativity law. */
  lemma EitherBindAssoc<A, B, C, R>(m: Either<A, R>, f: A -> Either<B, R>, g: B -> Either<C, R>)
    ensures m.Bind(f).Bind(g) == m.Bind(x => f(x).Bind(g))
  {
  }

  /**
   * From `Left(v)` every result is reachable, a `Right` one included; from
   * `Right(e)` only `Right(e)` is.
   */
  lemma {:induction false} EitherBindReach<L, R, U>(m: Either<L, R>, y: Either<U, R>)
    ensures (exists f: L -> Either<U, R> :: m.Bind(f) == y) <==> m.Left? || y == Right(m.right)
  {
    if m.Left? || y == Right(m.right) {
      var f := (_: L) => y;
      assert m.Bind(f) == y;
    }
  }

  /**
   * The tests of the `either` module that agree with the code. Binding
   * `Left(1)` to a function that returns `Right(..)` yields that `Right`,
   * not a `Left`.
   */
  lemma EitherBindTests()
    ensures Either<int, int>.Left(1).Bind(x => Left(x + 1)) == Left(2)
    ensures Either<int, int>.Left(1).Bind(x => Either<int, int>.Right(x + 1)) == Right(2)
    ensures Either<int, int>.Right(1).Bind(x => Left(x + 1)) == Right(1)
    ensures Either<int, int>.Right(1).Bind(x => Either<int, int>.Right(x + 1)) == Right(1)
    ensures Either<int, int>.Left(1).Bind(x => Left([x])) == Left([1])
    ensures Either<int, int>.Right(1).Bind(x => Left([x])) == Right(1)
    ensures Either<int, int>.Right(1).Bind(_ => Either<int, int>.Right(2)) == Right(1)
  {
  }
}
