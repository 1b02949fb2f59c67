/**
 * Model of src/applicative.rs: the `Applicative` trait (`new` wraps a value,
 * `apply` combines a container of values with a container of functions) and
 * its three implementations, each over its own container type.
 *
 * `x.Apply(fs)` is the source's `x.apply(fs)`: the receiver holds the value
 * and the argument holds the function. For `Either` the receiver is looked
 * at first, so a `Right` receiver wins over a `Right` argument.
 */
module Applicative {

  /** A container that always holds exactly one value. */
  datatype Identity<T> = Identity(value: T) {

    /** `new` wraps exactly the given value. */
    static function New(value: T): (r: Identity<T>)
      ensures r.value == value
    {
      Identity(value)
    }

    /** `apply` unwraps the function and applies it to the held value. */
    function Apply<U>(fs: Identity<T -> U>): (r: Identity<U>)
      ensures r.value == fs.value(value)
    {
      var Identity(func) := fs;
      Identity(func(value))
    }
  }

  /** An optional value: `Just` a value, or `Nothing`. */
  datatype Maybe<T> = Just(value: T) | Nothing {

    /** `new` always succeeds: it builds the populated state. */
    static function New(value: T): (r: Maybe<T>)
      ensures r.Just? && r.value == value
    {
      Just(value)
    }

    /**
     * `apply` yields a `Just` exactly when both operands are `Just`, and then
     * holds the function applied to the value.
     */
    function Apply<U>(fs: Maybe<T -> U>): (r: Maybe<U>)
      ensures r.Just? <==> Just? && fs.Just?
      ensures r.Just? ==> r.value == fs.value(value)
    {
      match this
      case Just(v) =>
        (match fs
         case Just(func) => Just(func(v))
         case Nothing => Nothing)
      case Nothing => Nothing
    }
  }

  /**
   * A two-sided value. `Left` is the primary side; `Right` is a
   * short-circuit value carried through unchanged.
   */
  datatype Either<L, R> = Left(left: L) | Right(right: R) {

    /** `new` builds the primary side. */
    static function New(value: L): (r: Either<L, R>)
      ensures r.Left? && r.left == value
    {
      Left(value)
    }

    /**
     * `apply` applies the function when both sides are `Left`. Otherwise the
     * first `Right` met short-circuits: the receiver's if it has one, else
     * the function operand's.
     */
    function Apply<U>(fs: Either<L -> U, R>): (r: Either<U, R>)
      ensures Left? && fs.Left? ==> r == Left(fs.left(left))
      ensures Left? && fs.Right? ==> r == Right(fs.right)
      ensures Right? ==> r == Right(right)
    {
      match this
      case Left(v) =>
        (match fs
         case Left(func) => Left(func(v))
         case Right(e) => Right(e))
      case Right(e) => Right(e)
    }
  }

  // ---------------------------------------------------------------------
  // Identity

  /** Applicative identity law. */
  lemma IdentityApplyId<T>(x: Identity<T>)
    ensures x.Apply(Identity.New(y => y)) == x
  {
  }

  /** Applicative homomorphism law. */
  lemma IdentityApplyHomomorphism<T, U>(v: T, f: T -> U)
    ensures Identity.New(v).Apply(Identity.New(f)) == Identity.New(f(v))
  {
  }

  /** Applicative interchange law, with the operands in the source's order. */
  lemma IdentityApplyInterchange<T, U>(y: T, u: Identity<T -> U>)
    ensures Identity.New(y).Apply(u) == u.Apply(Identity.New((f: T -> U) => f(y)))
  {
  }

  /** Applicative composition law, with the operands in the source's order. */
  lemma IdentityApplyCompose<A, B, C>(w: Identity<A>, v: Identity<A -> B>, u: Identity<B -> C>)
    ensures w.Apply(v).Apply(u)
         == w.Apply(v.Apply(u.Apply(Identity.New((g: B -> C) => (f: A -> B) => (a: A) => g(f(a))))))
  {
  }

  /** `apply` can produce every value: the payload is entirely the function's choice. */
  lemma {:induction false} IdentityApplyReach<T, U>(x: Identity<T>, y: Identity<U>)
    ensures exists fs: Identity<T -> U> :: x.Apply(fs) == y
  {
    var fs := Identity((_: T) => y.value);
    assert x.Apply(fs) == y;
  }

  /** The two tests of the `identity` module. */
  lemma IdentityApplyTests()
    ensures Identity.New(1).Apply(Identity.New(x => x + 1)) == Identity.New(2)
    ensures Identity<int>.New(1).Apply(Identity.New(x => [x])) == Identity.New([1])
  {
  }

  // ---------------------------------------------------------------------
  // Maybe

  /** Applicative identity law. */
  lemma MaybeApplyId<T>(x: Maybe<T>)
    ensures x.Apply(Maybe.New(y => y)) == x
  {
  }

  /** Applicative homomorphism law. */
  lemma MaybeApplyHomomorphism<T, U>(v: T, f: T -> U)
    ensures Maybe.New(v).Apply(Maybe.New(f)) == Maybe.New(f(v))
  {
  }

  /** Applicative interchange law, with the operands in the source's order. */
  lemma MaybeApplyInterchange<T, U>(y: T, u: Maybe<T -> U>)
    ensures Maybe.New(y).Apply(u) == u.Apply(Maybe.New((f: T -> U) => f(y)))
  {
  }

  /** Applicative composition law, with the operands in the source's order. */
  lemma MaybeApplyCompose<A, B, C>(w: Maybe<A>, v: Maybe<A -> B>, u: Maybe<B -> C>)
    ensures w.Apply(v).Apply(u)
         == w.Apply(v.Apply(u.Apply(Maybe.New((g: B -> C) => (f: A -> B) => (a: A) => g(f(a))))))
  {
  }

  /** `Nothing` on either side absorbs: the result is `Nothing`. */
  lemma MaybeApplyNothing<T, U>(x: Maybe<T>, fs: Maybe<T -> U>)
    requires x.Nothing? || fs.Nothing?
    ensures x.Apply(fs) == Nothing
  {
  }

  /**
   * From `Just(v)` every result is reachable (`Nothing` through a `Nothing`
   * function operand); from `Nothing` only `Nothing` is.
   */
  lemma {:induction false} MaybeApplyReach<T, U>(x: Maybe<T>, y: Maybe<U>)
    ensures (exists fs: Maybe<T -> U> :: x.Apply(fs) == y) <==> x.Just? || y.Nothing?
  {
    if y.Nothing? {
      var fs: Maybe<T -> U> := Nothing;
      assert x.Apply(fs) == y;
    } else if x.Just? {
      var fs := Just((_: T) => y.value);
      assert x.Apply(fs) == y;
    }
  }

  /** The four tests of the `maybe` module. */
  lemma MaybeApplyTests()
    ensures Just(1).Apply(Just(x => x + 1)) == Just(2)
    ensures Maybe<int>.Nothing.Apply(Just(x => x + 1)) == Nothing
    ensures Just(1).Apply(Just(x => [x])) == Just([1])
    ensures Maybe<int>.Nothing.Apply(Just(x => [x])) == Nothing
  {
  }

  // ---------------------------------------------------------------------
  // Either

  /** Applicative identity law. */
  lemma EitherApplyId<L, R>(x: Either<L, R>)
    ensures x.Apply(Either.New(y => y)) == x
  {
  }

  /** Applicative homomorphism law. */
  lemma EitherApplyHomomorphism<T, U, R>(v: T, f: T -> U)
    ensures Either<T, R>.New(v).Apply(Either.New(f)) == Either.New(f(v))
  {
  }

  /** Applicative interchange law, with the operands in the source's order. */
  lemma EitherApplyInterchange<T, U, R>(y: T, u: Either<T -> U, R>)
    ensures Either.New(y).Apply(u) == u.Apply(Either.New((f: T -> U) => f(y)))
  {
  }

  /**
   * Applicative composition law, with the operands in the source's order:
   * in both groupings the first `Right` among `w`, `v`, `u` (in that order)
   * is the one that survives.
   */
  lemma EitherApplyCompose<A, B, C, R>(w: Either<A, R>, v: Either<A -> B, R>, u: Either<B -> C, R>)
    ensures w.Apply(v).Apply(u)
         == w.Apply(v.Apply(u.Apply(Either.New((g: B -> C) => (f: A -> B) => (a: A) => g(f(a))))))
  {
  }

  /** A `Right` receiver wins whatever the function operand is. */
  lemma EitherApplyRightWins<T, U, R>(e: R, fs: Either<T -> U, R>)
    ensures Either<T, R>.Right(e).Apply(fs) == Right(e)
  {
  }

  /**
   * From `Left(v)` every result is reachable (a `Right(e)` through a
   * `Right(e)` function operand); from `Right(e)` only `Right(e)` is.
   */
  lemma {:induction false} EitherApplyReach<T, R, U>(x: Either<T, R>, y: Either<U, R>)
    ensures (exists fs: Either<T -> U, R> :: x.Apply(fs) == y) <==> x.Left? || y == Right(x.right)
  {
    if y.Left? {
      if x.Left? {
        var fs: Either<T -> U, R> := Left((_: T) => y.left);
        assert x.Apply(fs) == y;
      }
    } else if x.Left? {
      var fs: Either<T -> U, R> := Right(y.right);
      assert x.Apply(fs) == y;
    } else if y == Right(x.right) {
      var fs: Either<T -> U, R> := Right(y.right);
      assert x.Apply(fs) == y;
    }
  }

  /** The tests of the `either` module; its two right/right tests assert the same thing. */
  lemma EitherApplyTests()
    ensures Either<int, ()>.Left(1).Apply(Left(x => x + 1)) == Left(2)
    ensures Either<int, int>.Left(1).Apply(Right(2)) == Either<int, int>.Right(2)
    ensures Either<int, int>.Right(1).Apply(Left(x => x + 1)) == Right(1)
    ensures Either<(), int>.Right(1).Apply(Either<(()) -> (), int>.Right(2)) == Right(1)
    ensures Either<int, ()>.Left(1).Apply(Left(x => [x])) == Left([1])
    ensures Either<int, string>.Left(1).Apply(Either<int -> string, string>.Right("2")) == Right("2")
    ensures Either<int, int>.Right(1).Apply(Left(x => [x])) == Right(1)
  {
  }
}
