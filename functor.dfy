/**
 * Model of src/functor.rs: the `Functor` trait (`new` wraps a value, `map`
 * applies a function inside the container) and its three implementations,
 * each over its own container type, as in the source's test module.
 *
 * Rust's `&self` receiver is `this`; the `fn(&T) -> U` argument is a total
 * Dafny arrow `T -> U`; cloning the `Right` payload is passing it on.
 */
module Functor {

  /** A container that always holds exactly one value. */
  datatype Identity<T> = Identity(value: T) {

    /** `new` wraps exactly the given value. */
    static function New(value: T): (r: Identity<T>)
      ensures r.value == value
    {
      Identity(value)
    }

    /** `map` always applies `f`, rewrapping the result with `new`. */
    function Map<U>(f: T -> U): (r: Identity<U>)
      ensures r.value == f(value)
    {
      Identity.New(f(value))
    }
  }

  /** An optional value: `Just` a value, or `Nothing`. */
  datatype Maybe<T> = Just(value: T) | Nothing {

    /** `new` always succeeds: it builds the populated state. */
    static function New(value: T): (r: Maybe<T>)
      ensures r.Just? && r.value == value
    {
      Just(value)
    }

    /** `map` applies `f` to a `Just` payload and leaves `Nothing` as it is. */
    function Map<U>(f: T -> U): (r: Maybe<U>)
      ensures r.Just? <==> Just?
      ensures Just? ==> r.value == f(value)
    {
      match this
      case Just(v) => Just(f(v))
      case Nothing => Nothing
    }
  }

  /**
   * A two-sided value. `Left` is the primary side that `map` transforms;
   * `Right` is a short-circuit value carried through unchanged.
   */
  datatype Either<L, R> = Left(left: L) | Right(right: R) {

    /** `new` builds the primary side. */
    static function New(value: L): (r: Either<L, R>)
      ensures r.Left? && r.left == value
    {
      Left(value)
    }

    /** `map` applies `f` to a `Left` payload and copies a `Right` payload. */
    function Map<U>(f: L -> U): (r: Either<U, R>)
      ensures r.Left? <==> Left?
      ensures Left? ==> r.left == f(left)
      ensures Right? ==> r.right == right
    {
      match this
      case Left(v) => Left(f(v))
      case Right(e) => Right(e)
    }
  }

  // ---------------------------------------------------------------------
  // Identity

  /** Functor identity law. */
  lemma IdentityMapId<T>(x: Identity<T>)
    ensures x.Map(y => y) == x
  {
  }

  /** Functor composition law. */
  lemma IdentityMapCompose<A, B, C>(x: Identity<A>, f: A -> B, g: B -> C)
    ensures x.Map(f).Map(g) == x.Map(a => g(f(a)))
  {
  }

  /** `map` can produce every value: the payload is entirely `f`'s choice. */
  lemma {:induction false} IdentityMapReach<T, U>(x: Identity<T>, y: Identity<U>)
    ensures exists f: T -> U :: x.Map(f) == y
  {
    var f := (_: T) => y.value;
    assert x.Map(f) == y;
  }

  /** The two tests of the `identity` module. */
  lemma IdentityMapTests()
    ensures Identity.New(42).Map(x => x + 1) == Identity.New(43)
    ensures Identity<int>.New(42).Map(x => [x]) == Identity.New([42])
  {
  }

  // ---------------------------------------------------------------------
  // Maybe

  /** Functor identity law. */
  lemma MaybeMapId<T>(x: Maybe<T>)
    ensures x.Map(y => y) == x
  {
  }

  /** Functor composition law. */
  lemma MaybeMapCompose<A, B, C>(x: Maybe<A>, f: A -> B, g: B -> C)
    ensures x.Map(f).Map(g) == x.Map(a => g(f(a)))
  {
  }

  /**
   * The constructor is all that `map` keeps: some `f` turns `x` into `y`
   * exactly when both have the same constructor. `U` is required to be
   * nonempty, since otherwise no `f: T -> U` need exist at all.
   */
  lemma {:induction false} MaybeMapReach<T, U(00)>(x: Maybe<T>, y: Maybe<U>)
    ensures (exists f: T -> U :: x.Map(f) == y) <==> (x.Just? <==> y.Just?)
  {
    if x.Just? && y.Just? {
      var f := (_: T) => y.value;
      assert x.Map(f) == y;
    } else if x.Nothing? && y.Nothing? {
      var u: U :| true;
      var f := (_: T) => u;
      assert x.Map(f) == y;
    }
  }

  /** The four tests of the `maybe` module. */
  lemma MaybeMapTests()
    ensures Just(42).Map(x => x + 1) == Just(43)
    ensures Maybe<int>.Nothing.Map(x => x + 1) == Nothing
    ensures Just(42).Map(x => [x]) == Just([42])
    ensures Maybe<int>.Nothing.Map(x => [x]) == Nothing
  {
  }

  // ---------------------------------------------------------------------
  // Either

  /** Functor identity law. */
  lemma EitherMapId<L, R>(x: Either<L, R>)
    ensures x.Map(y => y) == x
  {
  }

  /** Functor composition law. */
  lemma EitherMapCompose<A, B, C, R>(x: Either<A, R>, f: A -> B, g: B -> C)
    ensures x.Map(f).Map(g) == x.Map(a => g(f(a)))
  {
  }

  /**
   * Some `f` turns `x` into `y` exactly when both are `Left`, or `y` is
   * `x`'s own `Right(e)`. `U` is required to be nonempty, since otherwise no
   * `f: L -> U` need exist at all.
   */
  lemma {:induction false} EitherMapReach<L, R, U(00)>(x: Either<L, R>, y: Either<U, R>)
    ensures (exists f: L -> U :: x.Map(f) == y) <==>
              (x.Left? && y.Left?) || (x.Right? && y == Right(x.right))
  {
    if x.Left? && y.Left? {
      var f := (_: L) => y.left;
      assert x.Map(f) == y;
    } else if x.Right? && y == Right(x.right) {
      var u: U :| true;
      var f := (_: L) => u;
      assert x.Map(f) == y;
    }
  }

  /** A `Right` ignores the mapped function: any two functions agree on it. */
  lemma EitherMapRightIgnoresF<L, R, U>(e: R, f: L -> U, g: L -> U)
    ensures Either<L, R>.Right(e).Map(f) == Either<L, R>.Right(e).Map(g) == Right(e)
  {
  }

  /** The four tests of the `either` module. */
  lemma EitherMapTests()
    ensures Either<int, ()>.Left(42).Map(x => x + 1) == Left(43)
    ensures Either<int, int>.Right(42).Map(x => x + 1) == Right(42)
    ensures Either<int, ()>.Left(42).Map(x => [x]) == Left([42])
    ensures Either<int, int>.Right(42).Map(x => [x]) == Right(42)
  {
  }
}
