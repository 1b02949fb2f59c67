# monad-rs in Dafny

The repository encodes Haskell's `Functor`, `Applicative` and `Monad` classes
as Rust traits. Each of the three source files declares one trait and, in its
test module, implements it for three small container types:

- `Identity<T>`, which always holds one value;
- `Maybe<T>`, which is `Just(value)` or `Nothing`;
- `Either<L, R>`, whose `Left` side is the primary one that the operations
  transform and whose `Right` side is a short-circuit value carried through.

This project models each file as one Dafny module (`Functor`, `Applicative`,
`Monad`). Each module declares its own three datatypes, as the source does.
Each Rust `impl` method becomes a member function of the datatype: `New` for
`new`, plus `Map`, `Apply` or `Bind`. The `&self` receiver becomes `this`.
A Rust function argument becomes a total Dafny arrow (`T -> U`). There is no
higher-kinded type in Dafny, so the trait declarations themselves, with their
`Kind<U>` associated types, have no counterpart: every shape is written out
concretely.

Every operation is a pure pattern match. Its contract states the
per-constructor behaviour the source implements and its tests assert. The
lemmas state the class laws for every shape:

- functor identity and composition;
- applicative identity, homomorphism, interchange and composition;
- monad left identity, right identity and associativity.

The `...Reach` lemmas are extra facts, not promised by any source text or
test. Each states exactly which results a given container can be turned into
by some choice of function, and so shows that the per-constructor contracts
leave nothing else fixed. For example, `Left(v).Bind(f)` can be any value at
all, while `Right(e).Bind(f)` can only be `Right(e)`. The two for `Map` assume
the result's element type is nonempty, since otherwise no function into it
need exist. The `...Tests` lemmas restate the source's unit tests on
integers.

`Apply` keeps the source's argument order. The receiver holds the value and
the argument holds the function. For `Either` the receiver is examined first,
so when both operands are `Right` the receiver's `Right` wins. The interchange
and composition laws are stated in that order.

Binding `Left(v)` returns exactly `f(v)`, whichever side it is on. The
repository's own tests at src/monad.rs:147-152 and src/monad.rs:175-180 expect
a `Left` where `f` returns a `Right`, which contradicts the implementation at
src/monad.rs:134. The model follows the code; `Monad.EitherBindTests` states
that `Left(1)` bound to `x => Right(x + 1)` is `Right(2)`.

## Model

| member | source | states |
|---|---|---|
| `Functor.Identity.New` | src/functor.rs:26-28 | `new` wraps exactly the given value |
| `Functor.Identity.Map` | src/functor.rs:30-32 | `map` holds `f` applied to the held value |
| `Functor.Maybe.New` | src/functor.rs:62-64 | `new` always builds a `Just` of exactly the given value |
| `Functor.Maybe.Map` | src/functor.rs:66-71 | the result is `Just` exactly when the input is (shape preserved); a `Just` result holds `f(v)` |
| `Functor.Either.New` | src/functor.rs:115-117 | `new` builds `Left` of exactly the given value |
| `Functor.Either.Map` | src/functor.rs:119-124 | the result is `Left` exactly when the input is; a `Left` holds `f(v)`; a `Right` keeps its payload unchanged |
| `Functor.IdentityMapId` | src/functor.rs:30-32 | mapping the identity function changes nothing |
| `Functor.IdentityMapCompose` | src/functor.rs:30-32 | mapping `f` then `g` equals mapping their composition |
| `Functor.IdentityMapReach` | src/functor.rs:30-32 | every `Identity<U>` is the image of any `Identity<T>` under some `f` |
| `Functor.IdentityMapTests` | src/functor.rs:35-47 | `Identity(42)` mapped with `+1` is `Identity(43)`, and with a type-changing function gives its image |
| `Functor.MaybeMapId` | src/functor.rs:66-71 | mapping the identity function changes nothing |
| `Functor.MaybeMapCompose` | src/functor.rs:66-71 | mapping `f` then `g` equals mapping their composition |
| `Functor.MaybeMapReach` | src/functor.rs:66-71 | for a nonempty element type, some `f` turns `x` into `y` if and only if both have the same constructor |
| `Functor.MaybeMapTests` | src/functor.rs:74-100 | `Just(42)` maps to `Just(43)` and `Just([42])`; `Nothing` maps to `Nothing` under both functions |
| `Functor.EitherMapId` | src/functor.rs:119-124 | mapping the identity function changes nothing |
| `Functor.EitherMapCompose` | src/functor.rs:119-124 | mapping `f` then `g` equals mapping their composition |
| `Functor.EitherMapReach` | src/functor.rs:119-124 | for a nonempty element type, some `f` turns `x` into `y` if and only if both are `Left` or `y` is `x`'s own `Right` |
| `Functor.EitherMapRightIgnoresF` | src/functor.rs:122 | `Right(e)` maps to `Right(e)` whatever the function |
| `Functor.EitherMapTests` | src/functor.rs:127-153 | `Left(42)` maps to `Left(43)` and `Left([42])`; `Right(42)` stays `Right(42)` under both functions |
| `Applicative.Identity.New` | src/applicative.rs:29-31 | `new` wraps exactly the given value |
| `Applicative.Identity.Apply` | src/applicative.rs:33-38 | the result holds the operand's function applied to the held value |
| `Applicative.Maybe.New` | src/applicative.rs:70-72 | `new` always builds a `Just` of exactly the given value |
| `Applicative.Maybe.Apply` | src/applicative.rs:74-82 | the result is `Just` if and only if both operands are `Just`, and then holds `f(v)` |
| `Applicative.Either.New` | src/applicative.rs:133-135 | `new` builds `Left` of exactly the given value |
| `Applicative.Either.Apply` | src/applicative.rs:137-145 | `Left(v)` with `Left(f)` gives `Left(f(v))`; `Left(v)` with `Right(e)` gives `Right(e)`; a `Right(e)` receiver gives `Right(e)` whatever the function operand |
| `Applicative.IdentityApplyId` | src/applicative.rs:29-38 | applying `new(id)` changes nothing |
| `Applicative.IdentityApplyHomomorphism` | src/applicative.rs:29-38 | `new(v)` applied to `new(f)` is `new(f(v))` |
| `Applicative.IdentityApplyInterchange` | src/applicative.rs:29-38 | `new(y)` applied to `u` equals `u` applied to `new(f => f(y))` |
| `Applicative.IdentityApplyCompose` | src/applicative.rs:29-38 | nested applications regroup through `new` of function composition |
| `Applicative.IdentityApplyReach` | src/applicative.rs:33-38 | every `Identity<U>` is the result of applying some function container |
| `Applicative.IdentityApplyTests` | src/applicative.rs:41-55 | `Identity(1)` applied to `Identity(+1)` is `Identity(2)`, and to a type-changing function gives its image |
| `Applicative.MaybeApplyId` | src/applicative.rs:70-82 | applying `new(id)` changes nothing |
| `Applicative.MaybeApplyHomomorphism` | src/applicative.rs:70-82 | `new(v)` applied to `new(f)` is `new(f(v))` |
| `Applicative.MaybeApplyInterchange` | src/applicative.rs:70-82 | `new(y)` applied to `u` equals `u` applied to `new(f => f(y))` |
| `Applicative.MaybeApplyCompose` | src/applicative.rs:70-82 | nested applications regroup through `new` of function composition |
| `Applicative.MaybeApplyNothing` | src/applicative.rs:78-80 | a `Nothing` on either side gives `Nothing` |
| `Applicative.MaybeApplyReach` | src/applicative.rs:74-82 | some function container turns `x` into `y` if and only if `x` is `Just` or `y` is `Nothing` |
| `Applicative.MaybeApplyTests` | src/applicative.rs:85-115 | `Just(1)` applied to `Just(+1)` is `Just(2)`; `Nothing` applied to a `Just` function is `Nothing` |
| `Applicative.EitherApplyId` | src/applicative.rs:133-145 | applying `new(id)` changes nothing |
| `Applicative.EitherApplyHomomorphism` | src/applicative.rs:133-145 | `new(v)` applied to `new(f)` is `new(f(v))` |
| `Applicative.EitherApplyInterchange` | src/applicative.rs:133-145 | `new(y)` applied to `u` equals `u` applied to `new(f => f(y))` |
| `Applicative.EitherApplyCompose` | src/applicative.rs:137-145 | nested applications regroup through composition; the first `Right` in value-then-function order survives either way |
| `Applicative.EitherApplyRightWins` | src/applicative.rs:143 | a `Right(e)` receiver gives `Right(e)` whatever the function operand, a `Right` one included |
| `Applicative.EitherApplyReach` | src/applicative.rs:137-145 | some function container turns `x` into `y` if and only if `x` is `Left` or `y` is `x`'s own `Right` |
| `Applicative.EitherApplyTests` | src/applicative.rs:148-210 | `Left`/`Left` applies the function, `Left`/`Right(e)` gives `Right(e)`, a `Right` receiver wins |
| `Monad.Identity.New` | src/monad.rs:36-38 | `new` wraps exactly the given value |
| `Monad.Identity.Bind` | src/monad.rs:40-42 | `bind` returns exactly `f` of the held value |
| `Monad.Maybe.New` | src/monad.rs:72-74 | `new` always builds a `Just` of exactly the given value |
| `Monad.Maybe.Bind` | src/monad.rs:76-81 | `Just(v)` binds to exactly `f(v)`; `Nothing` binds to `Nothing` |
| `Monad.Either.New` | src/monad.rs:128-130 | `new` builds `Left` of exactly the given value |
| `Monad.Either.Bind` | src/monad.rs:132-137 | `Left(v)` binds to exactly `f(v)`, whichever side; `Right(e)` binds to `Right(e)` |
| `Monad.IdentityBindLeftId` | src/monad.rs:36-42 | `bind(new(x), f)` is `f(x)` |
| `Monad.IdentityBindRightId` | src/monad.rs:36-42 | `bind(m, new)` is `m` |
| `Monad.IdentityBindAssoc` | src/monad.rs:40-42 | binding `f` then `g` equals binding `x => bind(f(x), g)` |
| `Monad.IdentityBindReach` | src/monad.rs:40-42 | every `Identity<U>` is the result of binding some function |
| `Monad.IdentityBindTests` | src/monad.rs:45-57 | `Identity(1)` bound to `x => new(x + 1)` is `Identity(2)`, and to a type-changing function gives its image |
| `Monad.MaybeBindLeftId` | src/monad.rs:72-81 | `bind(new(x), f)` is `f(x)` |
| `Monad.MaybeBindRightId` | src/monad.rs:72-81 | `bind(m, new)` is `m` |
| `Monad.MaybeBindAssoc` | src/monad.rs:76-81 | binding `f` then `g` equals binding `x => bind(f(x), g)` |
| `Monad.MaybeBindNothing` | src/monad.rs:79 | `Nothing` binds to `Nothing` for every function, one that always returns `Just` included |
| `Monad.MaybeBindReach` | src/monad.rs:76-81 | some function turns `m` into `y` if and only if `m` is `Just` or `y` is `Nothing` |
| `Monad.MaybeBindTests` | src/monad.rs:84-110 | the four `Just`/`Nothing` combinations of input and function result |
| `Monad.EitherBindLeftId` | src/monad.rs:128-137 | `bind(new(x), f)` is `f(x)` |
| `Monad.EitherBindRightId` | src/monad.rs:128-137 | `bind(m, new)` is `m` |
| `Monad.EitherBindAssoc` | src/monad.rs:132-137 | binding `f` then `g` equals binding `x => bind(f(x), g)` |
| `Monad.EitherBindReach` | src/monad.rs:132-137 | some function turns `m` into `y` if and only if `m` is `Left` or `y` is `m`'s own `Right` |
| `Monad.EitherBindTests` | src/monad.rs:140-194 | the tests that agree with the code, and `Left(1)` bound to `x => Right(x + 1)` is `Right(2)` |

## Left out

- The trait declarations (src/functor.rs:4-9, src/applicative.rs:5-12, src/monad.rs:12-19) and their `Kind<U>` associated types: Dafny has no higher-kinded types, so each implementation is written out for its own container.
- Lifetimes and `&T` borrows: they carry no behaviour in a value model, so arguments are plain values.
- `Clone` on the `Right` payload: in value semantics a clone is the value itself, so the payload is passed through unchanged.
- The tests at src/monad.rs:147-152 and src/monad.rs:175-180: they expect `Left(..)` where the code returns `f`'s `Right(..)`; the model states what the code returns.
- `i32` overflow in the tests' `x + 1`: the test lemmas use unbounded `int`, and every other member works for any payload type.
- Functor.MaybeMapReach: stated for a nonempty result element type only, because for an empty one no function into it need exist.
- Functor.EitherMapReach: stated for a nonempty result element type only, for the same reason.
- `to_string` in the tests: string formatting is not modelled; the type-changing tests use `x => [x]` instead.
