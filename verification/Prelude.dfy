/** Fixed-width integers, results and identifiers shared by every model. */
module Prelude {

  const U32_MAX: int := 0xFFFF_FFFF
  const U256_MAX: int := 0xFFFF_FFFF_FFFF_FFFF_FFFF_FFFF_FFFF_FFFF_FFFF_FFFF_FFFF_FFFF_FFFF_FFFF_FFFF_FFFF
  const ADDRESS_MAX: int := 0xFFFF_FFFF_FFFF_FFFF_FFFF_FFFF_FFFF_FFFF_FFFF_FFFF

  type U8 = x: int | 0 <= x <= 0xFF
  type U32 = x: int | 0 <= x <= U32_MAX
  type U128 = x: int | 0 <= x <= 0xFFFF_FFFF_FFFF_FFFF_FFFF_FFFF_FFFF_FFFF
  type U256 = x: int | 0 <= x <= U256_MAX

  /** A Solidity address; 0 is `address(0)`. */
  type Address = x: int | 0 <= x <= ADDRESS_MAX

  /** A Substrate account, as `ensure_signed` yields it. */
  type AccountId = nat

  /** A `Vec<u8>`. */
  type Bytes = seq<U8>

  datatype Option<+T> = None | Some(value: T)

  datatype Result<+T, +E> = Ok(value: T) | Err(error: E)

  function Min(x: int, y: int): int {
    if x <= y then x else y
  }

  lemma SnocAssociates<T>(xs: seq<T>, ys: seq<T>, z: T)
    ensures xs + (ys + [z]) == xs + ys + [z]
  {
  }

  /** Rust `saturating_add` on u32. */
  function SatAdd(x: U32, y: U32): U32 {
    if x + y <= U32_MAX then x + y else U32_MAX
  }

  /** Rust `saturating_sub` on u32. */
  function SatSub(x: U32, y: U32): U32 {
    if y <= x then x - y else 0
  }

  /** Solidity `+` inside an `unchecked` block. */
  function WrapAdd(x: U256, y: U256): U256 {
    if x + y <= U256_MAX then x + y else x + y - U256_MAX - 1
  }

  /** Solidity `-` inside an `unchecked` block. */
  function WrapSub(x: U256, y: U256): U256 {
    if y <= x then x - y else x - y + U256_MAX + 1
  }

  /** Unchecked arithmetic is arithmetic modulo 2^256. */
  lemma WrapsModulo(x: U256, y: U256)
    ensures WrapAdd(x, y) == (x + y) % (U256_MAX + 1)
    ensures WrapSub(x, y) == (x - y) % (U256_MAX + 1)
  {
  }

  /** The outcome of checks made in turn: the error of the first one that fails. */
  datatype Checks<+E> = Passed | Failed(error: E) {
    function Need(holds: bool, otherwise: E): Checks<E> {
      if this.Failed? || holds then this else Failed(otherwise)
    }
  }

  /** `r` succeeds if and only if the checks pass, and otherwise answers their error. */
  ghost predicate Decides<S, E>(r: Result<S, E>, checks: Checks<E>) {
    match checks
    case Passed => r.Ok?
    case Failed(e) => r == Err(e)
  }

  /** A call that answered `r` and moved the state from `before` to `after` did what `spec`
      says: the specified state on success, the specified error and no change otherwise. */
  ghost predicate Follows<R, S, E>(r: Result<R, E>, before: S, after: S, spec: Result<S, E>) {
    match spec
    case Ok(next) => r.Ok? && after == next
    case Err(e) => r.Err? && r.error == e && after == before
  }
}
