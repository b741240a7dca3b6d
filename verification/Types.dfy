// Shared data of the exchange: machine integers, orders, markets, positions, fills and errors.
module Types {

  const U32: int := 0x1_0000_0000
  const U64: int := 0x1_0000_0000_0000_0000
  const U128: int := 0x1_0000_0000_0000_0000_0000_0000_0000_0000

  type u32 = x: int | 0 <= x < U32
  type u64 = x: int | 0 <= x < U64
  type u128 = x: int | 0 <= x < U128

  // Account addresses only need equality.
  type Address = nat

  const BASIS_POINTS := 10000

  datatype Option<+T> = None | Some(value: T)

  datatype Error =
    | MarketNotFound
    | OrderNotFound
    | PositionNotFound
    | InsufficientMargin
    | Unauthorized
    | OrderNotFilled
    | PostOnlyWouldTake
    | ReduceOnlyWouldIncrease
    | LeverageTooHigh
    | Overflow
    | Other

  datatype Result<+T> = Ok(value: T) | Err(error: Error) {
    predicate IsFailure() { Err? }
    function PropagateFailure<U>(): Result<U> requires Err? { Err(error) }
    function Extract(): T requires Ok? { value }
  }

  datatype Status = Active | Filled | Cancelled

  datatype TimeInForce = GTC | IOC | FOK | PostOnly

  datatype Order = Order(
    id: u64,
    market: u32,
    owner: Address,
    isBuy: bool,
    price: u64,
    original: u64,
    remaining: u64,
    status: Status,
    createdAt: u64,
    reduceOnly: bool,
    postOnly: bool)

  datatype OrderRequest = OrderRequest(
    market: u32,
    isBuy: bool,
    price: u64,
    size: u64,
    timeInForce: TimeInForce,
    reduceOnly: bool,
    postOnly: bool)

  datatype Fill = Fill(
    maker: Address,
    taker: Address,
    market: u32,
    price: u64,
    size: u64,
    takerIsBuy: bool,
    makerId: u64,
    takerId: u64)

  datatype Market = Market(
    quoteAsset: u32,
    tickSize: u64,
    minOrderSize: u64,
    maxOrderSize: u64,
    maxLeverage: u32,
    maintenanceBps: u32,
    initialBps: u32,
    liquidationFeeBps: u32)

  datatype Position = Position(
    size: u64,
    entryPrice: u64,
    isLong: bool,
    margin: u128,
    fundingIndex: u128)

  datatype PositionKey = PositionKey(owner: Address, market: u32)

  // Rust's checked and saturating arithmetic on u128, and its truncating cast to u64.
  function Checked(x: int): (r: Result<u128>) {
    if 0 <= x < U128 then Ok(x) else Err(Overflow)
  }

  function SaturatingSub(x: int, y: int): (r: nat)
    ensures x >= 0 && y >= 0 ==> r <= x
  {
    if x >= y then x - y else 0
  }

  function FloorDiv(x: nat, y: nat): (r: nat)
    requires y > 0
  {
    x / y
  }

  function TruncateU64(x: nat): (r: u64) {
    x % U64
  }

  // An unchecked sum of two u128.
  function WrapU128(x: nat): (r: u128)
    ensures x < U128 ==> r == x
    ensures U128 <= x < 2 * U128 ==> r == x - U128
  {
    x % U128
  }

  function Min(x: int, y: int): (r: int) {
    if x <= y then x else y
  }

  function Max(x: int, y: int): (r: int) {
    if x >= y then x else y
  }
}
