/** The betting-window policy of the page: the flags derived from the
    current block number, the target block and the account's bet record,
    which decide whether the roll and bet buttons are enabled. */
module BettingWindow {
  import opened Wrappers

  /** The contract's `bets(address)` tuple: the guessed number, the block in
      which the bet was placed, whether it was rolled, and the rolled number. */
  datatype BetRecord = BetRecord(number: nat, blockNumber: nat, rolled: bool, rolledNumber: nat)

  /** The derived flags: "wait for N blocks", "you missed the window", and
      the roll button's disabled state. */
  datatype WindowFlags = WindowFlags(showRollNotice: bool, missedWindow: bool, rollDisabled: bool)

  /** Blocks after the target whose header can still be checked. */
  const RollHorizon: nat := 256

  /** A bigint that is present and not `0n`: zero is falsy. */
  predicate Truthy(x: Option<nat>)
  {
    x.Some? && x.value != 0
  }

  /** The record says the bet was rolled. */
  function Rolled(bet: Option<BetRecord>): (rolled: bool)
    ensures rolled <==> bet.Some? && bet.value.rolled
  {
    if bet.Some? && bet.value.rolled then true else false
  }

  /** The record holds a bet: its block number is positive. */
  function Betted(bet: Option<BetRecord>): (betted: bool)
    ensures betted <==> bet.Some? && bet.value.blockNumber > 0
  {
    if bet.Some? && bet.value.blockNumber > 0 then true else false
  }

  /** The target block after an update of the bet record or of
      `futureBlocks`: the bet block plus the offset when both are known and
      the offset is not zero, otherwise the previous target. */
  function NextTargetBlock(previous: Option<nat>, bet: Option<BetRecord>, futureBlocks: Option<nat>)
    : (target: Option<nat>)
    ensures bet.Some? && Truthy(futureBlocks) ==>
      target.Some? && target.value > bet.value.blockNumber &&
      target.value - bet.value.blockNumber == futureBlocks.value
    ensures !(bet.Some? && Truthy(futureBlocks)) ==> target == previous
  {
    if bet.Some? && Truthy(futureBlocks) then Some(bet.value.blockNumber + futureBlocks.value)
    else previous
  }

  /** The flags for the current block number and the target block. Without
      both (or with either one zero) the page fails closed: no notice, no
      miss, rolling disabled. With both, a present unrolled bet can be rolled
      exactly from the target block through 256 blocks after it. */
  function Window(current: Option<nat>, target: Option<nat>, bet: Option<BetRecord>): (w: WindowFlags)
    ensures !(Truthy(current) && Truthy(target)) ==> w == WindowFlags(false, false, true)
    ensures Truthy(current) && Truthy(target) ==>
      (w.showRollNotice <==> current.value < target.value)
    ensures Truthy(current) && Truthy(target) ==>
      (w.missedWindow <==> current.value > target.value + RollHorizon && bet.Some? && !bet.value.rolled)
    ensures Truthy(current) && Truthy(target) ==>
      (w.rollDisabled <==> w.showRollNotice || w.missedWindow || Rolled(bet))
    ensures !(w.showRollNotice && w.missedWindow)
    ensures Rolled(bet) ==> w.rollDisabled
    ensures Truthy(current) && Truthy(target) && bet.Some? && !bet.value.rolled ==>
      (!w.rollDisabled <==> target.value <= current.value <= target.value + RollHorizon)
    ensures !w.rollDisabled ==> Truthy(current) && Truthy(target) && target.value <= current.value
  {
    if Truthy(current) && Truthy(target) then
      var c, t := current.value, target.value;
      var show := c < t;
      var missed := c > t + RollHorizon && bet.Some? && !bet.value.rolled;
      var disabled := show || missed || (bet.Some? && bet.value.rolled);
      WindowFlags(show, missed, disabled)
    else
      WindowFlags(false, false, true)
  }

  /** The bet input and button are disabled while the bet transaction is
      being sent or mined, and while a placed bet is still pending: not
      rolled and its window not missed. */
  function BetDisabled(isLoading: bool, isMining: bool, betted: bool, missedWindow: bool, rolled: bool)
    : (disabled: bool)
    ensures isLoading || isMining ==> disabled
    ensures betted && !missedWindow && !rolled ==> disabled
    ensures !disabled <==> !isLoading && !isMining && (!betted || missedWindow || rolled)
  {
    isLoading || isMining || (betted && !missedWindow && !rolled)
  }

  /** The bet button's check: a guess is sent only when it is a number from
      0 to 15, one of the sixteen values a roll can produce. */
  function ValidBetNumber(betNumber: Option<int>): (ok: bool)
    ensures ok <==> betNumber.Some? && 0 <= betNumber.value < 16
  {
    betNumber.Some? && betNumber.value >= 0 && betNumber.value <= 15
  }

  /** A bet that was placed, is not rolled and whose window is not marked
      missed (including while either block number is unknown) blocks a
      second bet, whatever the transaction state. */
  lemma PendingBetBlocksNewBet(current: Option<nat>, target: Option<nat>, bet: Option<BetRecord>,
                               isLoading: bool, isMining: bool)
    requires Betted(bet) && !Rolled(bet)
    requires !Window(current, target, bet).missedWindow
    ensures BetDisabled(isLoading, isMining, Betted(bet), Window(current, target, bet).missedWindow, Rolled(bet))
  {
  }

  /** Once the window is missed, a new bet may be placed as soon as no bet
      transaction is in flight. */
  lemma MissedWindowAllowsNewBet(current: Option<nat>, target: Option<nat>, bet: Option<BetRecord>)
    requires Window(current, target, bet).missedWindow
    ensures !BetDisabled(false, false, Betted(bet), Window(current, target, bet).missedWindow, Rolled(bet))
  {
  }

  /** Worked cases: block 100 against target 110 is too early; 111 is
      inside the window; 400 is past it. */
  lemma WindowExamples(bet: BetRecord)
    requires !bet.rolled
    ensures Window(Some(100), Some(110), Some(bet)) == WindowFlags(true, false, true)
    ensures Window(Some(111), Some(110), Some(bet)) == WindowFlags(false, false, false)
    ensures Window(Some(400), Some(110), Some(bet)) == WindowFlags(false, true, true)
  {
  }
}
