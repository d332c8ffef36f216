/**
 * The lemonade-stall ledger of the Mini Business Tycoon game.
 *
 * The player starts with 1000 of capital, buys as many units as the capital
 * pays for at 30 each, picks a selling price and serves customers one day at a
 * time; demand falls in four tiers as the price rises.  After the seventh day
 * of sales the game is won and a score out of 100 is reported to the host.
 *
 * Each click handler is a pure transition on an immutable `State`; the
 * delayed timer callbacks are separate events (`DayTimer`, `MessageTimer`).
 */
module Business {
  import opened Wrappers

  const CostPerUnit: int := 30
  const DaysNeeded: int := 7
  const StartingCapital: int := 1000

  /** The prices offered by the price buttons while the game is being played. */
  const PriceButtons: seq<int> := [40, 50, 60, 80, 100, 120]

  datatype Status = Setup | Playing | Won | Lost

  /** The transient advisory line shown under the ledger. */
  datatype Message =
    | NoMessage
    | SellInventoryFirst
    | NotEnoughCapital
    | Created(units: int)
    | PriceTooLow
    | PriceSet(price: int)
    | SetPriceFirst
    | MakeInventoryFirst
    | Sold(units: int, profit: int)

  datatype State = State(
    capital: int,
    inventory: int,
    sellPrice: int,
    daysSold: int,
    totalProfit: int,
    dayProfit: int,
    status: Status,
    message: Message)

  const Initial: State := State(StartingCapital, 0, 0, 0, 0, 0, Setup, NoMessage)

  /** Two states that agree on everything except the transient message. */
  predicate SameLedger(a: State, b: State) {
    a.(message := NoMessage) == b.(message := NoMessage)
  }

  /** A selling price is either not yet set (0) or at least the unit cost. */
  predicate PriceOk(price: int) {
    price == 0 || price >= CostPerUnit
  }

  function Min(a: int, b: int): int {
    if a <= b then a else b
  }

  /**
   * "Buy materials": rejected while stock remains; with too little capital for
   * one unit the game is lost; otherwise the whole capital is turned into as
   * many whole units as it pays for.
   */
  function Buy(s: State): (r: State)
    ensures s.inventory > 0 ==> SameLedger(r, s) && r.message == SellInventoryFirst
    ensures s.inventory <= 0 && s.capital < CostPerUnit ==>
      r == s.(status := Lost, message := NotEnoughCapital)
    ensures s.inventory <= 0 && s.capital >= CostPerUnit ==>
      && r.status == Playing
      && r.inventory > 0
      && r.capital + CostPerUnit * r.inventory == s.capital
      && 0 <= r.capital < CostPerUnit
      && r.message == Created(r.inventory)
      && r.sellPrice == s.sellPrice && r.totalProfit == s.totalProfit
      && r.daysSold == s.daysSold && r.dayProfit == s.dayProfit
  {
    if s.inventory > 0 then
      s.(message := SellInventoryFirst)
    else
      // Dafny's `/` rounds down for a positive divisor, as Math.floor does.
      var maxUnits := s.capital / CostPerUnit;
      if maxUnits <= 0 then
        s.(status := Lost, message := NotEnoughCapital)
      else
        s.(capital := s.capital - maxUnits * CostPerUnit,
           inventory := maxUnits,
           status := Playing,
           message := Created(maxUnits))
  }

  /** "Set price": any price below the unit cost is refused. */
  function SetPrice(s: State, newPrice: int): (r: State)
    ensures newPrice < CostPerUnit ==> SameLedger(r, s) && r.message == PriceTooLow
    ensures newPrice >= CostPerUnit ==>
      r.sellPrice == newPrice && SameLedger(r, s.(sellPrice := newPrice))
    ensures PriceOk(s.sellPrice) ==> PriceOk(r.sellPrice)
  {
    if newPrice < CostPerUnit then
      s.(message := PriceTooLow)
    else
      s.(sellPrice := newPrice, message := PriceSet(newPrice))
  }

  /** How many customers come in one day at the given price. */
  function DemandCap(price: int): (cap: int)
    ensures cap == 15 || cap == 10 || cap == 5 || cap == 2
    ensures price < 50 <==> cap == 15
    ensures 50 <= price < 80 <==> cap == 10
    ensures 80 <= price < 130 <==> cap == 5
    ensures price >= 130 <==> cap == 2
  {
    if price < CostPerUnit + 20 then 15
    else if price < CostPerUnit + 50 then 10
    else if price < CostPerUnit + 100 then 5
    else 2
  }

  /** Raising the price never brings more customers. */
  lemma DemandCapAntitone(p: int, q: int)
    requires p <= q
    ensures DemandCap(q) <= DemandCap(p)
  {
  }

  /**
   * "Serve customers today": refused without a price or without stock;
   * otherwise sells up to the day's demand, books revenue and profit and
   * counts the day.
   */
  function SellDay(s: State): (r: State)
    ensures s.sellPrice == 0 ==> SameLedger(r, s) && r.message == SetPriceFirst
    ensures s.sellPrice != 0 && s.inventory == 0 ==>
      SameLedger(r, s) && r.message == MakeInventoryFirst
    ensures s.sellPrice != 0 && s.inventory > 0 ==>
      var sold := s.inventory - r.inventory;
      && 0 < sold <= s.inventory
      && sold <= DemandCap(s.sellPrice)
      && (sold == DemandCap(s.sellPrice) || r.inventory == 0)
      && r.capital == s.capital + sold * s.sellPrice
      && r.dayProfit == sold * (s.sellPrice - CostPerUnit)
      && r.totalProfit == s.totalProfit + r.dayProfit
      && r.daysSold == s.daysSold + 1
      && r.sellPrice == s.sellPrice && r.status == s.status
      && r.message == Sold(sold, r.dayProfit)
    ensures s.sellPrice >= CostPerUnit && s.inventory >= 0 && s.dayProfit >= 0 ==>
      r.dayProfit >= 0
  {
    if s.sellPrice == 0 then
      s.(message := SetPriceFirst)
    else if s.inventory == 0 then
      s.(message := MakeInventoryFirst)
    else
      var soldUnits := Min(DemandCap(s.sellPrice), s.inventory);
      var dayRevenue := soldUnits * s.sellPrice;
      var dayProfit := dayRevenue - soldUnits * CostPerUnit;
      assert dayProfit == soldUnits * (s.sellPrice - CostPerUnit);
      s.(inventory := s.inventory - soldUnits,
         capital := s.capital + dayRevenue,
         dayProfit := dayProfit,
         totalProfit := s.totalProfit + dayProfit,
         daysSold := s.daysSold + 1,
         message := Sold(soldUnits, dayProfit))
  }

  /**
   * The score handed to the host: total profit as a share of 500, capped at
   * 100 (exact rational arithmetic in place of floating point).
   */
  function FinalScore(totalProfit: int): (score: real)
    ensures score <= 100.0
    ensures totalProfit >= 0 ==> 0.0 <= score
    ensures score == 100.0 <==> totalProfit >= 500
    ensures totalProfit < 500 ==> score * 5.0 == totalProfit as real
  {
    var raw := (totalProfit as real / 500.0) * 100.0;
    if raw < 100.0 then raw else 100.0
  }

  /**
   * The timer that fires after a day of sales, with the day count and total
   * profit it captured when the day was sold: from the seventh day on it wins
   * the game and reports the score; before that it only clears the message.
   */
  function EndDay(s: State, days: int, totalProfit: int): (r: (State, Option<real>))
    ensures days >= DaysNeeded ==>
      && r.0 == s.(status := Won)
      && r.1 == Some(FinalScore(totalProfit))
      && r.1.value <= 100.0
      && (totalProfit >= 0 ==> 0.0 <= r.1.value)
    ensures days < DaysNeeded ==> r.1 == None && SameLedger(r.0, s) && r.0.message == NoMessage
  {
    if days >= DaysNeeded then
      (s.(status := Won), Some(FinalScore(totalProfit)))
    else
      (s.(message := NoMessage), None)
  }

  /** Everything that can happen to the ledger: clicks and timer callbacks. */
  datatype Event =
    | BuyClick
    | PriceClick(price: int)
    | SellClick
    | DayTimer(days: int, totalProfit: int)
    | MessageTimer

  function Step(s: State, e: Event): State {
    match e
    case BuyClick => Buy(s)
    case PriceClick(p) => SetPrice(s, p)
    case SellClick => SellDay(s)
    case DayTimer(days, total) => EndDay(s, days, total).0
    case MessageTimer => s.(message := NoMessage)
  }

  /** The state after a sequence of events, applied left to right. */
  function Run(s: State, es: seq<Event>): State
    decreases |es|
  {
    if es == [] then s else Run(Step(s, es[0]), es[1..])
  }

  /**
   * The ledger invariant: the resources never go negative, the price is unset
   * or covers the cost, and capital plus stock at cost, less the profit
   * made, is always the starting capital.
   */
  predicate Inv(s: State) {
    && s.capital >= 0
    && s.inventory >= 0
    && s.totalProfit >= 0
    && s.dayProfit >= 0
    && s.daysSold >= 0
    && PriceOk(s.sellPrice)
    && s.capital + CostPerUnit * s.inventory - s.totalProfit == StartingCapital
    && s.status != Lost
  }

  lemma SaleConserves(c: int, inv: int, tp: int, sold: int, price: int)
    ensures (c + sold * price) + CostPerUnit * (inv - sold) - (tp + (sold * price - sold * CostPerUnit))
         == c + CostPerUnit * inv - tp
  {
  }

  lemma StepPreservesInv(s: State, e: Event)
    requires Inv(s)
    ensures Inv(Step(s, e))
  {
    match e
    case SellClick =>
      if s.sellPrice != 0 && s.inventory != 0 {
        var sold := Min(DemandCap(s.sellPrice), s.inventory);
        SaleConserves(s.capital, s.inventory, s.totalProfit, sold, s.sellPrice);
        assert sold * s.sellPrice - sold * CostPerUnit == sold * (s.sellPrice - CostPerUnit);
      }
    case BuyClick =>
    case PriceClick(p) =>
    case DayTimer(d, t) =>
    case MessageTimer =>
  }

  lemma {:induction false} RunPreservesInv(s: State, es: seq<Event>)
    requires Inv(s)
    ensures Inv(Run(s, es))
    decreases |es|
  {
    if es != [] {
      StepPreservesInv(s, es[0]);
      RunPreservesInv(Step(s, es[0]), es[1..]);
    }
  }

  /**
   * Over every sequence of clicks and timers from the opening state, capital,
   * stock and profit stay non-negative, the conservation law holds, the price
   * is unset or at least the cost, and the game is never lost.
   */
  lemma LedgerConserved(es: seq<Event>)
    ensures var s := Run(Initial, es);
      && s.capital >= 0 && s.inventory >= 0 && s.totalProfit >= 0
      && s.capital + CostPerUnit * s.inventory - s.totalProfit == StartingCapital
      && PriceOk(s.sellPrice)
      && s.status != Lost
  {
    RunPreservesInv(Initial, es);
  }

  /**
   * The seventh day of sales, followed by its timer, wins the game and
   * reports a score in [0, 100]; an earlier day reports nothing.
   */
  lemma SeventhDayWins(s: State)
    requires Inv(s) && s.sellPrice != 0 && s.inventory > 0
    ensures var r := SellDay(s);
      var (w, score) := EndDay(r, r.daysSold, r.totalProfit);
      && (s.daysSold + 1 >= DaysNeeded ==>
            w.status == Won && score.Some? && 0.0 <= score.value <= 100.0)
      && (s.daysSold + 1 < DaysNeeded ==> w.status == s.status && score == None)
  {
    var r := SellDay(s);
    assert r.totalProfit >= 0 by {
      assert r.dayProfit == (s.inventory - r.inventory) * (s.sellPrice - CostPerUnit);
    }
  }

  /** Which events the screen offers in a given state. */
  predicate Enabled(s: State, e: Event) {
    match e
    case BuyClick => s.status == Setup
    case PriceClick(p) => s.status == Playing && p in PriceButtons
    case SellClick => s.status == Playing && s.sellPrice != 0 && s.inventory != 0
    case DayTimer(_, _) => true
    case MessageTimer => true
  }

  /** A won game stays won: the screen offers no click that leaves it. */
  lemma WonIsTerminal(s: State, e: Event)
    requires s.status == Won && Enabled(s, e)
    ensures Step(s, e).status == Won
  {
  }

  /**
   * Buying is offered only before the first purchase, so once the stock is
   * sold out while playing, no offered click sells another day.
   */
  lemma SoldOutIsDeadEnd(s: State, e: Event)
    requires s.status == Playing && s.inventory == 0 && Enabled(s, e)
    ensures Step(s, e).inventory == 0
    ensures Step(s, e).daysSold == s.daysSold
    ensures Step(s, e).status == Playing || Step(s, e).status == Won
  {
  }

  /** From the opening state, buying makes 33 units and leaves 10 of capital. */
  lemma FirstPurchase()
    ensures Buy(Initial).inventory == 33
    ensures Buy(Initial).capital == 10
    ensures Buy(Initial).status == Playing
  {
  }

  /** At price 50 the second tier applies: ten units are sold, earning 200. */
  lemma SellAtFifty()
    ensures var s := SellDay(SetPrice(Buy(Initial), 50));
      s.inventory == 23 && s.dayProfit == 200 && s.capital == 510
  {
  }

  /**
   * At price 80 five units go each day, so the 33 units last exactly seven
   * days; the seventh day's timer wins the game with the full score.
   */
  lemma WinAtEighty()
    ensures var s := Run(Initial, [BuyClick, PriceClick(80), SellClick, SellClick, SellClick,
                                   SellClick, SellClick, SellClick, SellClick]);
      && s.daysSold == 7 && s.inventory == 0 && s.totalProfit == 1650
      && EndDay(s, s.daysSold, s.totalProfit) == (s.(status := Won), Some(100.0))
  {
    var s2 := SetPrice(Buy(Initial), 80);
    assert s2.inventory == 33 && s2.sellPrice == 80;
    var s5 := SellDay(SellDay(SellDay(s2)));
    assert s5.inventory == 18 && s5.daysSold == 3 && s5.totalProfit == 750;
    var s9 := SellDay(SellDay(SellDay(SellDay(s5))));
    assert s9.inventory == 0 && s9.daysSold == 7 && s9.totalProfit == 1650;
    assert Run(s9, []) == s9;
  }

  /** At price 40 the 33 units are gone after three days, short of seven. */
  lemma SoldOutAtForty()
    ensures var s := Run(Initial, [BuyClick, PriceClick(40), SellClick, SellClick, SellClick]);
      s.inventory == 0 && s.daysSold == 3 && s.status == Playing
  {
    var s1 := Buy(Initial);
    var s2 := SetPrice(s1, 40);
    var s3 := SellDay(s2);
    var s4 := SellDay(s3);
    var s5 := SellDay(s4);
    assert s5.inventory == 0 && s5.daysSold == 3;
    assert Run(s5, []) == s5;
  }
}
