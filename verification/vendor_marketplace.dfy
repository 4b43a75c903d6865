/**
 The marketplace screen's decisions: which vendors a category tab shows,
 whether an order is paid from the wallet, when the Order button is disabled,
 and which colour band a vendor's wait time falls in. Money is in integer
 cents; wait times are minutes.
 */
module VendorMarketplace {
  import opened Seqs

  datatype MenuItem = MenuItem(id: int, name: string, price: int)

  datatype Vendor = Vendor(id: int, name: string, category: string, waitTime: real, menu: seq<MenuItem>)

  /** The category tab that shows every vendor. */
  const AllCategory: string := "all"

  /** True when the vendor belongs to the selected category. */
  predicate InCategory(selected: string, v: Vendor)
  {
    v.category == selected
  }

  /**
   The vendors shown under a tab: all of them under "all", otherwise exactly
   those of that category, in their original order.
   */
  function FilteredVendors(vendors: seq<Vendor>, selected: string): (r: seq<Vendor>)
    ensures selected == AllCategory ==> r == vendors
    ensures selected != AllCategory ==> forall v :: v in r <==> v in vendors && v.category == selected
    ensures IsSubsequence(r, vendors)
    ensures selected != AllCategory ==>
      forall v :: multiset(r)[v] == if v.category == selected then multiset(vendors)[v] else 0
  {
    if selected == AllCategory then
      assert IsSubsequence(vendors, vendors) by { SubsequenceReflexive(vendors); }
      vendors
    else
      var p := (v: Vendor) => InCategory(selected, v);
      FilterIsSubsequence(vendors, p);
      FilterMultiset(vendors, p);
      Filter(vendors, p)
  }

  /** Outcome of pressing Order: the new wallet balance, or a rejection. */
  datatype OrderOutcome = Placed(newBalance: int) | InsufficientFunds

  /**
   Pays for an item from the wallet if the balance covers its price; the new
   balance is then what remains and can never be negative. Otherwise nothing
   is debited.
   */
  function HandleOrder(balance: int, price: int): (r: OrderOutcome)
    ensures r.Placed? <==> balance >= price
    ensures r.Placed? ==> r.newBalance + price == balance && r.newBalance >= 0
  {
    if balance >= price then Placed(balance - price) else InsufficientFunds
  }

  /**
   The balance handed to `onWalletUpdate`, or the unchanged balance when the
   order is rejected.
   */
  function BalanceAfter(balance: int, price: int): (b: int)
    ensures b == balance || b == balance - price
    ensures b >= 0 || b == balance
    ensures balance >= price ==> b == balance - price
    ensures balance < price ==> b == balance
  {
    match HandleOrder(balance, price)
    case Placed(nb) => nb
    case InsufficientFunds => balance
  }

  /** The Order button is disabled while the balance is short of the price. */
  function OrderDisabled(balance: int, price: int): (disabled: bool)
    ensures disabled <==> HandleOrder(balance, price) == InsufficientFunds
  {
    balance < price
  }

  /** The button is enabled exactly for the orders the handler debits. */
  lemma DisabledIffRejected(balance: int, price: int)
    ensures !OrderDisabled(balance, price) <==> HandleOrder(balance, price) == Placed(balance - price)
  {
  }

  /** Sum of a list of prices. */
  function Sum(xs: seq<int>): int
  {
    if |xs| == 0 then 0 else xs[0] + Sum(xs[1..])
  }

  /**
   A run of Order clicks, each seeing the balance the previous one handed to
   `onWalletUpdate` (the owner of the balance is assumed to pass it back).
   Returns the final balance and the prices actually paid, in click order.
   */
  function OrderRun(balance: int, prices: seq<int>): (r: (int, seq<int>))
    ensures r.0 == balance - Sum(r.1)
    ensures IsSubsequence(r.1, prices)
    ensures balance >= 0 ==> r.0 >= 0
    ensures |prices| == 0 ==> r == (balance, [])
    ensures |prices| > 0 && balance >= prices[0] ==> |r.1| > 0 && r.1[0] == prices[0]
    ensures |prices| > 0 && balance >= prices[0] ==> IsSubsequence(r.1[1..], prices[1..])
    ensures |prices| > 0 && balance < prices[0] ==> IsSubsequence(r.1, prices[1..])
    decreases |prices|
  {
    if |prices| == 0 then (balance, [])
    else
      var rest := OrderRun(BalanceAfter(balance, prices[0]), prices[1..]);
      if balance >= prices[0] then (rest.0, [prices[0]] + rest.1)
      else
        assert IsSubsequence(rest.1, prices);
        rest
  }

  /** The prices one click pays: the item's price, or nothing when it is rejected. */
  function Paid(balance: int, price: int): seq<int>
  {
    if balance >= price then [price] else []
  }

  /** One step of a run: the first click, then the rest from the balance it leaves. */
  lemma OrderRunStep(balance: int, prices: seq<int>)
    requires |prices| > 0
    ensures OrderRun(balance, prices).0 == OrderRun(BalanceAfter(balance, prices[0]), prices[1..]).0
    ensures OrderRun(balance, prices).1 == Paid(balance, prices[0]) + OrderRun(BalanceAfter(balance, prices[0]), prices[1..]).1
  {
  }

  /**
   Clicks are handled left to right: one more click at the end of a run sees
   the balance the earlier clicks left, and pays its price or nothing.
   */
  lemma {:induction false} OrderRunSnoc(balance: int, prices: seq<int>, price: int)
    ensures OrderRun(balance, prices + [price]) ==
      (BalanceAfter(OrderRun(balance, prices).0, price),
       OrderRun(balance, prices).1 + Paid(OrderRun(balance, prices).0, price))
    decreases |prices|
  {
    if |prices| == 0 {
      assert prices + [price] == [price];
      OrderRunStep(balance, [price]);
      assert [price][1..] == [];
      assert OrderRun(BalanceAfter(balance, price), []) == (BalanceAfter(balance, price), []);
      assert OrderRun(balance, prices) == (balance, []);
      assert Paid(balance, price) + [] == [] + Paid(balance, price);
    } else {
      var b := BalanceAfter(balance, prices[0]);
      OrderRunSnoc(b, prices[1..], price);
      assert (prices + [price])[0] == prices[0];
      assert (prices + [price])[1..] == prices[1..] + [price];
      OrderRunStep(balance, prices + [price]);
      OrderRunStep(balance, prices);
      var head, rest := Paid(balance, prices[0]), OrderRun(b, prices[1..]);
      assert head + (rest.1 + Paid(rest.0, price)) == (head + rest.1) + Paid(rest.0, price);
    }
  }

  /**
   The same run of clicks replayed one at a time against a single wallet
   balance, as the screen sees them: it pays exactly what `OrderRun` pays.
   */
  method PlaceOrders(balance: int, prices: seq<int>) returns (left: int, paid: seq<int>)
    ensures (left, paid) == OrderRun(balance, prices)
    ensures left == balance - Sum(paid)
  {
    left, paid := balance, [];
    var i := 0;
    while i < |prices|
      invariant 0 <= i <= |prices|
      invariant (left, paid) == OrderRun(balance, prices[..i])
    {
      OrderRunSnoc(balance, prices[..i], prices[i]);
      assert prices[..i + 1] == prices[..i] + [prices[i]];
      paid := paid + Paid(left, prices[i]);
      left := BalanceAfter(left, prices[i]);
      i := i + 1;
    }
    assert prices[..i] == prices;
  }

  /** Colour band of a wait-time badge. */
  datatype WaitBand = Green | Yellow | Red

  /** Position of a band from best (green) to worst (red). */
  function BandRank(b: WaitBand): nat
  {
    match b
    case Green => 0
    case Yellow => 1
    case Red => 2
  }

  /** Up to 5 minutes is green, up to 10 yellow, anything longer red. */
  function WaitTimeBand(waitTime: real): (b: WaitBand)
    ensures b == Green <==> waitTime <= 5.0
    ensures b == Yellow <==> 5.0 < waitTime <= 10.0
    ensures b == Red <==> 10.0 < waitTime
  {
    if waitTime <= 5.0 then Green
    else if waitTime <= 10.0 then Yellow
    else Red
  }

  /** A longer wait never gets a better band. */
  lemma WaitBandMonotone(w1: real, w2: real)
    requires w1 <= w2
    ensures BandRank(WaitTimeBand(w1)) <= BandRank(WaitTimeBand(w2))
  {
  }
}
