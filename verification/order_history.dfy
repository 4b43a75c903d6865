/**
 The order-history screen: orders are split into an "Active Orders" list
 and a "Past Orders" list by status, and each status is shown with a label
 and a badge class. Totals are in integer cents.
 */
module OrderHistory {
  import opened Seqs

  datatype Order = Order(id: int, vendor: string, items: seq<string>, total: int, status: string)

  const Ready: string := "ready"
  const Preparing: string := "preparing"
  const Completed: string := "completed"

  /** The statuses the screen knows a label and a colour for. */
  const KnownStatuses: set<string> := {Ready, Preparing, Completed}

  const ReadyLabel: string := "\U{1F514} Ready for Pickup"
  const PreparingLabel: string := "\U{23F3} Being Prepared"
  const CompletedLabel: string := "\U{2705} Completed"

  const ReadyClass: string := "bg-white text-black border-gray-300"
  const PreparingClass: string := "bg-gray-400 text-black border-gray-500"
  const CompletedClass: string := "bg-gray-600 text-white border-gray-500"
  const DefaultClass: string := "bg-gray-500 text-white border-gray-500"

  /** The three orders the screen lists. */
  const DemoOrders: seq<Order> := [
    Order(1, "Burger Bliss", ["Classic Burger", "Cheese Fries"], 2198, Ready),
    Order(2, "Craft Cocktails", ["Festival Mojito"], 1599, Preparing),
    Order(3, "Beat Merch", ["Festival T-Shirt"], 2999, Completed)
  ]

  /** An order still under way: any status but "completed". */
  predicate IsActive(o: Order)
  {
    o.status != Completed
  }

  /** A finished order: status "completed". */
  predicate IsPast(o: Order)
  {
    o.status == Completed
  }

  /** The "Active Orders" list: every order not completed, in original order. */
  function ActiveOrders(orders: seq<Order>): (r: seq<Order>)
    ensures forall o :: o in r <==> o in orders && o.status != Completed
    ensures IsSubsequence(r, orders)
    ensures forall o :: multiset(r)[o] == if o.status != Completed then multiset(orders)[o] else 0
  {
    FilterIsSubsequence(orders, IsActive);
    FilterMultiset(orders, IsActive);
    Filter(orders, IsActive)
  }

  /** The "Past Orders" list: every completed order, in original order. */
  function PastOrders(orders: seq<Order>): (r: seq<Order>)
    ensures forall o :: o in r <==> o in orders && o.status == Completed
    ensures IsSubsequence(r, orders)
    ensures forall o :: multiset(r)[o] == if o.status == Completed then multiset(orders)[o] else 0
  {
    FilterIsSubsequence(orders, IsPast);
    FilterMultiset(orders, IsPast);
    Filter(orders, IsPast)
  }

  /** The two lists split the orders: no order is in both, none is lost. */
  lemma ActiveAndPastPartition(orders: seq<Order>)
    ensures multiset(ActiveOrders(orders)) + multiset(PastOrders(orders)) == multiset(orders)
    ensures |ActiveOrders(orders)| + |PastOrders(orders)| == |orders|
    ensures forall o :: !(o in ActiveOrders(orders) && o in PastOrders(orders))
  {
    FilterPartition(orders, IsActive, IsPast);
  }

  /** On the listed orders: orders 1 and 2 are active, order 3 is past. */
  lemma DemoOrdersSplit()
    ensures ActiveOrders(DemoOrders) == DemoOrders[..2]
    ensures PastOrders(DemoOrders) == DemoOrders[2..]
  {
    var d := DemoOrders;
    assert Ready[0] != Completed[0] && Preparing[0] != Completed[0];
    assert d[1..][1..] == d[2..] && d[2..][1..] == [];
    assert Filter(d[2..], IsActive) == [];
    assert Filter(d[1..], IsActive) == [d[1]];
    assert Filter(d[1..], IsPast) == d[2..];
  }

  /**
   The badge text: a fixed label for each known status, the raw status for any
   other. A label is never itself a known status.
   */
  function StatusText(status: string): (text: string)
    ensures status !in KnownStatuses ==> text == status
    ensures status in KnownStatuses ==> text !in KnownStatuses && text != status
  {
    if status == Ready then ReadyLabel
    else if status == Preparing then PreparingLabel
    else if status == Completed then CompletedLabel
    else status
  }

  /**
   Two statuses share a label only when one is known and the other is an
   unknown status spelled exactly like that known status's label; in
   particular the known statuses get pairwise distinct labels.
   */
  lemma StatusTextCollisions(s1: string, s2: string)
    requires s1 != s2 && StatusText(s1) == StatusText(s2)
    ensures (s1 in KnownStatuses && s2 == StatusText(s1)) || (s2 in KnownStatuses && s1 == StatusText(s2))
  {
  }

  /** The known statuses have pairwise distinct labels. */
  lemma KnownStatusLabelsDistinct(s1: string, s2: string)
    requires s1 in KnownStatuses && s2 in KnownStatuses && s1 != s2
    ensures StatusText(s1) != StatusText(s2)
  {
  }

  /**
   The badge class: each known status has its own class, and every other
   status shares the default class, which no known status uses.
   */
  function StatusColor(status: string): (cls: string)
    ensures status !in KnownStatuses <==> cls == DefaultClass
  {
    if status == Ready then ReadyClass
    else if status == Preparing then PreparingClass
    else if status == Completed then CompletedClass
    else DefaultClass
  }

  /** The known statuses have pairwise distinct classes. */
  lemma KnownStatusColorsDistinct(s1: string, s2: string)
    requires s1 in KnownStatuses && s2 in KnownStatuses && s1 != s2
    ensures StatusColor(s1) != StatusColor(s2)
  {
  }
}
