/** The network figures in `list` and `programmeStats` of the channel-partner service. */
module PartnerStats {
  import opened Common
  import opened Partners

  datatype OrderStatus = Draft | Cancelled | Other(name: string)

  /** An order's amount is in paise; it may have no customer account. */
  datatype Order = Order(customer: Option<UserId>, status: OrderStatus, createdAt: int, paise: int)

  /** Either bound of a reporting range may be missing. */
  datatype Range = Range(from: Option<int>, to: Option<int>)

  datatype Totals = Totals(revenue: int, orders: int)

  const ZERO := Totals(0, 0)

  function Plus(a: Totals, b: Totals): Totals {
    Totals(a.revenue + b.revenue, a.orders + b.orders)
  }

  predicate Counts(o: Order, range: Range) {
    && o.status !in {Draft, Cancelled}
    && (range.from.Some? ==> range.from.value <= o.createdAt)
    && (range.to.Some? ==> o.createdAt <= range.to.value)
  }

  predicate IsOf(o: Order, range: Range, vendors: set<UserId>) {
    Counts(o, range) && o.customer.Some? && o.customer.value in vendors
  }

  /** What an order adds to a figure: its amount, or one to the number of orders. */
  datatype Figure = Revenue | OrderCount

  function Worth(o: Order, f: Figure): int {
    match f case Revenue => o.paise case OrderCount => 1
  }

  /** A naive figure: one pass over the orders, taking each that belongs to one of the vendors. */
  function SumOf(orders: seq<Order>, range: Range, vendors: set<UserId>, f: Figure): int
    decreases orders
  {
    if orders == [] then 0
    else SumOf(orders[1..], range, vendors, f) + if IsOf(orders[0], range, vendors) then Worth(orders[0], f) else 0
  }

  function TotalsOf(orders: seq<Order>, range: Range, vendors: set<UserId>): Totals {
    Totals(SumOf(orders, range, vendors, Revenue), SumOf(orders, range, vendors, OrderCount))
  }

  /** The vendors linked to the partner now. */
  function Network(links: Links, p: PartnerId): set<UserId> {
    set k | k in links && links[k].isActive && k.0 == p :: k.1
  }

  /** One order more, anywhere in the list. */
  lemma {:induction false} SumOfInsert(
    a: seq<Order>, o: Order, b: seq<Order>, range: Range, vendors: set<UserId>, f: Figure)
    ensures SumOf(a + [o] + b, range, vendors, f)
         == SumOf(a + b, range, vendors, f) + if IsOf(o, range, vendors) then Worth(o, f) else 0
    decreases a
  {
    if a == [] {
      assert [] + [o] + b == [o] + b && [] + b == b;
    } else {
      assert (a + [o] + b)[1..] == a[1..] + [o] + b && (a + b)[1..] == a[1..] + b;
      SumOfInsert(a[1..], o, b, range, vendors, f);
    }
  }

  lemma {:induction false} SumOfDisjoint(
    orders: seq<Order>, range: Range, a: set<UserId>, b: set<UserId>, both: set<UserId>, f: Figure)
    requires a !! b && both == a + b
    ensures SumOf(orders, range, both, f) == SumOf(orders, range, a, f) + SumOf(orders, range, b, f)
    decreases orders
  {
    if orders != [] {
      SumOfDisjoint(orders[1..], range, a, b, both, f);
    }
  }

  /** The figures of a union of disjoint sets of vendors are the sums of their figures. */
  lemma TotalsOfDisjoint(orders: seq<Order>, range: Range, a: set<UserId>, b: set<UserId>, both: set<UserId>)
    requires a !! b && both == a + b
    ensures TotalsOf(orders, range, both) == Plus(TotalsOf(orders, range, a), TotalsOf(orders, range, b))
  {
    hide SumOf;
    SumOfDisjoint(orders, range, a, b, both, Revenue);
    SumOfDisjoint(orders, range, a, b, both, OrderCount);
  }

  lemma {:induction false} SumOfNone(orders: seq<Order>, range: Range, vendors: set<UserId>, f: Figure)
    requires forall o :: o in orders ==> !IsOf(o, range, vendors)
    ensures SumOf(orders, range, vendors, f) == 0
    decreases orders
  {
    if orders != [] {
      SumOfNone(orders[1..], range, vendors, f);
    }
  }

  lemma TotalsOfNone(orders: seq<Order>, range: Range, vendors: set<UserId>)
    requires forall o :: o in orders ==> !IsOf(o, range, vendors)
    ensures TotalsOf(orders, range, vendors) == ZERO
  {
    SumOfNone(orders, range, vendors, Revenue);
    SumOfNone(orders, range, vendors, OrderCount);
  }

  // ---------- the row of a partner

  datatype Row = Row(partner: PartnerId, linkedVendorCount: nat, networkRevenue: real, networkOrders: int)

  /** A partner's line by the naive sum over the orders of its own network, in rupees without rounding. */
  function RowOf(p: PartnerId, links: Links, orders: seq<Order>, range: Range): Row {
    var totals := TotalsOf(orders, range, Network(links, p));
    Row(p, |Network(links, p)|, totals.revenue as real / 100.0, totals.orders)
  }

  lemma {:induction false} InjectiveImageSize(keys: set<(PartnerId, UserId)>)
    requires forall a, b :: a in keys && b in keys && a.1 == b.1 ==> a == b
    ensures |set k | k in keys :: k.1| == |keys|
    decreases keys
  {
    if keys != {} {
      var k :| k in keys;
      var rest := keys - {k};
      InjectiveImageSize(rest);
      assert (set x | x in keys :: x.1) == (set x | x in rest :: x.1) + {k.1};
    }
  }

  function LinksOf(links: Links, p: PartnerId): set<(PartnerId, UserId)> {
    set k | k in links && k.0 == p && links[k].isActive
  }

  /** A partner has as many linked vendors as active links. */
  lemma LinksOfSize(links: Links, p: PartnerId)
    ensures |LinksOf(links, p)| == |Network(links, p)|
  {
    InjectiveImageSize(LinksOf(links, p));
    assert Network(links, p) == set k | k in LinksOf(links, p) :: k.1;
  }

  // ---------- what a figure counts

  /** Not a draft and not cancelled, within the range, and of a customer to whom the partner has an active link. */
  ghost predicate IsToCount(o: Order, p: PartnerId, links: Links, range: Range) {
    && o.status != Draft && o.status != Cancelled
    && (range.from.Some? ==> range.from.value <= o.createdAt)
    && (range.to.Some? ==> o.createdAt <= range.to.value)
    && o.customer.Some?
    && (p, o.customer.value) in links && links[(p, o.customer.value)].isActive
  }

  /** These are, in order, exactly the positions of the orders to count for the partner. */
  ghost predicate ArePositions(at: seq<nat>, p: PartnerId, links: Links, orders: seq<Order>, range: Range) {
    && (forall i, j :: 0 <= i < j < |at| ==> at[i] < at[j])
    && (forall i :: 0 <= i < |at| ==> at[i] < |orders|)
    && forall k: nat :: k < |orders| ==> (k in at <==> IsToCount(orders[k], p, links, range))
  }

  /** The sum of the amounts at some positions. */
  function AmountAt(orders: seq<Order>, at: seq<nat>): int
    requires forall i :: 0 <= i < |at| ==> at[i] < |orders|
  {
    if at == [] then 0 else AmountAt(orders, at[..|at| - 1]) + orders[at[|at| - 1]].paise
  }

  lemma IsToCountIff(o: Order, p: PartnerId, links: Links, range: Range)
    ensures IsOf(o, range, Network(links, p)) <==> IsToCount(o, p, links, range)
  {
    if IsToCount(o, p, links, range) {
      assert (p, o.customer.value).1 in Network(links, p);
    }
  }

  lemma {:induction false} AmountAtPrefix(front: seq<Order>, orders: seq<Order>, at: seq<nat>)
    requires front <= orders && forall i :: 0 <= i < |at| ==> at[i] < |front|
    ensures AmountAt(front, at) == AmountAt(orders, at)
    decreases at
  {
    if at != [] {
      AmountAtPrefix(front, orders, at[..|at| - 1]);
    }
  }

  /** The positions that count are extended by the last order, if it counts. */
  lemma PositionsSnoc(at: seq<nat>, p: PartnerId, links: Links, front: seq<Order>, last: Order, range: Range)
    requires ArePositions(at, p, links, front, range)
    ensures !IsToCount(last, p, links, range) ==> ArePositions(at, p, links, front + [last], range)
    ensures IsToCount(last, p, links, range) ==> ArePositions(at + [|front|], p, links, front + [last], range)
  {
    hide IsToCount;
    var orders := front + [last];
    assert forall k :: 0 <= k < |front| ==> orders[k] == front[k];
    assert forall k: nat :: k in at + [|front|] <==> k in at || k == |front|;
  }

  lemma AmountAtSnoc(front: seq<Order>, last: Order, at: seq<nat>)
    requires forall i :: 0 <= i < |at| ==> at[i] < |front|
    ensures AmountAt(front + [last], at) == AmountAt(front, at)
    ensures AmountAt(front + [last], at + [|front|]) == AmountAt(front, at) + last.paise
  {
    AmountAtPrefix(front, front + [last], at);
    assert (at + [|front|])[..|at|] == at;
  }

  lemma TotalsSnoc(front: seq<Order>, last: Order, range: Range, vendors: set<UserId>)
    ensures TotalsOf(front + [last], range, vendors)
         == Plus(TotalsOf(front, range, vendors), if IsOf(last, range, vendors) then Totals(last.paise, 1) else ZERO)
  {
    assert front + [last] + [] == front + [last] && front + [] == front;
    SumOfInsert(front, last, [], range, vendors, Revenue);
    SumOfInsert(front, last, [], range, vendors, OrderCount);
  }

  ghost predicate CountAt(at: seq<nat>, p: PartnerId, links: Links, orders: seq<Order>, range: Range) {
    && ArePositions(at, p, links, orders, range)
    && TotalsOf(orders, range, Network(links, p)) == Totals(AmountAt(orders, at), |at|)
  }

  lemma CountAtSnoc(
    at: seq<nat>, p: PartnerId, links: Links, front: seq<Order>, last: Order, range: Range) returns (at': seq<nat>)
    requires CountAt(at, p, links, front, range)
    ensures CountAt(at', p, links, front + [last], range)
  {
    IsToCountIff(last, p, links, range);
    PositionsSnoc(at, p, links, front, last, range);
    AmountAtSnoc(front, last, at);
    TotalsSnoc(front, last, range, Network(links, p));
    hide TotalsOf, AmountAt, IsToCount, IsOf, Network, ArePositions;
    at' := if IsOf(last, range, Network(links, p)) then at + [|front|] else at;
  }

  /** The naive sums are the count of, and the sum over, exactly the positions that are to be counted. */
  lemma {:induction false} TotalsCountPositions(p: PartnerId, links: Links, orders: seq<Order>, range: Range)
    returns (at: seq<nat>)
    ensures ArePositions(at, p, links, orders, range)
    ensures TotalsOf(orders, range, Network(links, p)) == Totals(AmountAt(orders, at), |at|)
    decreases orders
  {
    if orders == [] {
      at := [];
    } else {
      var front, last := orders[..|orders| - 1], orders[|orders| - 1];
      assert orders == front + [last];
      var before := TotalsCountPositions(p, links, front, range);
      at := CountAtSnoc(before, p, links, front, last, range);
    }
  }

  /** The row reports the partner's active links and exactly its orders: their number, and their amounts added up. */
  ghost predicate IsReport(row: Row, p: PartnerId, links: Links, orders: seq<Order>, range: Range) {
    && row.partner == p
    && row.linkedVendorCount == |set k | k in links && k.0 == p && links[k].isActive|
    && exists at ::
         && ArePositions(at, p, links, orders, range)
         && row.networkOrders == |at|
         && row.networkRevenue == AmountAt(orders, at) as real / 100.0
  }

  lemma RowIsReport(p: PartnerId, links: Links, orders: seq<Order>, range: Range)
    ensures IsReport(RowOf(p, links, orders, range), p, links, orders, range)
  {
    LinksOfSize(links, p);
    var at := TotalsCountPositions(p, links, orders, range);
  }

  /**
   A draft, a cancelled order, an order outside the range and one without a customer, wherever it is
   among the orders, changes nobody's row.
   */
  lemma OtherOrdersDoNotCount(
    p: PartnerId, links: Links, a: seq<Order>, o: Order, b: seq<Order>, range: Range)
    requires || o.status == Draft || o.status == Cancelled || o.customer.None?
             || (range.from.Some? && o.createdAt < range.from.value)
             || (range.to.Some? && range.to.value < o.createdAt)
    ensures RowOf(p, links, a + [o] + b, range) == RowOf(p, links, a + b, range)
  {
    SumOfInsert(a, o, b, range, Network(links, p), Revenue);
    SumOfInsert(a, o, b, range, Network(links, p), OrderCount);
  }

  /** An order that is to be counted adds its amount and one order to the row of its partner, and to no other. */
  lemma OrderCountsForItsPartner(
    p: PartnerId, v: UserId, links: Links, a: seq<Order>, o: Order, b: seq<Order>, range: Range)
    requires Exclusive(links) && IsLinked(links, p, v)
    requires o.customer == Some(v) && o.status != Draft && o.status != Cancelled
    requires range.from.Some? ==> range.from.value <= o.createdAt
    requires range.to.Some? ==> o.createdAt <= range.to.value
    ensures var before, after := RowOf(p, links, a + b, range), RowOf(p, links, a + [o] + b, range);
            && after.networkRevenue == before.networkRevenue + o.paise as real / 100.0
            && after.networkOrders == before.networkOrders + 1
            && after.linkedVendorCount == before.linkedVendorCount
    ensures forall q :: q != p ==> RowOf(q, links, a + [o] + b, range) == RowOf(q, links, a + b, range)
  {
    hide Exclusive, IsLinked, Network, SumOf;
    InNetworkOfOne(links, p, p, v);
    RupeesAdd(SumOf(a + b, range, Network(links, p), Revenue), o.paise);
    SumOfInsert(a, o, b, range, Network(links, p), Revenue);
    SumOfInsert(a, o, b, range, Network(links, p), OrderCount);
    forall q | q != p ensures RowOf(q, links, a + [o] + b, range) == RowOf(q, links, a + b, range) {
      InNetworkOfOne(links, p, q, v);
      SumOfInsert(a, o, b, range, Network(links, q), Revenue);
      SumOfInsert(a, o, b, range, Network(links, q), OrderCount);
    }
  }

  lemma InNetworkOfOne(links: Links, p: PartnerId, q: PartnerId, v: UserId)
    requires Exclusive(links) && IsLinked(links, p, v)
    ensures v in Network(links, q) <==> q == p
  {
    assert (p, v).1 in Network(links, p);
    assert v in Network(links, q) ==> IsLinked(links, q, v);
  }

  lemma RupeesAdd(a: int, b: int)
    ensures (a + b) as real / 100.0 == a as real / 100.0 + b as real / 100.0
  {
  }

  // ---------- the grouped aggregate of `list`

  /** Rounding a sum of whole paise to two decimals changes nothing. */
  lemma RoundingIsExact(paise: int)
    ensures Round2(paise as real / 100.0) == paise as real / 100.0
  {
    assert paise as real / 100.0 * 100.0 == paise as real;
    assert (paise as real + 0.5).Floor == paise;
  }

  /** The vendors of one partner, in the order of the links. */
  function VendorsIn(links: seq<(PartnerId, UserId)>, p: PartnerId): seq<UserId> {
    if links == [] then []
    else
      var last := links[|links| - 1];
      VendorsIn(links[..|links| - 1], p) + if last.0 == p then [last.1] else []
  }

  lemma {:induction false} VendorsInAre(links: seq<(PartnerId, UserId)>, p: PartnerId)
    requires NoDuplicates(links)
    ensures NoDuplicates(VendorsIn(links, p))
    ensures forall v :: v in VendorsIn(links, p) <==> (p, v) in links
  {
    if links != [] {
      var rest, last := links[..|links| - 1], links[|links| - 1];
      assert links == rest + [last];
      VendorsInAre(rest, p);
    }
  }

  /** The rows of a query come in some order, each once. */
  method ActiveLinksOf(page: seq<PartnerId>, links: Links) returns (found: seq<(PartnerId, UserId)>)
    ensures NoDuplicates(found)
    ensures forall k :: k in found <==> k in links && links[k].isActive && k.0 in page
  {
    found := [];
    var left := set k | k in links && links[k].isActive && k.0 in page;
    while left != {}
      invariant NoDuplicates(found)
      invariant forall k :: k in found || k in left <==> k in links && links[k].isActive && k.0 in page
      invariant forall k :: !(k in found && k in left)
      decreases left
    {
      var k :| k in left;
      found := found + [k];
      left := left - {k};
    }
  }

  function Get<T>(m: map<string, T>, key: string, default: T): T {
    if key in m then m[key] else default
  }

  /** `groupBy` customer: a group exists only for a customer with an order that counts. */
  function GroupByCustomer(orders: seq<Order>, range: Range, vendors: set<UserId>): map<UserId, Totals> {
    map v | v in vendors && (exists i :: 0 <= i < |orders| && IsOf(orders[i], range, {v})) ::
      TotalsOf(orders, range, {v})
  }

  lemma GroupHoldsTotals(orders: seq<Order>, range: Range, vendors: set<UserId>, v: UserId)
    requires v in vendors
    ensures Get(GroupByCustomer(orders, range, vendors), v, ZERO) == TotalsOf(orders, range, {v})
  {
    if v !in GroupByCustomer(orders, range, vendors) {
      TotalsOfNone(orders, range, {v});
    }
  }

  lemma OneMoreVendor(vendors: seq<UserId>, i: nat, orders: seq<Order>, range: Range)
    requires NoDuplicates(vendors) && i < |vendors|
    ensures TotalsOf(orders, range, Elements(vendors[..i + 1]))
         == Plus(TotalsOf(orders, range, Elements(vendors[..i])), TotalsOf(orders, range, {vendors[i]}))
  {
    assert vendors[..i + 1] == vendors[..i] + [vendors[i]];
    assert Elements(vendors[..i + 1]) == Elements(vendors[..i]) + {vendors[i]};
    TotalsOfDisjoint(orders, range, Elements(vendors[..i]), {vendors[i]}, Elements(vendors[..i + 1]));
  }

  /** Adding up the groups of distinct vendors is one pass over the orders of all of them. */
  method ReduceVendors(vendors: seq<UserId>, revenue: map<UserId, Totals>,
                       ghost orders: seq<Order>, ghost range: Range) returns (totals: Totals)
    requires NoDuplicates(vendors)
    requires forall v :: v in vendors ==> Get(revenue, v, ZERO) == TotalsOf(orders, range, {v})
    ensures totals == TotalsOf(orders, range, Elements(vendors))
  {
    totals := ZERO;
    TotalsOfNone(orders, range, Elements(vendors[..0]));
    for i := 0 to |vendors|
      invariant totals == TotalsOf(orders, range, Elements(vendors[..i]))
    {
      totals := Plus(totals, Get(revenue, vendors[i], ZERO));
      OneMoreVendor(vendors, i, orders, range);
    }
    assert vendors[..|vendors|] == vendors;
  }

  /** The linked vendors collected under their partners, in one pass over the links. */
  method VendorsByPartner(allLinks: seq<(PartnerId, UserId)>) returns (vendorsByPartner: map<PartnerId, seq<UserId>>)
    ensures forall p :: Get(vendorsByPartner, p, []) == VendorsIn(allLinks, p)
  {
    vendorsByPartner := map[];
    for i := 0 to |allLinks|
      invariant forall p :: Get(vendorsByPartner, p, []) == VendorsIn(allLinks[..i], p)
    {
      var link := allLinks[i];
      assert allLinks[..i + 1][..i] == allLinks[..i];
      vendorsByPartner := vendorsByPartner[link.0 := Get(vendorsByPartner, link.0, []) + [link.1]];
    }
    assert allLinks[..|allLinks|] == allLinks;
  }

  /**
   One aggregate over the orders of every vendor on the page. Each partner's row is exactly the report
   of its own links and orders, which rounding leaves as it is.
   */
  method List(page: seq<PartnerId>, links: Links, orders: seq<Order>, range: Range) returns (rows: seq<Row>)
    ensures |rows| == |page|
    ensures forall i :: 0 <= i < |page| ==>
              rows[i] == RowOf(page[i], links, orders, range) && IsReport(rows[i], page[i], links, orders, range)
  {
    var allLinks := ActiveLinksOf(page, links);
    var vendorsByPartner := VendorsByPartner(allLinks);
    var revenue := if allLinks == [] then map[] else GroupByCustomer(orders, range, set k | k in allLinks :: k.1);
    rows := [];
    hide TotalsOf, GroupByCustomer, Network, VendorsIn, Elements, NoDuplicates, IsReport;
    for i := 0 to |page|
      invariant |rows| == i
      invariant forall j :: 0 <= j < i ==>
                  rows[j] == RowOf(page[j], links, orders, range) && IsReport(rows[j], page[j], links, orders, range)
    {
      var vendors := Get(vendorsByPartner, page[i], []);
      VendorsOfPartner(page, links, allLinks, page[i], orders, range, revenue);
      var totals := ReduceVendors(vendors, revenue, orders, range);
      RoundingIsExact(totals.revenue);
      LinksOfSize(links, page[i]);
      RowIsReport(page[i], links, orders, range);
      var assignments := |LinksOf(links, page[i])|;
      rows := rows + [Row(page[i], assignments, Round2(totals.revenue as real / 100.0), totals.orders)];
    }
  }

  /** The links of a partner on the page give its network, and the groups give each vendor's figure. */
  lemma VendorsOfPartner(
    page: seq<PartnerId>, links: Links, allLinks: seq<(PartnerId, UserId)>, p: PartnerId, orders: seq<Order>,
    range: Range,
    revenue: map<UserId, Totals>)
    requires p in page && NoDuplicates(allLinks)
    requires allLinks != [] ==> revenue == GroupByCustomer(orders, range, set k | k in allLinks :: k.1)
    requires forall k :: k in allLinks <==> k in links && links[k].isActive && k.0 in page
    ensures NoDuplicates(VendorsIn(allLinks, p)) && Elements(VendorsIn(allLinks, p)) == Network(links, p)
    ensures forall v :: v in VendorsIn(allLinks, p) ==>
              Get(revenue, v, ZERO) == TotalsOf(orders, range, {v})
  {
    var linked := set k | k in allLinks :: k.1;
    VendorsInAre(allLinks, p);
    NetworkIs(links, p, VendorsIn(allLinks, p));
    hide VendorsIn, GroupByCustomer, TotalsOf, Network;
    forall v | v in VendorsIn(allLinks, p) ensures Get(revenue, v, ZERO) == TotalsOf(orders, range, {v}) {
      assert (p, v) in allLinks && (p, v).1 in linked;
      GroupHoldsTotals(orders, range, linked, v);
    }
  }

  lemma NetworkIs(links: Links, p: PartnerId, vendors: seq<UserId>)
    requires forall v :: v in vendors <==> IsLinked(links, p, v)
    ensures Elements(vendors) == Network(links, p)
  {
    forall v ensures v in Network(links, p) <==> IsLinked(links, p, v) {
      if IsLinked(links, p, v) {
        assert (p, v).1 in Network(links, p);
      }
    }
  }

  // ---------- nothing is counted twice

  function SumOfNetworks(partners: seq<PartnerId>, links: Links, orders: seq<Order>, range: Range): Totals {
    if partners == [] then ZERO
    else Plus(TotalsOf(orders, range, Network(links, partners[0])), SumOfNetworks(partners[1..], links, orders, range))
  }

  function Networks(partners: seq<PartnerId>, links: Links): set<UserId> {
    if partners == [] then {} else Network(links, partners[0]) + Networks(partners[1..], links)
  }

  lemma {:induction false} InNetworksIff(partners: seq<PartnerId>, links: Links, v: UserId)
    ensures v in Networks(partners, links) <==> exists p :: p in partners && IsLinked(links, p, v)
  {
    if partners != [] {
      InNetworksIff(partners[1..], links, v);
      assert partners == [partners[0]] + partners[1..];
      if IsLinked(links, partners[0], v) {
        assert (partners[0], v).1 in Network(links, partners[0]);
      }
    }
  }

  /**
   While no vendor is linked twice, the figures of any set of partners add up to the figure of the
   vendors linked to them: every order is counted once, in one network.
   */
  lemma {:induction false} NetworksAddUp(partners: seq<PartnerId>, links: Links, orders: seq<Order>, range: Range)
    requires Exclusive(links) && NoDuplicates(partners)
    ensures SumOfNetworks(partners, links, orders, range) == TotalsOf(orders, range, Networks(partners, links))
  {
    if partners == [] {
      TotalsOfNone(orders, range, {});
    } else {
      var first, rest := partners[0], partners[1..];
      NetworksAddUp(rest, links, orders, range);
      forall v | v in Network(links, first) ensures v !in Networks(rest, links) {
        InNetworksIff(rest, links, v);
        assert IsLinked(links, first, v);
      }
      TotalsOfDisjoint(orders, range, Network(links, first), Networks(rest, links), Networks(partners, links));
    }
  }

  /** In every reachable state the reports over any partners add up without double counting. */
  lemma ReachableReportsAddUp(
    users: map<UserId, Role>, ops: seq<Op>, partners: seq<PartnerId>, orders: seq<Order>, range: Range)
    requires NoDuplicates(partners)
    ensures var links := Run(Start(users), ops).links;
            SumOfNetworks(partners, links, orders, range) == TotalsOf(orders, range, Networks(partners, links))
  {
    ReachableStatesAreSound(users, ops);
    NetworksAddUp(partners, Run(Start(users), ops).links, orders, range);
  }

  // ---------- coverage

  function ActiveLinks(links: Links): set<(PartnerId, UserId)> {
    set k | k in links && links[k].isActive
  }

  /** `programmeStats` counts active links as linked vendors: the two numbers agree. */
  lemma LinkCountIsVendorCount(links: Links)
    requires Exclusive(links)
    ensures |ActiveLinks(links)| == |set k | k in ActiveLinks(links) :: k.1|
  {
    forall a, b | a in ActiveLinks(links) && b in ActiveLinks(links) && a.1 == b.1 ensures a == b {
      assert IsLinked(links, a.0, a.1) && IsLinked(links, b.0, b.1);
    }
    InjectiveImageSize(ActiveLinks(links));
  }
}
