/**
 * The seller dashboard's simulated data (`dashboardData`): the summary
 * counters, the recent orders, the active listings and the sales series.
 * Amounts are held in cents so that they stay exact.
 */
module Records {
  import opened Wrappers

  datatype Stats = Stats(activeListings: nat, soldThisMonth: nat, monthlyRevenue: nat, totalViews: nat)

  /** One entry of `recentOrders`; `status` is the raw string ('paid', 'shipped', 'pending'). */
  datatype Order = Order(id: string, item: string, buyer: string, date: string, totalCents: nat, status: string)

  /** One entry of `activeListings`. */
  datatype Listing = Listing(id: string, item: string, priceCents: nat, condition: string,
                             views: nat, watchers: nat, listedDate: string)

  const SeedStats := Stats(12, 24, 1847, 2345)

  const RecentOrders: seq<Order> := [
    Order("ORD-12345", "Super Mario World (SNES)", "MarioFan", "2025-02-15", 7999, "paid"),
    Order("ORD-12346", "The Legend of Zelda (NES)", "ZeldaFan", "2025-02-14", 12999, "shipped"),
    Order("ORD-12347", "Sonic the Hedgehog 2 (Genesis)", "SonicFan", "2025-02-12", 4999, "pending")
  ]

  const ActiveListings: seq<Listing> := [
    Listing("LST-001", "Mega Man 2 (NES)", 7999, "mint", 234, 12, "2025-02-10"),
    Listing("LST-002", "Donkey Kong Country (SNES)", 4499, "good", 156, 8, "2025-02-08"),
    Listing("LST-003", "Castlevania (NES)", 4499, "fair", 89, 3, "2025-02-05")
  ]

  /** `salesData`: one bucket value per slot of the chosen period. */
  const WeekSales: seq<nat> := [40, 65, 45, 80, 55, 70, 90]
  const MonthSales: seq<nat> := [450, 520, 480, 600, 750, 820, 690, 540, 580, 620, 710, 680]
  const YearSales: seq<nat> := [1250, 1480, 1620, 1890, 2100, 2350, 2780, 2650, 2420, 2250, 1980, 2150]

  /** `dashboardData.salesData[period]`: only the three own keys hold a series. */
  function SalesSeries(period: string): (r: Option<seq<nat>>)
    ensures r.Some? <==> period in {"week", "month", "year"}
    ensures r.Some? ==> r.value != [] && forall i :: 0 <= i < |r.value| ==> r.value[i] > 0
  {
    if period == "week" then Some(WeekSales)
    else if period == "month" then Some(MonthSales)
    else if period == "year" then Some(YearSales)
    else None
  }

  /** Order identifiers are pairwise distinct. */
  ghost predicate UniqueOrderIds(os: seq<Order>) {
    forall i, j :: 0 <= i < j < |os| ==> os[i].id != os[j].id
  }

  ghost predicate UniqueListingIds(ls: seq<Listing>) {
    forall i, j :: 0 <= i < j < |ls| ==> ls[i].id != ls[j].id
  }

  /** The seed keeps identifiers unique and has the series lengths 7, 12 and 12. */
  lemma SeedIsWellFormed()
    ensures UniqueOrderIds(RecentOrders) && UniqueListingIds(ActiveListings)
    ensures |WeekSales| == 7 && |MonthSales| == 12 && |YearSales| == 12
  {
  }

  /** `orders.find(o => o.id === id)`: the first order carrying `id`, if any. */
  function FindOrder(os: seq<Order>, id: string): (r: Option<Order>)
    ensures r.Some? <==> exists i :: 0 <= i < |os| && os[i].id == id
    ensures r.Some? ==> r.value in os && r.value.id == id
    ensures r.Some? ==> exists i :: 0 <= i < |os| && os[i] == r.value
                                   && forall j :: 0 <= j < i ==> os[j].id != id
  {
    if os == [] then None
    else if os[0].id == id then Some(os[0])
    else
      var r := FindOrder(os[1..], id);
      assert forall i :: 1 <= i < |os| ==> os[i] == os[1..][i - 1];
      if r.Some? then
        var i :| 0 <= i < |os[1..]| && os[1..][i] == r.value && forall j :: 0 <= j < i ==> os[1..][j].id != id;
        assert os[i + 1] == r.value && forall j :: 0 <= j < i + 1 ==> os[j].id != id;
        r
      else r
  }

  /** With unique identifiers, the order found is the one at the identifier's position. */
  lemma FindOrderAt(os: seq<Order>, i: nat)
    requires i < |os| && UniqueOrderIds(os)
    ensures FindOrder(os, os[i].id) == Some(os[i])
  {
    var r := FindOrder(os, os[i].id);
    var k :| 0 <= k < |os| && os[k] == r.value && forall j :: 0 <= j < k ==> os[j].id != os[i].id;
    assert k == i;
  }
}
