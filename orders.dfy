/**
 * `OrderManager` of the seller dashboard: the action button of each row of
 * the recent-orders table. A click reads the button's text at that moment,
 * so what a row does next depends on what earlier clicks wrote into it.
 *
 * The manager's own `this.showNotification` and `this.showModal` are not
 * members of the class (only `window.showNotification` and
 * `window.showModal` exist), so as written the first call of every action
 * raises a TypeError. The model calls the page-wide notification and modal
 * services instead, which is what the calls evidently mean.
 */
module Orders {
  import opened Wrappers
  import opened Records
  import Text
  import opened Notifications
  import opened Modal

  /** The row's `.status` cell: its class attribute and its text. */
  datatype StatusCell = StatusCell(className: string, text: string)

  /**
   * One row of the orders table: the text of its first cell (the order
   * identifier), its status cell if it has one, and the text of its
   * `.btn-small` action button.
   */
  datatype OrderRow = OrderRow(idText: string, status: Option<StatusCell>, buttonText: string)

  /** The branches of `handleOrderAction`'s switch. */
  datatype Action = Process | Track | View | NoAction

  /** The status cell `processOrder` writes. */
  const ShippedCell := StatusCell("status shipped", "Shipped")

  /** The three button captions the order table uses. */
  const ProcessLabel: string := "Process"
  const TrackLabel: string := "Track"
  const ViewLabel: string := "View"

  /** `switch (btn.textContent.trim())`: only the three exact labels select an action. */
  function ActionOf(text: string): (a: Action)
    ensures a == Process <==> Text.Trim(text) == ProcessLabel
    ensures a == Track <==> Text.Trim(text) == TrackLabel
    ensures a == View <==> Text.Trim(text) == ViewLabel
  {
    var t := Text.Trim(text);
    if t == ProcessLabel then Process
    else if t == TrackLabel then Track
    else if t == ViewLabel then View
    else NoAction
  }

  /** The row after `processOrder`: shipped (if it has a status cell) and relabelled `Track`, whatever it was before. */
  function Processed(r: OrderRow): (p: OrderRow)
    ensures p.idText == r.idText && p.buttonText == TrackLabel
    ensures p.status.Some? <==> r.status.Some?
    ensures p.status.Some? ==> p.status.value == ShippedCell
  {
    r.(status := if r.status.Some? then Some(ShippedCell) else None, buttonText := TrackLabel)
  }

  /** Since the label is read at click time, the next click on a processed row tracks the order. */
  lemma ProcessedRowTracks(r: OrderRow)
    ensures ActionOf(Processed(r).buttonText) == Track
  {
    assert TrackLabel[0] == 'T' && TrackLabel[|TrackLabel| - 1] == 'k';
    Text.TrimOfTrimmed(TrackLabel);
  }

  /** Processing an already processed row leaves it as it is. */
  lemma ProcessedIdempotent(r: OrderRow)
    ensures Processed(Processed(r)) == Processed(r)
  {
  }

  /** The messages a click on a button whose row has identifier `id` posts. */
  function ActionNotices(a: Action, id: string): (ns: seq<Notice>)
    ensures a == NoAction <==> ns == []
    ensures a == Process ==> |ns| == 2 && ns[0].kind == "info" && ns[1].kind == "success"
    ensures a == Track || a == View ==> |ns| == 1 && ns[0].kind == "info"
  {
    match a
    case Process => [Notice("Processing order " + id, "info"), Notice("Order " + id + " marked as shipped", "success")]
    case Track => [Notice("Tracking information for " + id, "info")]
    case View => [Notice("Viewing details for " + id, "info")]
    case NoAction => []
  }

  class OrderManager {
    /** The rows of the orders table, in document order. */
    var rows: seq<OrderRow>
    /** The page-wide notification container. */
    const notes: NotificationCenter
    /** The page-wide modal overlay. */
    const modal: ModalSurface
    /** `dashboardData.recentOrders`, which the manager only reads. */
    const orders: seq<Order>

    ghost predicate Valid()
      reads this, notes, modal
    {
      notes.Valid() && modal.Valid()
    }

    /** `new OrderManager()`: wires the action button of every row present. */
    constructor (table: seq<OrderRow>, center: NotificationCenter, surface: ModalSurface)
      requires center.Valid() && surface.Valid()
      ensures Valid()
      ensures rows == table && notes == center && modal == surface && orders == RecentOrders
    {
      rows, notes, modal, orders := table, center, surface, RecentOrders;
    }

    /**
     * `processOrder`: posts "Processing order …" (info), marks row `k`
     * shipped and relabels its button `Track`, then posts "… marked as
     * shipped" (success). No other row and no seed order changes.
     */
    method ProcessOrder(k: nat)
      requires Valid() && k < |rows|
      modifies this, notes
      ensures Valid()
      ensures Posted(notes, ActionNotices(Process, old(rows[k]).idText))
      ensures rows == old(rows)[k := Processed(old(rows[k]))]
    {
      var id := rows[k].idText;
      var n0 := notes.nextId;
      var first := notes.Show("Processing order " + id, Some("info"));
      rows := rows[k := Processed(rows[k])];
      var second := notes.Show("Order " + id + " marked as shipped", Some("success"));
      assert Numbered(n0, ActionNotices(Process, id)) == [Entry(n0, Notice("Processing order " + id, "info")),
                                                          Entry(n0 + 1, Notice("Order " + id + " marked as shipped", "success"))];
      assert IdRange(n0, 2) == {n0} + {n0 + 1};
    }

    /** `trackOrder`: posts "Tracking information for …" (info) and shows the tracking dialog; no row changes. */
    method TrackOrder(id: string)
      requires Valid()
      modifies notes, modal
      ensures Valid()
      ensures Posted(notes, ActionNotices(Track, id))
      ensures modal.open && modal.title == "Tracking Information" && modal.content == TrackingInfo(id)
      ensures modal.confirmHandlers == [] && !modal.cancelWired && modal.pendingWirings == old(modal.pendingWirings)
    {
      var n0 := notes.nextId;
      var n := notes.Show("Tracking information for " + id, Some("info"));
      assert Numbered(n0, ActionNotices(Track, id)) == [Entry(n0, Notice("Tracking information for " + id, "info"))];
      assert IdRange(n0, 1) == {n0};
      modal.ShowModal("Tracking Information", TrackingInfo(id));
    }

    /**
     * `viewOrder`: posts "Viewing details for …" (info) in every case, and
     * shows the details dialog iff `dashboardData.recentOrders` holds an order
     * with that identifier.
     */
    method ViewOrder(id: string)
      requires Valid()
      modifies notes, modal
      ensures Valid()
      ensures Posted(notes, ActionNotices(View, id))
      ensures match FindOrder(orders, id)
        case None => unchanged(modal)
        case Some(o) =>
          modal.open && modal.title == "Order Details" && modal.content == OrderDetails(o)
          && modal.confirmHandlers == [] && !modal.cancelWired && modal.pendingWirings == old(modal.pendingWirings)
    {
      var n0 := notes.nextId;
      var n := notes.Show("Viewing details for " + id, Some("info"));
      assert Numbered(n0, ActionNotices(View, id)) == [Entry(n0, Notice("Viewing details for " + id, "info"))];
      assert IdRange(n0, 1) == {n0};
      var order := FindOrder(orders, id);
      if order.Some? {
        modal.ShowModal("Order Details", OrderDetails(order.value));
      }
    }

    /**
     * A click on the action button of row `k` (`handleOrderAction` with the
     * button's trimmed text and its row's first cell). Only Process changes
     * the table, and then only row `k`; a label matching no case does nothing.
     */
    method HandleOrderAction(k: nat)
      requires Valid() && k < |rows|
      modifies this, notes, modal
      ensures Valid()
      ensures var row := old(rows[k]);
        match ActionOf(row.buttonText)
        case Process =>
          Posted(notes, ActionNotices(Process, row.idText))
          && rows == old(rows)[k := Processed(row)] && unchanged(modal)
        case Track =>
          Posted(notes, ActionNotices(Track, row.idText)) && rows == old(rows)
          && modal.open && modal.title == "Tracking Information" && modal.content == TrackingInfo(row.idText)
          && modal.confirmHandlers == [] && !modal.cancelWired && modal.pendingWirings == old(modal.pendingWirings)
        case View =>
          Posted(notes, ActionNotices(View, row.idText)) && rows == old(rows)
          && (match FindOrder(orders, row.idText)
              case None => unchanged(modal)
              case Some(o) =>
                modal.open && modal.title == "Order Details" && modal.content == OrderDetails(o)
                && modal.confirmHandlers == [] && !modal.cancelWired && modal.pendingWirings == old(modal.pendingWirings))
        case NoAction =>
          Posted(notes, []) && rows == old(rows) && unchanged(modal)
    {
      RunAction(k, ActionOf(rows[k].buttonText));
    }

    /** The branch of `handleOrderAction`'s switch selected by `action`, on row `k`. */
    method RunAction(k: nat, action: Action)
      requires Valid() && k < |rows|
      modifies this, notes, modal
      ensures Valid()
      ensures var row := old(rows[k]);
        match action
        case Process =>
          Posted(notes, ActionNotices(Process, row.idText))
          && rows == old(rows)[k := Processed(row)] && unchanged(modal)
        case Track =>
          Posted(notes, ActionNotices(Track, row.idText)) && rows == old(rows)
          && modal.open && modal.title == "Tracking Information" && modal.content == TrackingInfo(row.idText)
          && modal.confirmHandlers == [] && !modal.cancelWired && modal.pendingWirings == old(modal.pendingWirings)
        case View =>
          Posted(notes, ActionNotices(View, row.idText)) && rows == old(rows)
          && (match FindOrder(orders, row.idText)
              case None => unchanged(modal)
              case Some(o) =>
                modal.open && modal.title == "Order Details" && modal.content == OrderDetails(o)
                && modal.confirmHandlers == [] && !modal.cancelWired && modal.pendingWirings == old(modal.pendingWirings))
        case NoAction =>
          Posted(notes, []) && rows == old(rows) && unchanged(modal)
    {
      var id := rows[k].idText;
      match action
      case Process => ProcessOrder(k);
      case Track => TrackOrder(id);
      case View => ViewOrder(id);
      case NoAction => assert IdRange(notes.nextId, 0) == {};
    }
  }

  /** On the seed table, viewing an order that exists opens its details; an unknown identifier opens nothing. */
  lemma ViewFindsSeedOrders()
    ensures FindOrder(RecentOrders, "ORD-12346") == Some(RecentOrders[1])
    ensures FindOrder(RecentOrders, "ORD-99999").None?
  {
    SeedIsWellFormed();
    FindOrderAt(RecentOrders, 1);
    assert forall i :: 0 <= i < |RecentOrders| ==> RecentOrders[i].id[8] != '9';
  }
}
